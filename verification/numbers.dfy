/**
 * Numbers as the engine sees them: integers rendered into command text by string
 * concatenation, and decimal fields read back with `parseInt`.
 */
module Numbers {
  import opened Wrappers

  /** A JavaScript number as far as the engine uses it: an integer, or NaN from a failed `parseInt`. */
  datatype Num = Int(value: int) | NaN

  predicate IsDigit(ch: char) {
    '0' <= ch <= '9'
  }

  predicate AllDigits(s: string) {
    forall k | 0 <= k < |s| :: IsDigit(s[k])
  }

  function DigitChar(d: nat): (ch: char)
    requires d < 10
    ensures IsDigit(ch)
  {
    ('0' as int + d) as char
  }

  function DigitValue(ch: char): (d: nat)
    requires IsDigit(ch)
    ensures d < 10 && DigitChar(d) == ch
  {
    ch as int - '0' as int
  }

  /** The decimal digits of `n`, most significant first, without leading zeros. */
  function DecimalString(n: nat): (s: string)
    ensures |s| >= 1 && AllDigits(s)
    ensures |s| > 1 ==> s[0] != '0'
    decreases n
  {
    (if n < 10 then "" else DecimalString(n / 10)) + [DigitChar(n % 10)]
  }

  /** The value of a string of decimal digits. */
  function DigitsValue(s: string): nat
    requires AllDigits(s)
    decreases |s|
  {
    if s == [] then 0 else DigitsValue(s[..|s| - 1]) * 10 + DigitValue(s[|s| - 1])
  }

  /** The longest prefix of `s` made of decimal digits. */
  function DigitPrefix(s: string): (p: string)
    ensures AllDigits(p) && p <= s
    ensures |p| < |s| ==> !IsDigit(s[|p|])
  {
    if s == [] || !IsDigit(s[0]) then "" else [s[0]] + DigitPrefix(s[1..])
  }

  /**
   * `parseInt(s)` for a field that starts with its digits: the value of the leading
   * digits, or NaN when there are none.
   */
  function ParseInt(s: string): Num {
    var p := DigitPrefix(s);
    if p == [] then NaN else Int(DigitsValue(p))
  }

  /** `parseInt(x)` where `x` may be `undefined` (an array index past the end). */
  function ParseField(x: Option<string>): Num {
    match x
    case None => NaN
    case Some(s) => ParseInt(s)
  }

  /**
   * JavaScript's rendering of an integer inside a string concatenation: the digits of a
   * natural number read back as that number, and a negative number is a '-' followed by the
   * digits of its magnitude.
   */
  function IntToString(n: int): (s: string)
    ensures |s| >= 1
    ensures forall k | 0 <= k < |s| :: IsDigit(s[k]) || s[k] == '-'
    ensures n >= 0 ==> ParseInt(s) == Int(n)
    ensures n < 0 ==> s[0] == '-' && ParseInt(s[1..]) == Int(-n)
  {
    if n < 0 then
      ParseDecimal(-n);
      assert ("-" + DecimalString(-n))[1..] == DecimalString(-n);
      "-" + DecimalString(-n)
    else
      ParseDecimal(n);
      DecimalString(n)
  }

  /** A string of digits is its own digit prefix. */
  lemma {:induction false} DigitPrefixOfDigits(s: string)
    requires AllDigits(s)
    ensures DigitPrefix(s) == s
    decreases |s|
  {
    if s != [] {
      DigitPrefixOfDigits(s[1..]);
      assert s == [s[0]] + s[1..];
    }
  }

  /** The digits `DecimalString` produces are worth `n`. */
  lemma {:induction false} DigitsValueOfDecimal(n: nat)
    ensures DigitsValue(DecimalString(n)) == n
    decreases n
  {
    var s := DecimalString(n);
    var q, d := n / 10, n % 10;
    var init := s[..|s| - 1];
    DivMod10(n);
    assert DigitValue(s[|s| - 1]) == d by {
      assert s[|s| - 1] == DigitChar(d);
    }
    var v := DigitsValue(init);
    assert DigitsValue(s) == v * 10 + d;
    if n >= 10 {
      assert init == DecimalString(q);
      DigitsValueOfDecimal(q);
      assert v == q;
    } else {
      assert init == "";
      assert v == 0 == q;
    }
  }

  lemma DivMod10(n: nat)
    ensures n == n / 10 * 10 + n % 10 && n % 10 < 10
    ensures n < 10 ==> n / 10 == 0
  {
  }

  /** Reading back the decimal rendering of a natural number gives the number. */
  lemma ParseDecimal(n: nat)
    ensures ParseInt(DecimalString(n)) == Int(n)
  {
    DigitPrefixOfDigits(DecimalString(n));
    DigitsValueOfDecimal(n);
  }

  /** A leading zero does not change the value of a digit string. */
  lemma {:induction false} DigitsValueLeadingZero(s: string)
    requires AllDigits(s)
    ensures AllDigits("0" + s) && DigitsValue("0" + s) == DigitsValue(s)
    decreases |s|
  {
    if s != [] {
      var t := "0" + s;
      assert t[..|t| - 1] == "0" + s[..|s| - 1];
      DigitsValueLeadingZero(s[..|s| - 1]);
    }
  }

  /** Two-digit rendering with a leading zero, as the SNTP reply writes hours, minutes and seconds. */
  function Pad2(n: nat): (s: string)
    ensures AllDigits(s) && |s| >= 2
  {
    if n < 10 then "0" + DecimalString(n) else DecimalString(n)
  }

  /** `parseInt` reads a zero-padded field back to its value. */
  lemma ParsePad2(n: nat)
    ensures ParseInt(Pad2(n)) == Int(n)
  {
    ParseDecimal(n);
    if n < 10 {
      DigitsValueLeadingZero(DecimalString(n));
      DigitPrefixOfDigits(Pad2(n));
    }
  }
}
