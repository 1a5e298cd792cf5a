/** Option, the stock wrapper for a value that may be absent (JavaScript's `undefined`). */
module Wrappers {
  datatype Option<+T> = None | Some(value: T)
}

/**
 * The JavaScript string and array operations the protocol engine relies on:
 * `indexOf`, `includes`, `slice`, `split` and `removeElement`, over `seq<char>`.
 */
module Text {

  /** `t` occurs in `s` starting at index `j`. */
  predicate OccursAt(s: string, t: string, j: int) {
    0 <= j && j + |t| <= |s| && s[j..j + |t|] == t
  }

  /** `s.indexOf(t)`: the first index at which `t` occurs in `s`, or -1 when it does not occur. */
  function IndexOf(s: string, t: string): (r: int)
    ensures -1 <= r && (r >= 0 ==> r + |t| <= |s|)
    decreases |s|
  {
    if |s| < |t| then -1
    else if s[..|t|] == t then 0
    else
      var k := IndexOf(s[1..], t);
      if k < 0 then -1 else k + 1
  }

  /** What `indexOf` reports is an occurrence. */
  lemma {:induction false} IndexOfOccurs(s: string, t: string)
    ensures IndexOf(s, t) >= 0 ==> OccursAt(s, t, IndexOf(s, t))
    decreases |s|
  {
    if |s| >= |t| && s[..|t|] != t {
      var k := IndexOf(s[1..], t);
      IndexOfOccurs(s[1..], t);
      if k >= 0 {
        assert s[1..][k..k + |t|] == s[k + 1..k + 1 + |t|];
      }
    }
  }

  /** `indexOf` reports the first occurrence: an occurrence at `j` means one is reported at or before `j`. */
  lemma {:induction false} IndexOfFirst(s: string, t: string, j: int)
    requires 0 <= j
    ensures OccursAt(s, t, j) ==> 0 <= IndexOf(s, t) <= j
    decreases |s|
  {
    if OccursAt(s, t, j) && s[..|t|] != t {
      assert j != 0 by {
        assert s[..|t|] == s[0..|t|];
      }
      assert s[1..][j - 1..j - 1 + |t|] == s[j..j + |t|];
      IndexOfFirst(s[1..], t, j - 1);
    }
  }

  /** Concatenation is associative. */
  lemma Assoc(a: string, b: string, c: string)
    ensures a + b + c == a + (b + c)
  {
  }

  /** `s.includes(t)`. */
  predicate Contains(s: string, t: string) {
    IndexOf(s, t) >= 0
  }

  /** An occurrence inside a part of a string is an occurrence in the whole string. */
  lemma ContainsInFactor(a: string, b: string, c: string, t: string)
    requires Contains(b, t)
    ensures Contains(a + b + c, t)
  {
    var j := IndexOf(b, t);
    IndexOfOccurs(b, t);
    assert (a + b + c)[|a| + j..|a| + j + |t|] == b[j..j + |t|];
    assert OccursAt(a + b + c, t, |a| + j);
    IndexOfFirst(a + b + c, t, |a| + j);
  }

  /** A string of which no character is `t[0]` does not contain `t`. */
  lemma NotContainsWithoutHead(s: string, t: string)
    requires |t| > 0 && t[0] !in s
    ensures !Contains(s, t)
  {
    forall j | 0 <= j && j + |t| <= |s|
      ensures !OccursAt(s, t, j)
    {
      assert s[j..j + |t|][0] == s[j] != t[0];
    }
    IndexOfOccurs(s, t);
  }

  /** JavaScript's clamping of a `slice` index into [0, n]: negative indices count from the end. */
  function ClampIndex(n: nat, i: int): (r: nat)
    ensures r <= n
    ensures 0 <= i <= n ==> r == i
  {
    if i < 0 then (if n + i < 0 then 0 else n + i) else if i > n then n else i
  }

  /** `s.slice(start)`. */
  function Slice(s: string, start: int): (r: string)
    ensures |r| <= |s| && r == s[|s| - |r|..]
    ensures 0 <= start <= |s| ==> r == s[start..]
  {
    s[ClampIndex(|s|, start)..]
  }

  /** `s.slice(start, end)`. */
  function SliceTo(s: string, start: int, end: int): (r: string)
    ensures 0 <= start <= end <= |s| ==> r == s[start..end]
  {
    var i, j := ClampIndex(|s|, start), ClampIndex(|s|, end);
    if i < j then s[i..j] else ""
  }

  /** `s.split(c)` for a one-character separator: the pieces between the separators, in order. */
  function Split(s: string, c: char): (r: seq<string>)
    ensures |r| >= 1
    ensures forall k | 0 <= k < |r| :: c !in r[k]
    decreases |s|
  {
    if |s| == 0 then [""]
    else
      var rest := Split(s[1..], c);
      if s[0] == c then [""] + rest else [[s[0]] + rest[0]] + rest[1..]
  }

  /** `pieces.join(c)`: the inverse of `Split`. */
  function Join(pieces: seq<string>, c: char): string
    requires |pieces| >= 1
    decreases |pieces|
  {
    if |pieces| == 1 then pieces[0] else pieces[0] + [c] + Join(pieces[1..], c)
  }

  /** Splitting and joining again gives back the original text. */
  lemma {:induction false} JoinSplit(s: string, c: char)
    ensures Join(Split(s, c), c) == s
    decreases |s|
  {
    if |s| > 0 {
      var rest := Split(s[1..], c);
      JoinSplit(s[1..], c);
      if s[0] == c {
        assert Split(s, c)[1..] == rest;
      } else if |rest| == 1 {
        assert Join(Split(s, c), c) == [s[0]] + rest[0];
      } else {
        assert Split(s, c)[1..] == rest[1..];
        assert Join(rest, c) == rest[0] + [c] + Join(rest[1..], c);
      }
      assert s == [s[0]] + s[1..];
    }
  }

  /** A text without the separator is a single piece. */
  lemma {:induction false} SplitWithout(s: string, c: char)
    requires c !in s
    ensures Split(s, c) == [s]
    decreases |s|
  {
    if |s| > 0 {
      SplitWithout(s[1..], c);
      assert s == [s[0]] + s[1..];
    }
  }

  /** Splitting distributes over a separator: the pieces of `a + c + b` are those of `a` followed by those of `b`. */
  lemma {:induction false} SplitAt(a: string, c: char, b: string)
    ensures Split(a + [c] + b, c) == Split(a, c) + Split(b, c)
    decreases |a|
  {
    if |a| == 0 {
      assert [c] + b == a + [c] + b;
      assert ([c] + b)[1..] == b;
    } else {
      assert (a + [c] + b)[1..] == a[1..] + [c] + b;
      SplitAt(a[1..], c, b);
    }
  }

  /** The strings of `xs` other than the empty string, in order. */
  function NonEmpty(xs: seq<string>): (r: seq<string>)
    ensures forall k | 0 <= k < |r| :: r[k] != ""
    ensures |r| <= |xs|
  {
    if xs == [] then []
    else if xs[0] == "" then NonEmpty(xs[1..])
    else [xs[0]] + NonEmpty(xs[1..])
  }

  /** `xs.removeElement(x)`: the array without the first occurrence of `x` (unchanged when `x` is absent). */
  function RemoveFirst<T(==)>(xs: seq<T>, x: T): (r: seq<T>)
    ensures x in xs ==> |r| == |xs| - 1
    ensures x !in xs ==> r == xs
  {
    if xs == [] then []
    else if xs[0] == x then xs[1..]
    else [xs[0]] + RemoveFirst(xs[1..], x)
  }

  /** The element removed is the first occurrence: what precedes it and what follows it are kept, in order. */
  lemma {:induction false} RemoveFirstAt<T>(xs: seq<T>, x: T, k: nat)
    requires k < |xs| && xs[k] == x && x !in xs[..k]
    ensures RemoveFirst(xs, x) == xs[..k] + xs[k + 1..]
    decreases k
  {
    if k > 0 {
      assert xs[0] == xs[..k][0];
      assert xs[1..][..k - 1] == xs[1..k];
      RemoveFirstAt(xs[1..], x, k - 1);
      assert xs[..k] == [xs[0]] + xs[1..k];
    }
  }

  /** Removing an empty string does not change the non-empty strings or their order. */
  lemma {:induction false} NonEmptyRemoveFirst(xs: seq<string>)
    ensures NonEmpty(RemoveFirst(xs, "")) == NonEmpty(xs)
  {
    if xs != [] && xs[0] != "" {
      NonEmptyRemoveFirst(xs[1..]);
      assert ([xs[0]] + RemoveFirst(xs[1..], ""))[1..] == RemoveFirst(xs[1..], "");
    }
  }

  /** A sequence with no empty string is its own non-empty part. */
  lemma {:induction false} NonEmptyIdentity(xs: seq<string>)
    requires "" !in xs
    ensures NonEmpty(xs) == xs
  {
    if xs != [] {
      NonEmptyIdentity(xs[1..]);
    }
  }

  /** `while (responseArray.removeElement(""));` — drop empty strings one at a time until none is left. */
  method StripEmpty(fields: seq<string>) returns (r: seq<string>)
    ensures r == NonEmpty(fields)
  {
    r := fields;
    while "" in r
      invariant NonEmpty(r) == NonEmpty(fields)
      decreases |r|
    {
      NonEmptyRemoveFirst(r);
      r := RemoveFirst(r, "");
    }
    NonEmptyIdentity(r);
  }
}
