/**
 * The SNTP time reply of `updateInternetTime`: the text after the first ':' split into
 * space-separated fields, with the empty ones removed, then read as weekday, month, day,
 * time of day and year.
 */
module SntpTime {
  import opened Wrappers
  import opened Text
  import opened Numbers

  const PREFIX: string := "+CIPSNTPTIME:"
  /** A reply whose year is still 1970 means the module has not synchronised yet (ESP8266.ts:552). */
  const UNSYNCED_YEAR: string := "1970"

  const WEEKDAYS: seq<string> := ["Mon", "Tue", "Wed", "Thu", "Fri", "Sat", "Sun"]
  const MONTHS: seq<string> := ["Jan", "Feb", "Mar", "Apr", "May", "Jun", "Jul", "Aug", "Sep", "Oct", "Nov", "Dec"]

  /** The English abbreviation of weekday `n`, Monday being 1. */
  function WeekdayName(n: nat): (r: string)
    requires 1 <= n <= 7
    ensures r in WEEKDAYS && |r| == 3 && ' ' !in r
  {
    WEEKDAYS[n - 1]
  }

  /** The English abbreviation of month `n`, January being 1. */
  function MonthName(n: nat): (r: string)
    requires 1 <= n <= 12
    ensures r in MONTHS && |r| == 3 && ' ' !in r
  {
    MONTHS[n - 1]
  }

  /**
   * The weekday `switch` (ESP8266.ts:559-567): a known abbreviation gives its number,
   * anything else leaves the weekday unchanged (None).
   */
  function WeekdayNumber(name: string): (r: Option<nat>)
    ensures r.Some? ==> 1 <= r.value <= 7 && WeekdayName(r.value) == name
    ensures r.None? ==> name !in WEEKDAYS
  {
    if name == "Mon" then Some(1)
    else if name == "Tue" then Some(2)
    else if name == "Wed" then Some(3)
    else if name == "Thu" then Some(4)
    else if name == "Fri" then Some(5)
    else if name == "Sat" then Some(6)
    else if name == "Sun" then Some(7)
    else None
  }

  /**
   * The month `switch` (ESP8266.ts:570-583): a known abbreviation gives its number,
   * anything else leaves the month unchanged (None).
   */
  function MonthNumber(name: string): (r: Option<nat>)
    ensures r.Some? ==> 1 <= r.value <= 12 && MonthName(r.value) == name
    ensures r.None? ==> name !in MONTHS
  {
    if name == "Jan" then Some(1)
    else if name == "Feb" then Some(2)
    else if name == "Mar" then Some(3)
    else if name == "Apr" then Some(4)
    else if name == "May" then Some(5)
    else if name == "Jun" then Some(6)
    else if name == "Jul" then Some(7)
    else if name == "Aug" then Some(8)
    else if name == "Sep" then Some(9)
    else if name == "Oct" then Some(10)
    else if name == "Nov" then Some(11)
    else if name == "Dec" then Some(12)
    else None
  }

  /** Every weekday name reads back as its number. */
  lemma WeekdayRoundTrip(n: nat)
    requires 1 <= n <= 7
    ensures WeekdayNumber(WeekdayName(n)) == Some(n)
  {
    assert WEEKDAYS[n - 1] in WEEKDAYS;
  }

  /** Every month name reads back as its number. */
  lemma MonthRoundTrip(n: nat)
    requires 1 <= n <= 12
    ensures MonthNumber(MonthName(n)) == Some(n)
  {
    assert MONTHS[n - 1] in MONTHS;
  }

  /** `xs[k]`, or `undefined` (None) past the end. */
  function At(xs: seq<string>, k: nat): (r: Option<string>)
    ensures r.Some? <==> k < |xs|
    ensures r.Some? ==> r.value == xs[k]
  {
    if k < |xs| then Some(xs[k]) else None
  }

  /**
   * The fields of a reply line (ESP8266.ts:545-549): the text after the first ':' (the whole
   * line when there is none), split at spaces, without the empty fields.
   */
  function TimeFields(line: string): seq<string> {
    NonEmpty(Split(Slice(line, IndexOf(line, ":") + 1), ' '))
  }

  /** The retry test (ESP8266.ts:552): only a fifth field equal to "1970" means not yet; a missing one does not. */
  predicate Unsynced(fields: seq<string>) {
    At(fields, 4) == Some(UNSYNCED_YEAR)
  }

  /** The seven time values the module keeps, each an integer or NaN. */
  datatype Reading = Reading(weekday: Num, month: Num, day: Num, hour: Num, minute: Num, second: Num, year: Num)

  /**
   * What reading the fields does to the time values, and whether it completes: a reply with
   * fewer than four fields stops with a runtime error when it splits the missing time field
   * (ESP8266.ts:589), after the weekday, the month and the day have already been written.
   */
  datatype Parsed = Parsed(reading: Reading, complete: bool)

  /** A field that names a weekday or month sets it; any other field, or none, keeps the old value. */
  function Named(number: Option<nat>, old_value: Num): (r: Num)
    ensures number.Some? ==> r == Int(number.value)
    ensures number.None? ==> r == old_value
  {
    if number.Some? then Int(number.value) else old_value
  }

  /** The weekday or month number a field names, if the field is there and names one. */
  function Lookup(field: Option<string>, table: string -> Option<nat>): Option<nat> {
    if field.Some? then table(field.value) else None
  }

  /**
   * ESP8266.ts:558-595: weekday and month by name, then the day, then hour, minute and second
   * from the ':'-separated time field, then the year; `parseInt` of a missing field is NaN.
   */
  function ReadTime(prev: Reading, fields: seq<string>): (p: Parsed)
    ensures p.complete <==> |fields| >= 4
    ensures p.reading.day == ParseField(At(fields, 2))
    ensures p.complete ==> p.reading.year == ParseField(At(fields, 4))
    ensures !p.complete ==> p.reading.(weekday := prev.weekday, month := prev.month, day := prev.day) == prev
  {
    var weekday := Named(Lookup(At(fields, 0), WeekdayNumber), prev.weekday);
    var month := Named(Lookup(At(fields, 1), MonthNumber), prev.month);
    var day := ParseField(At(fields, 2));
    if |fields| < 4 then
      Parsed(prev.(weekday := weekday, month := month, day := day), false)
    else
      var clock := Split(fields[3], ':');
      Parsed(Reading(weekday, month, day,
                     ParseField(At(clock, 0)), ParseField(At(clock, 1)), ParseField(At(clock, 2)),
                     ParseField(At(fields, 4))), true)
  }

  /** The day of the month as the module prints it: two characters, a space before a single digit. */
  function DayText(day: nat): string {
    if day < 10 then " " + DecimalString(day) else DecimalString(day)
  }

  /** A time reply as the module sends it, in C `asctime` layout: "+CIPSNTPTIME:Thu Aug  4 14:48:05 2016". */
  function TimeReply(weekday: nat, month: nat, day: nat, hour: nat, minute: nat, second: nat, year: nat): string
    requires 1 <= weekday <= 7 && 1 <= month <= 12
  {
    PREFIX + (WeekdayName(weekday) + " " + MonthName(month) + " " + DayText(day) + " "
      + Clock(hour, minute, second) + " " + DecimalString(year))
  }

  /** The time of day as the module prints it, "hh:mm:ss". */
  function Clock(hour: nat, minute: nat, second: nat): string {
    Pad2(hour) + ":" + Pad2(minute) + ":" + Pad2(second)
  }

  /** The text after the first ':' of a reply is the date and time. */
  lemma AfterPrefix(body: string)
    ensures Slice(PREFIX + body, IndexOf(PREFIX + body, ":") + 1) == body
  {
    var line := PREFIX + body;
    assert line[12..13] == ":";
    IndexOfFirst(line, ":", 12);
    IndexOfOccurs(line, ":");
    var k := IndexOf(line, ":");
    assert line[k] == PREFIX[k];
  }

  /** Pieces without spaces, joined by single spaces, split back into themselves. */
  lemma Words5(a0: string, a1: string, a2: string, a3: string, a4: string)
    requires ' ' !in a0 && ' ' !in a1 && ' ' !in a2 && ' ' !in a3 && ' ' !in a4
    ensures Split(a0 + " " + a1 + " " + a2 + " " + a3 + " " + a4, ' ') == [a0, a1, a2, a3, a4]
  {
    var p2 := a0 + " " + a1 + " " + a2;
    assert Split(p2, ' ') == [a0, a1, a2] by {
      SplitWithout(a0, ' ');
      SplitAt(a0, ' ', a1);
      SplitWithout(a1, ' ');
      SplitAt(a0 + " " + a1, ' ', a2);
      SplitWithout(a2, ' ');
    }
    SplitAt(p2, ' ', a3);
    SplitWithout(a3, ' ');
    SplitAt(p2 + " " + a3, ' ', a4);
    SplitWithout(a4, ' ');
  }

  /** A string of digits holds no separator. */
  lemma DigitsWithout(s: string, c: char)
    requires AllDigits(s) && !IsDigit(c)
    ensures c !in s
  {
    forall k | 0 <= k < |s| ensures s[k] != c {
      assert IsDigit(s[k]);
    }
  }

  /** A piece after a leading space splits into an empty field and the piece. */
  lemma LeadingSpace(a: string)
    requires ' ' !in a
    ensures Split(" " + a, ' ') == ["", a]
  {
    SplitAt("", ' ', a);
    SplitWithout("", ' ');
    SplitWithout(a, ' ');
    assert "" + [' '] + a == " " + a;
  }

  /** With a doubled space before the third piece, the split holds one empty field there. */
  lemma Words3Gap(a0: string, a1: string, a3: string)
    requires ' ' !in a0 && ' ' !in a1 && ' ' !in a3
    ensures Split(a0 + " " + a1 + " " + (" " + a3), ' ') == [a0, a1, "", a3]
  {
    var q1 := a0 + " " + a1;
    assert Split(q1, ' ') == [a0, a1] by {
      SplitWithout(a0, ' ');
      SplitAt(a0, ' ', a1);
      SplitWithout(a1, ' ');
    }
    SplitAt(q1, ' ', " " + a3);
    LeadingSpace(a3);
  }

  /** The same with two more pieces after it. */
  lemma Words5Gap(a0: string, a1: string, a3: string, a4: string, a5: string)
    requires ' ' !in a0 && ' ' !in a1 && ' ' !in a3 && ' ' !in a4 && ' ' !in a5
    ensures Split(a0 + " " + a1 + " " + (" " + a3) + " " + a4 + " " + a5, ' ') == [a0, a1, "", a3, a4, a5]
  {
    var q3 := a0 + " " + a1 + " " + (" " + a3);
    Words3Gap(a0, a1, a3);
    SplitAt(q3, ' ', a4);
    SplitWithout(a4, ' ');
    SplitAt(q3 + " " + a4, ' ', a5);
    SplitWithout(a5, ' ');
  }

  /** Removing the empty field leaves the five others in order. */
  lemma DropGap(a0: string, a1: string, a3: string, a4: string, a5: string)
    requires a0 != "" && a1 != "" && a3 != "" && a4 != "" && a5 != ""
    ensures NonEmpty([a0, a1, "", a3, a4, a5]) == [a0, a1, a3, a4, a5]
  {
    var tail := [a3, a4, a5];
    NonEmptyIdentity(tail);
    var xs := [a0, a1, "", a3, a4, a5];
    assert xs[1..] == [a1, "", a3, a4, a5];
    assert xs[1..][1..] == [""] + tail;
    assert ([""] + tail)[1..] == tail;
    assert NonEmpty([""] + tail) == tail;
    assert NonEmpty(xs[1..]) == [a1] + tail;
    assert NonEmpty(xs) == [a0] + ([a1] + tail);
  }

  /** Five non-empty fields are all kept. */
  lemma KeepFive(a0: string, a1: string, a2: string, a3: string, a4: string)
    requires a0 != "" && a1 != "" && a2 != "" && a3 != "" && a4 != ""
    ensures NonEmpty([a0, a1, a2, a3, a4]) == [a0, a1, a2, a3, a4]
  {
    var xs := [a0, a1, a2, a3, a4];
    forall k | 0 <= k < |xs| ensures xs[k] != "" { }
    NonEmptyIdentity(xs);
  }

  /** The date fields with the day written bare or after a padding space. */
  lemma DateFields(wd: string, mon: string, dt: string, d: string, time: string, year: string)
    requires wd != "" && mon != "" && d != "" && time != "" && year != ""
    requires ' ' !in wd && ' ' !in mon && ' ' !in d && ' ' !in time && ' ' !in year
    requires dt == d || dt == " " + d
    ensures NonEmpty(Split(wd + " " + mon + " " + dt + " " + time + " " + year, ' ')) == [wd, mon, d, time, year]
  {
    if dt == d {
      Words5(wd, mon, d, time, year);
      KeepFive(wd, mon, d, time, year);
    } else {
      Words5Gap(wd, mon, d, time, year);
      DropGap(wd, mon, d, time, year);
    }
  }

  /** The fields of a reply's date and time are weekday, month, day, time and year, the padding space gone. */
  lemma ReplyFields(wd: string, mon: string, day: nat, time: string, year: string)
    requires wd != "" && mon != "" && time != "" && year != ""
    requires ' ' !in wd && ' ' !in mon && ' ' !in time && ' ' !in year
    ensures NonEmpty(Split(wd + " " + mon + " " + DayText(day) + " " + time + " " + year, ' '))
      == [wd, mon, DecimalString(day), time, year]
  {
    var d, dt := DecimalString(day), DayText(day);
    DigitsWithout(d, ' ');
    assert d != "";
    if day < 10 {
      assert dt == " " + d;
    } else {
      assert dt == d;
    }
    DateFields(wd, mon, dt, d, time, year);
  }

  /** Hour, minute and second of a reply's time field. */
  lemma ClockFields(hour: nat, minute: nat, second: nat)
    ensures Split(Clock(hour, minute, second), ':') == [Pad2(hour), Pad2(minute), Pad2(second)]
  {
    DigitsWithout(Pad2(hour), ':');
    DigitsWithout(Pad2(minute), ':');
    DigitsWithout(Pad2(second), ':');
    SplitWithout(Pad2(hour), ':');
    SplitAt(Pad2(hour), ':', Pad2(minute));
    SplitWithout(Pad2(minute), ':');
    SplitAt(Pad2(hour) + ":" + Pad2(minute), ':', Pad2(second));
    SplitWithout(Pad2(second), ':');
  }

  /**
   * Round trip: reading a reply the module sends gives back every value in it, whatever the
   * values before, and a year other than 1970 ends the retries.
   */
  lemma ReadReply(prev: Reading, weekday: nat, month: nat, day: nat, hour: nat, minute: nat, second: nat, year: nat)
    requires 1 <= weekday <= 7 && 1 <= month <= 12
    ensures var fields := TimeFields(TimeReply(weekday, month, day, hour, minute, second, year));
      && ReadTime(prev, fields) == Parsed(Reading(Int(weekday), Int(month), Int(day), Int(hour), Int(minute), Int(second), Int(year)), true)
      && (Unsynced(fields) <==> year == 1970)
  {
    var time := Clock(hour, minute, second);
    ReplySplits(weekday, month, day, hour, minute, second, year);
    ParseDecimal(day);
    ReadFields(prev, weekday, month, DecimalString(day), day, time, hour, minute, second, year);
  }

  /** The same reply from a firmware that zero-pads the day: "+CIPSNTPTIME:Tue Jan 02 03:04:05 2024". */
  function PaddedTimeReply(weekday: nat, month: nat, day: nat, hour: nat, minute: nat, second: nat, year: nat): string
    requires 1 <= weekday <= 7 && 1 <= month <= 12
  {
    PREFIX + (WeekdayName(weekday) + " " + MonthName(month) + " " + Pad2(day) + " "
      + Clock(hour, minute, second) + " " + DecimalString(year))
  }

  /** Round trip for a reply with a zero-padded day: `parseInt` reads "02" as 2. */
  lemma ReadPaddedReply(prev: Reading, weekday: nat, month: nat, day: nat, hour: nat, minute: nat, second: nat, year: nat)
    requires 1 <= weekday <= 7 && 1 <= month <= 12
    ensures var fields := TimeFields(PaddedTimeReply(weekday, month, day, hour, minute, second, year));
      && ReadTime(prev, fields) == Parsed(Reading(Int(weekday), Int(month), Int(day), Int(hour), Int(minute), Int(second), Int(year)), true)
      && (Unsynced(fields) <==> year == 1970)
  {
    PaddedSplits(weekday, month, day, hour, minute, second, year);
    ParsePad2(day);
    ReadFields(prev, weekday, month, Pad2(day), day, Clock(hour, minute, second), hour, minute, second, year);
  }

  /** The fields of a reply with a zero-padded day: no empty field to remove. */
  lemma PaddedSplits(weekday: nat, month: nat, day: nat, hour: nat, minute: nat, second: nat, year: nat)
    requires 1 <= weekday <= 7 && 1 <= month <= 12
    ensures TimeFields(PaddedTimeReply(weekday, month, day, hour, minute, second, year))
      == [WeekdayName(weekday), MonthName(month), Pad2(day), Clock(hour, minute, second), DecimalString(year)]
  {
    var wd, mon := WeekdayName(weekday), MonthName(month);
    var d, time, y := Pad2(day), Clock(hour, minute, second), DecimalString(year);
    AfterPrefix(wd + " " + mon + " " + d + " " + time + " " + y);
    DigitsWithout(d, ' ');
    DigitsWithout(y, ' ');
    TimeWithoutSpace(hour, minute, second);
    Words5(wd, mon, d, time, y);
    KeepFive(wd, mon, d, time, y);
  }

  /** A reply is treated as not yet synchronised exactly when its year is 1970. */
  lemma ReplyYear(weekday: nat, month: nat, day: nat, hour: nat, minute: nat, second: nat, year: nat)
    requires 1 <= weekday <= 7 && 1 <= month <= 12
    ensures Unsynced(TimeFields(TimeReply(weekday, month, day, hour, minute, second, year))) <==> year == 1970
  {
    ReplySplits(weekday, month, day, hour, minute, second, year);
    YearText(year);
  }

  /** The fields of a reply the module sends. */
  lemma ReplySplits(weekday: nat, month: nat, day: nat, hour: nat, minute: nat, second: nat, year: nat)
    requires 1 <= weekday <= 7 && 1 <= month <= 12
    ensures TimeFields(TimeReply(weekday, month, day, hour, minute, second, year))
      == [WeekdayName(weekday), MonthName(month), DecimalString(day),
          Clock(hour, minute, second), DecimalString(year)]
  {
    var wd, mon := WeekdayName(weekday), MonthName(month);
    var time := Clock(hour, minute, second);
    var y := DecimalString(year);
    var body := wd + " " + mon + " " + DayText(day) + " " + time + " " + y;
    AfterPrefix(body);
    DigitsWithout(y, ' ');
    TimeWithoutSpace(hour, minute, second);
    ReplyFields(wd, mon, day, time, y);
  }

  /** Reading the five fields of a reply the module sends. */
  lemma ReadFields(prev: Reading, weekday: nat, month: nat, d: string, day: nat, time: string, hour: nat, minute: nat, second: nat, year: nat)
    requires 1 <= weekday <= 7 && 1 <= month <= 12
    requires ParseInt(d) == Int(day)
    requires time == Clock(hour, minute, second)
    ensures var fields := [WeekdayName(weekday), MonthName(month), d, time, DecimalString(year)];
      && ReadTime(prev, fields) == Parsed(Reading(Int(weekday), Int(month), Int(day), Int(hour), Int(minute), Int(second), Int(year)), true)
      && (Unsynced(fields) <==> year == 1970)
  {
    WeekdayRoundTrip(weekday);
    MonthRoundTrip(month);
    ParseDecimal(year);
    ClockFields(hour, minute, second);
    ParsePad2(hour);
    ParsePad2(minute);
    ParsePad2(second);
    YearText(year);
  }

  lemma TimeWithoutSpace(hour: nat, minute: nat, second: nat)
    ensures ' ' !in Clock(hour, minute, second)
  {
    DigitsWithout(Pad2(hour), ' ');
    DigitsWithout(Pad2(minute), ' ');
    DigitsWithout(Pad2(second), ' ');
  }

  /** 1970 is written "1970". */
  lemma YearLiteral()
    ensures DecimalString(1970) == UNSYNCED_YEAR
  {
    assert DecimalString(1) == "1";
    assert DecimalString(19) == "19";
    assert DecimalString(197) == "197";
  }

  /** Only 1970 is written "1970". */
  lemma YearText(year: nat)
    ensures DecimalString(year) == UNSYNCED_YEAR <==> year == 1970
  {
    YearLiteral();
    if DecimalString(year) == UNSYNCED_YEAR {
      ParseDecimal(year);
      ParseDecimal(1970);
    }
  }
}
