/**
  * The prefix `generate_timestamp` writes before every line:
  * ESC`[0m` `[` ESC`[32m` `YYYY-MM-DD HH:MM:SS.mmm` ESC`[0m` `] `
  * (reset, bracket, green, the local time, reset, bracket, space).
  * The clock is not modelled: the fields of the sampled time are inputs.
  */
module Timestamp {
  import opened Options
  import opened Numerals

  const Esc: char := 27 as char
  /** The ANSI "reset attributes" sequence. */
  const Reset: string := [Esc] + "[0m"
  /** The ANSI "green foreground" sequence. */
  const Green: string := [Esc] + "[32m"

  /** What opens every prefix, before the year. */
  const Opening: string := Reset + "[" + Green
  /** What closes every prefix, after the milliseconds. */
  const Closing: string := Reset + "] "

  /** The calendar fields of one clock sample; `millis` is chrono's sub-second millis, which reaches 1000..1999 during a leap second. */
  datatype DateTime = DateTime(year: int, month: nat, day: nat, hour: nat, minute: nat, second: nat, millis: nat)

  /** The field values for which every field fits its width. */
  predicate FitsLayout(t: DateTime) {
    && -999 <= t.year <= 9999
    && t.month < 100 && t.day < 100 && t.hour < 100 && t.minute < 100 && t.second < 100
    && t.millis < 1000
  }

  /** The length of the prefix when every field fits its width. */
  const Width: nat := 39

  /** `{:04}-{:02}-{:02}`: year, month, day. */
  function Date(t: DateTime): string {
    SignedZeroPad(t.year, 4) + "-" + ZeroPad(t.month, 2, 10) + "-" + ZeroPad(t.day, 2, 10)
  }

  /** `{:02}:{:02}:{:02}`: hour, minute, second. */
  function Clock(t: DateTime): string {
    ZeroPad(t.hour, 2, 10) + ":" + ZeroPad(t.minute, 2, 10) + ":" + ZeroPad(t.second, 2, 10)
  }

  /** `generate_timestamp`, given the sampled time: the date, a space, the time of day, a dot and the milliseconds (`{:03}`). */
  function Format(t: DateTime): string {
    Opening + (Date(t) + " " + Clock(t) + "." + ZeroPad(t.millis, 3, 10)) + Closing
  }

  /** Text that is 7-bit ASCII and holds no line feed, so it never ends a line early. */
  predicate PlainAscii(s: string) {
    forall i :: 0 <= i < |s| ==> s[i] as int < 128 && s[i] != '\n'
  }

  lemma PlainAsciiAppend(a: string, b: string)
    requires PlainAscii(a) && PlainAscii(b)
    ensures PlainAscii(a + b)
  {
    forall i | 0 <= i < |a + b| ensures (a + b)[i] as int < 128 && (a + b)[i] != '\n' {
      if i >= |a| {
        assert (a + b)[i] == b[i - |a|];
      }
    }
  }

  lemma DigitsPlain(s: string, base: nat)
    requires ValidBase(base) && AllDigits(s, base)
    ensures PlainAscii(s)
  {
    forall i | 0 <= i < |s| ensures s[i] as int < 128 && s[i] != '\n' {
      assert IsDigit(s[i], base);
    }
  }

  lemma SignedPlain(v: int, width: nat)
    ensures PlainAscii(SignedZeroPad(v, width))
  {
    var r := SignedZeroPad(v, width);
    SignedZeroPadValue(v, width);
    if v >= 0 {
      DigitsPlain(r, 10);
    } else {
      DigitsPlain(r[1..], 10);
      assert r == "-" + r[1..];
      PlainAsciiAppend("-", r[1..]);
    }
  }

  lemma Plain3(a: string, sep: string, b: string, sep': string, c: string)
    requires PlainAscii(a) && PlainAscii(sep) && PlainAscii(b) && PlainAscii(sep') && PlainAscii(c)
    ensures PlainAscii(a + sep + b + sep' + c)
  {
    PlainAsciiAppend(a, sep);
    PlainAsciiAppend(a + sep, b);
    PlainAsciiAppend(a + sep + b, sep');
    PlainAsciiAppend(a + sep + b + sep', c);
  }

  lemma LiteralsPlain()
    ensures PlainAscii(Opening) && PlainAscii(Closing)
    ensures PlainAscii("-") && PlainAscii(" ") && PlainAscii(":") && PlainAscii(".")
  {
    assert |Opening| == 10 && |Closing| == 6;
  }

  lemma DatePlain(t: DateTime)
    ensures PlainAscii(Date(t))
  {
    LiteralsPlain();
    SignedPlain(t.year, 4);
    ZeroPadValue(t.month, 2, 10);
    DigitsPlain(ZeroPad(t.month, 2, 10), 10);
    ZeroPadValue(t.day, 2, 10);
    DigitsPlain(ZeroPad(t.day, 2, 10), 10);
    Plain3(SignedZeroPad(t.year, 4), "-", ZeroPad(t.month, 2, 10), "-", ZeroPad(t.day, 2, 10));
  }

  lemma ClockPlain(t: DateTime)
    ensures PlainAscii(Clock(t))
  {
    LiteralsPlain();
    ZeroPadValue(t.hour, 2, 10);
    DigitsPlain(ZeroPad(t.hour, 2, 10), 10);
    ZeroPadValue(t.minute, 2, 10);
    DigitsPlain(ZeroPad(t.minute, 2, 10), 10);
    ZeroPadValue(t.second, 2, 10);
    DigitsPlain(ZeroPad(t.second, 2, 10), 10);
    Plain3(ZeroPad(t.hour, 2, 10), ":", ZeroPad(t.minute, 2, 10), ":", ZeroPad(t.second, 2, 10));
  }

  /** Every prefix is ASCII and has no line feed, whatever time was sampled. */
  lemma FormatPlain(t: DateTime)
    ensures PlainAscii(Format(t))
  {
    LiteralsPlain();
    DatePlain(t);
    ClockPlain(t);
    ZeroPadValue(t.millis, 3, 10);
    DigitsPlain(ZeroPad(t.millis, 3, 10), 10);
    Plain3(Date(t), " ", Clock(t), ".", ZeroPad(t.millis, 3, 10));
    var body := Date(t) + " " + Clock(t) + "." + ZeroPad(t.millis, 3, 10);
    PlainAsciiAppend(Opening, body);
    PlainAsciiAppend(Opening + body, Closing);
  }

  /** The year field of a well-formed prefix: four digits, or a sign and three digits. */
  function ParseYear(s: string): Option<int>
    requires |s| == 4
  {
    if s[0] == '-' && AllDigits(s[1..], 10) then
      Some(0 - ValueOf(s[1..], 10) as int)
    else if AllDigits(s, 10) then Some(ValueOf(s, 10))
    else None
  }

  /** A fixed-width unsigned field. */
  function ParseField(s: string): Option<nat> {
    if AllDigits(s, 10) then Some(ValueOf(s, 10)) else None
  }

  /** `YYYY-MM-DD`: the year, which may carry a sign, then month and day. */
  function ParseDate(s: string): Option<(int, nat, nat)> {
    if |s| != 10 || s[4] != '-' || s[7] != '-' then None
    else
      match (ParseYear(s[..4]), ParseField(s[5..7]), ParseField(s[8..]))
      case (Some(y), Some(mo), Some(d)) => Some((y, mo, d))
      case _ => None
  }

  /** `HH:MM:SS`: hour, minute and second. */
  function ParseClock(s: string): Option<(nat, nat, nat)> {
    if |s| != 8 || s[2] != ':' || s[5] != ':' then None
    else
      match (ParseField(s[..2]), ParseField(s[3..5]), ParseField(s[6..]))
      case (Some(h), Some(mi), Some(sec)) => Some((h, mi, sec))
      case _ => None
  }

  /**
    * Reads a 39-character prefix back into its fields, checking every fixed
    * character of the layout; `None` for anything else.
    */
  function Parse(s: string): Option<DateTime> {
    if |s| != Width || s[..10] != Opening || s[33..] != Closing || s[20] != ' ' || s[29] != '.' then None
    else
      match (ParseDate(s[10..20]), ParseClock(s[21..29]), ParseField(s[30..33]))
      case (Some((y, mo, d)), Some((h, mi, sec)), Some(ms)) => Some(DateTime(y, mo, d, h, mi, sec, ms))
      case _ => None
  }

  lemma YearWidth(y: int)
    requires -999 <= y <= 9999
    ensures |SignedZeroPad(y, 4)| == 4
    ensures ParseYear(SignedZeroPad(y, 4)) == Some(y)
  {
    assert Pow(10, 3) == 1000 && Pow(10, 4) == 10000;
    var r := SignedZeroPad(y, 4);
    SignedZeroPadValue(y, 4);
    if y < 0 {
      FixedWidth(-y, 3, 10);
    } else {
      FixedWidth(y, 4, 10);
      assert IsDigit(r[0], 10);
    }
  }

  lemma FieldWidth(n: nat, width: nat)
    requires width == 2 || width == 3
    requires n < Pow(10, width)
    ensures |ZeroPad(n, width, 10)| == width
    ensures ParseField(ZeroPad(n, width, 10)) == Some(n)
  {
    FixedWidth(n, width, 10);
    ZeroPadValue(n, width, 10);
  }

  /** Slicing `a + sep + b + sep' + c` at the piece boundaries gives the pieces back. */
  lemma Pieces3(a: string, sep: char, b: string, sep': char, c: string)
    ensures var s := a + [sep] + b + [sep'] + c;
            && |s| == |a| + 1 + |b| + 1 + |c|
            && s[..|a|] == a && s[|a|] == sep
            && s[|a| + 1..|a| + 1 + |b|] == b && s[|a| + 1 + |b|] == sep'
            && s[|a| + 1 + |b| + 1..] == c
  {
  }

  lemma DateRoundTrip(t: DateTime)
    requires FitsLayout(t)
    ensures |Date(t)| == 10
    ensures ParseDate(Date(t)) == Some((t.year, t.month, t.day))
  {
    assert Pow(10, 2) == 100;
    YearWidth(t.year);
    FieldWidth(t.month, 2);
    FieldWidth(t.day, 2);
    assert Date(t) == SignedZeroPad(t.year, 4) + ['-'] + ZeroPad(t.month, 2, 10) + ['-'] + ZeroPad(t.day, 2, 10);
    Pieces3(SignedZeroPad(t.year, 4), '-', ZeroPad(t.month, 2, 10), '-', ZeroPad(t.day, 2, 10));
  }

  lemma ClockRoundTrip(t: DateTime)
    requires FitsLayout(t)
    ensures |Clock(t)| == 8
    ensures ParseClock(Clock(t)) == Some((t.hour, t.minute, t.second))
  {
    assert Pow(10, 2) == 100;
    FieldWidth(t.hour, 2);
    FieldWidth(t.minute, 2);
    FieldWidth(t.second, 2);
    assert Clock(t) == ZeroPad(t.hour, 2, 10) + [':'] + ZeroPad(t.minute, 2, 10) + [':'] + ZeroPad(t.second, 2, 10);
    Pieces3(ZeroPad(t.hour, 2, 10), ':', ZeroPad(t.minute, 2, 10), ':', ZeroPad(t.second, 2, 10));
  }

  /**
    * The prefix has the fixed 39-character layout, every field zero-padded
    * to its width, whenever the fields fit; and it reads back as the very
    * time that was sampled.
    */
  lemma FormatRoundTrip(t: DateTime)
    requires FitsLayout(t)
    ensures |Format(t)| == Width
    ensures Parse(Format(t)) == Some(t)
  {
    assert Pow(10, 3) == 1000;
    DateRoundTrip(t);
    ClockRoundTrip(t);
    FieldWidth(t.millis, 3);
    var body := Date(t) + [' '] + Clock(t) + ['.'] + ZeroPad(t.millis, 3, 10);
    Pieces3(Date(t), ' ', Clock(t), '.', ZeroPad(t.millis, 3, 10));
    var s := Format(t);
    assert s == Opening + body + Closing;
    assert |Opening| == 10 && |Closing| == 6 && |body| == 23;
    assert s[..10] == Opening;
    assert s[33..] == Closing;
    assert s[10..33] == body;
    assert s[10..20] == body[..10];
    assert s[20] == body[10];
    assert s[21..29] == body[11..19];
    assert s[29] == body[19];
    assert s[30..33] == body[20..];
  }

  /** Two samples give the same prefix only if they are the same time. */
  lemma FormatInjective(t: DateTime, u: DateTime)
    requires FitsLayout(t) && FitsLayout(u)
    ensures Format(t) == Format(u) <==> t == u
  {
    FormatRoundTrip(t);
    FormatRoundTrip(u);
  }

  /**
    * During a leap second chrono's sub-second millis is 1000 or more, and
    * `{:03}` then writes four digits: the prefix is one character longer.
    */
  lemma LeapSecondWidth(t: DateTime)
    requires -999 <= t.year <= 9999
    requires t.month < 100 && t.day < 100 && t.hour < 100 && t.minute < 100 && t.second < 100
    requires 1000 <= t.millis <= 1999
    ensures |Format(t)| == Width + 1
  {
    assert Pow(10, 3) == 1000 && Pow(10, 4) == 10000;
    DateRoundTrip(t.(millis := 0));
    ClockRoundTrip(t.(millis := 0));
    DigitsFit(t.millis, 10, 4);
    DigitsFit(t.millis, 10, 3);
    assert |Opening| == 10 && |Closing| == 6;
  }
}
