/** The two `datetime.strptime` formats the application parses user input
    with: `"%Y-%m-%d"` and `"%Y-%m-%d %H:%M:%S"`.

    `strptime` matches one regular expression built from the format and then
    lets the `date`/`datetime` constructors check the calendar. Each directive
    stands for the alternatives listed at its token predicate below, a space in
    the format stands for `\s+`, and the match must reach the end of the input
    ("unconverted data remains" otherwise). Because every directive is followed
    by a literal that no alternative of that directive contains, the place where
    each field ends is fixed by the next separator, which is how the parsers
    below read the input. Digits are ASCII digits. */
module Dates {
  import opened Maybe
  import opened Text

  /** A `datetime`; the `date` values of the code are those at midnight. */
  datatype DateTime = DateTime(year: int, month: int, day: int, hour: int, minute: int, second: int)

  predicate IsLeap(y: int) {
    y % 4 == 0 && (y % 100 != 0 || y % 400 == 0)
  }

  function DaysInMonth(y: int, m: int): int
    requires 1 <= m <= 12
  {
    if m == 2 then (if IsLeap(y) then 29 else 28)
    else if m == 4 || m == 6 || m == 9 || m == 11 then 30
    else 31
  }

  /** The ranges the `datetime` constructor accepts. */
  predicate Valid(dt: DateTime) {
    && 1 <= dt.year <= 9999
    && 1 <= dt.month <= 12
    && 1 <= dt.day <= DaysInMonth(dt.year, dt.month)
    && 0 <= dt.hour <= 23
    && 0 <= dt.minute <= 59
    && 0 <= dt.second <= 59
  }

  predicate AtMidnight(dt: DateTime) {
    dt.hour == 0 && dt.minute == 0 && dt.second == 0
  }

  /** `%Y`: four digits. */
  predicate YearToken(t: string) {
    |t| == 4 && AllDigits(t)
  }

  /** `%m`: `1[0-2]`, `0[1-9]` or `[1-9]`. */
  predicate MonthToken(t: string) {
    || (|t| == 2 && ((t[0] == '1' && '0' <= t[1] <= '2') || (t[0] == '0' && '1' <= t[1] <= '9')))
    || (|t| == 1 && '1' <= t[0] <= '9')
  }

  /** `%d`: `3[01]`, `[12]\d`, `0[1-9]`, `[1-9]` or a space and `[1-9]`. */
  predicate DayToken(t: string) {
    || (|t| == 2 && (|| (t[0] == '3' && '0' <= t[1] <= '1')
                     || ('1' <= t[0] <= '2' && IsDigit(t[1]))
                     || (t[0] == '0' && '1' <= t[1] <= '9')
                     || (t[0] == ' ' && '1' <= t[1] <= '9')))
    || (|t| == 1 && '1' <= t[0] <= '9')
  }

  /** `%H`: `2[0-3]`, `[0-1]\d` or `\d`. */
  predicate HourToken(t: string) {
    || (|t| == 2 && ((t[0] == '2' && '0' <= t[1] <= '3') || ('0' <= t[0] <= '1' && IsDigit(t[1]))))
    || (|t| == 1 && IsDigit(t[0]))
  }

  /** `%M`: `[0-5]\d` or `\d`. */
  predicate MinuteToken(t: string) {
    || (|t| == 2 && '0' <= t[0] <= '5' && IsDigit(t[1]))
    || (|t| == 1 && IsDigit(t[0]))
  }

  /** `%S`: `6[0-1]`, `[0-5]\d` or `\d` (60 and 61 are matched for leap
      seconds and then refused by the `datetime` constructor). */
  predicate SecondToken(t: string) {
    || (|t| == 2 && ((t[0] == '6' && '0' <= t[1] <= '1') || ('0' <= t[0] <= '5' && IsDigit(t[1]))))
    || (|t| == 1 && IsDigit(t[0]))
  }

  function MonthValue(t: string): (v: int)
    requires MonthToken(t)
    ensures 1 <= v <= 12
  {
    if |t| == 2 then TwoDigits(t); DigitsValue(t) else DigitValue(t[0])
  }

  function DayValue(t: string): (v: int)
    requires DayToken(t)
    ensures 1 <= v <= 31
  {
    if t[0] == ' ' || |t| == 1 then DigitValue(t[|t| - 1]) else TwoDigits(t); DigitsValue(t)
  }

  function HourValue(t: string): (v: int)
    requires HourToken(t)
    ensures 0 <= v <= 23
  {
    if |t| == 2 then TwoDigits(t); DigitsValue(t) else DigitValue(t[0])
  }

  function MinuteValue(t: string): (v: int)
    requires MinuteToken(t)
    ensures 0 <= v <= 59
  {
    if |t| == 2 then TwoDigits(t); DigitsValue(t) else DigitValue(t[0])
  }

  function SecondValue(t: string): (v: int)
    requires SecondToken(t)
    ensures 0 <= v <= 61
  {
    if |t| == 2 then TwoDigits(t); DigitsValue(t) else DigitValue(t[0])
  }

  /** The constructor's checks on fields that already passed their patterns:
      year 0 and a day past the end of the month raise `ValueError`, and so does
      a leap second. */
  function Construct(y: int, m: int, d: int, hh: int, mm: int, ss: int): (r: Option<DateTime>)
    requires 0 <= y <= 9999 && 1 <= m <= 12 && 1 <= d
    requires 0 <= hh <= 23 && 0 <= mm <= 59 && 0 <= ss
    ensures r.Some? ==> Valid(r.value) && r.value == DateTime(y, m, d, hh, mm, ss)
    ensures r.Some? <==> 1 <= y && d <= DaysInMonth(y, m) && ss <= 59
  {
    if 1 <= y && d <= DaysInMonth(y, m) && ss <= 59 then Some(DateTime(y, m, d, hh, mm, ss)) else None
  }

  /** The leading `%Y-%m-` both formats share: the year, the month and the rest
      of the input after the second dash. That rest is a suffix of the input,
      and what comes before it holds no colon. */
  function DatePrefix(s: string): (r: Option<(int, int, string)>)
    ensures r.Some? ==> 0 <= r.value.0 <= 9999 && 1 <= r.value.1 <= 12
    ensures r.Some? ==> |r.value.2| <= |s| && r.value.2 == s[|s| - |r.value.2|..]
    ensures r.Some? ==> ':' !in s[..|s| - |r.value.2|]
  {
    if |s| < 5 || !YearToken(s[..4]) || s[4] != '-' then None
    else
      var rest := s[5..];
      var i := IndexOf(rest, '-');
      if i == |rest| || !MonthToken(rest[..i]) then None
      else
        var y := DigitsValue(s[..4]);
        assert y <= 9999 by { DigitsBound(s[..4]); }
        assert s[..|s| - |rest[i + 1..]|] == s[..4] + ['-'] + rest[..i] + ['-'];
        Some((y, MonthValue(rest[..i]), rest[i + 1..]))
  }

  /** `%H:%M:%S` at the end of the input: hour, minute and second fields. */
  function ParseClock(c: string): (r: Option<(int, int, int)>)
    ensures r.Some? ==> 0 <= r.value.0 <= 23 && 0 <= r.value.1 <= 59 && 0 <= r.value.2 <= 61
    ensures r.Some? ==> ':' in c
  {
    var j := IndexOf(c, ':');
    if j == |c| then None
    else
      var u := c[j + 1..];
      var k := IndexOf(u, ':');
      if k == |u| then None
      else if HourToken(c[..j]) && MinuteToken(u[..k]) && SecondToken(u[k + 1..]) then
        Some((HourValue(c[..j]), MinuteValue(u[..k]), SecondValue(u[k + 1..])))
      else None
  }

  /** `datetime.strptime(s, "%Y-%m-%d")`, with `None` for the `ValueError`. */
  function ParseDate(s: string): (r: Option<DateTime>)
    ensures r.Some? ==> Valid(r.value) && AtMidnight(r.value)
  {
    match DatePrefix(s)
    case None => None
    case Some((y, m, d)) =>
      if DayToken(d) then Construct(y, m, DayValue(d), 0, 0, 0) else None
  }

  /** The day field and the whitespace after it, for `"%Y-%m-%d %H:%M:%S"`:
      the day is two characters when it starts with a space or its second
      character is a digit, one character otherwise, and a run of whitespace
      must follow it. Gives the day and the text after the whitespace. */
  function DayThenSpace(t: string): (r: Option<(int, string)>)
    ensures r.Some? ==> 1 <= r.value.0 <= 31
    ensures r.Some? ==> |r.value.1| < |t| && r.value.1 == t[|t| - |r.value.1|..]
  {
    var dl := if |t| >= 2 && (t[0] == ' ' || IsDigit(t[1])) then 2 else 1;
    if |t| <= dl || !DayToken(t[..dl]) || !IsSpace(t[dl]) then None
    else
      var clock := LStrip(t[dl..]);
      var day := DayValue(t[..dl]);
      assert clock == t[|t| - |clock|..] by { SuffixOfSuffix(t, dl, clock); }
      Some((day, clock))
  }

  /** `datetime.strptime(s, "%Y-%m-%d %H:%M:%S")`, with `None` for the
      `ValueError`. */
  function ParseDateTime(s: string): (r: Option<DateTime>)
    ensures r.Some? ==> Valid(r.value)
  {
    match DatePrefix(s)
    case None => None
    case Some((y, m, t)) =>
      match DayThenSpace(t)
      case None => None
      case Some((d, clock)) =>
        match ParseClock(clock)
        case None => None
        case Some((hh, mm, ss)) => Construct(y, m, d, hh, mm, ss)
  }

  /** A string `"%Y-%m-%d"` accepts has no colon, so any trailing time of day
      makes it fail. */
  lemma DateHasNoColon(s: string)
    requires ParseDate(s).Some?
    ensures ':' !in s
  {
    var (y, m, d) := DatePrefix(s).value;
    assert s == s[..|s| - |d|] + d;
  }

  /** A string `"%Y-%m-%d %H:%M:%S"` accepts has a colon. */
  lemma DateTimeHasColon(s: string)
    requires ParseDateTime(s).Some?
    ensures ':' in s
  {
    assert DatePrefix(s).Some?;
    var t := DatePrefix(s).value.2;
    assert DayThenSpace(t).Some?;
    var clock := DayThenSpace(t).value.1;
    assert ':' in clock by { assert ParseClock(clock).Some?; }
    assert ':' in t by { InSuffix(t, |t| - |clock|, ':'); }
    InSuffix(s, |s| - |t|, ':');
  }


  /** No string is accepted by both formats, so trying them in either order
      gives the same first success. */
  lemma FormatsExclusive(s: string)
    ensures ParseDate(s).None? || ParseDateTime(s).None?
  {
    if ParseDate(s).Some? && ParseDateTime(s).Some? {
      DateHasNoColon(s);
      DateTimeHasColon(s);
    }
  }

  /** A date followed by a time of day is not a bare date. */
  lemma DateRejectsTimeSuffix(d: string, time: string)
    requires ':' in time
    ensures ParseDate(d + time).None?
  {
    var k :| 0 <= k < |time| && time[k] == ':';
    assert (d + time)[|d| + k] == ':';
    if ParseDate(d + time).Some? {
      DateHasNoColon(d + time);
    }
  }

  function Pad2(n: int): (r: string)
    requires 0 <= n < 100
    ensures |r| == 2 && AllDigits(r) && DigitsValue(r) == n
  {
    var r := [DigitChar(n / 10), DigitChar(n % 10)];
    TwoDigits(r);
    r
  }

  function Pad4(n: int): (r: string)
    requires 0 <= n < 10000
    ensures |r| == 4 && AllDigits(r) && DigitsValue(r) == n
  {
    var hi := Pad2(n / 100);
    var lo := Pad2(n % 100);
    DigitsConcat(hi, lo);
    assert Pow10(2) == 100;
    hi + lo
  }

  /** `str(date)`: `YYYY-MM-DD`. */
  function FormatDate(dt: DateTime): string
    requires Valid(dt)
  {
    Pad4(dt.year) + "-" + Pad2(dt.month) + "-" + Pad2(dt.day)
  }

  /** `str(datetime)`: `YYYY-MM-DD HH:MM:SS`. */
  function FormatDateTime(dt: DateTime): string
    requires Valid(dt)
  {
    FormatDate(dt) + " " + Pad2(dt.hour) + ":" + Pad2(dt.minute) + ":" + Pad2(dt.second)
  }

  lemma DatePrefixRoundTrip(y: int, m: int, tail: string)
    requires 1 <= y <= 9999 && 1 <= m <= 12
    ensures DatePrefix(Pad4(y) + "-" + Pad2(m) + "-" + tail) == Some((y, m, tail))
  {
    var s := Pad4(y) + "-" + Pad2(m) + "-" + tail;
    var rest := s[5..];
    assert s[..4] == Pad4(y);
    assert rest == Pad2(m) + "-" + tail;
    assert rest[..2] == Pad2(m);
    IndexOfFirst(rest, '-', 2);
    assert rest[3..] == tail;
  }

  /** Two-digit days are read back by `%d`. */
  lemma DayTokenPad2(d: int)
    requires 1 <= d <= 31
    ensures DayToken(Pad2(d)) && DayValue(Pad2(d)) == d
  {
    var t := Pad2(d);
    assert t[0] == DigitChar(d / 10) && t[1] == DigitChar(d % 10);
  }

  lemma DayThenSpaceRoundTrip(d: int, clock: string)
    requires 1 <= d <= 31
    requires clock != [] && IsDigit(clock[0])
    ensures DayThenSpace(Pad2(d) + " " + clock) == Some((d, clock))
  {
    var t := Pad2(d) + " " + clock;
    DayTokenPad2(d);
    assert t[..2] == Pad2(d);
    assert t[2] == ' ' && IsDigit(t[1]);
    var rest := t[2..];
    assert rest[1..] == clock;
    assert LStrip(clock) == clock;
    assert LStrip(rest) == clock;
  }

  lemma ParseClockRoundTrip(hh: int, mm: int, ss: int)
    requires 0 <= hh <= 23 && 0 <= mm <= 59 && 0 <= ss <= 59
    ensures ParseClock(Pad2(hh) + ":" + Pad2(mm) + ":" + Pad2(ss)) == Some((hh, mm, ss))
  {
    var clock := Pad2(hh) + ":" + Pad2(mm) + ":" + Pad2(ss);
    assert clock[..2] == Pad2(hh);
    IndexOfFirst(clock, ':', 2);
    var u := clock[3..];
    assert u == Pad2(mm) + ":" + Pad2(ss);
    assert u[..2] == Pad2(mm);
    IndexOfFirst(u, ':', 2);
    assert u[3..] == Pad2(ss);
  }

  /** `"%Y-%m-%d"` reads back the text of every date. */
  lemma DateRoundTrip(dt: DateTime)
    requires Valid(dt) && AtMidnight(dt)
    ensures ParseDate(FormatDate(dt)) == Some(dt)
  {
    DatePrefixRoundTrip(dt.year, dt.month, Pad2(dt.day));
  }

  /** `"%Y-%m-%d %H:%M:%S"` reads back the text of every datetime. */
  lemma DateTimeRoundTrip(dt: DateTime)
    requires Valid(dt)
    ensures ParseDateTime(FormatDateTime(dt)) == Some(dt)
  {
    var hms := Pad2(dt.hour);
    var clock := hms + ":" + Pad2(dt.minute) + ":" + Pad2(dt.second);
    var t := Pad2(dt.day) + " " + clock;
    var f := FormatDateTime(dt);
    assert f == Pad4(dt.year) + "-" + Pad2(dt.month) + "-" + t;
    DatePrefixRoundTrip(dt.year, dt.month, t);
    assert clock[0] == hms[0];
    DayThenSpaceRoundTrip(dt.day, clock);
    ParseClockRoundTrip(dt.hour, dt.minute, dt.second);
    assert ParseDateTime(f) == Construct(dt.year, dt.month, dt.day, dt.hour, dt.minute, dt.second);
  }
}
