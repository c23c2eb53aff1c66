/** The date `ImageDBService.update_metadata_info` (database.py) derives
    from the text it is given, trying two `strptime` formats in turn. */
module DbDates {
  import opened Maybe
  import opened Text
  import opened Dates

  /** The formats `update_metadata_info` tries, in order. */
  datatype DateFormat = WithTime | DateOnly

  const Formats: seq<DateFormat> := [WithTime, DateOnly]

  /** `datetime.strptime(s, fmt)`, None where it raises `ValueError`. */
  function ParseWith(f: DateFormat, s: string): Option<DateTime> {
    if f.WithTime? then ParseDateTime(s) else ParseDate(s)
  }

  /** The result of the first format that accepts the text. */
  function FirstParse(formats: seq<DateFormat>, s: string): Option<DateTime> {
    if formats == [] then None
    else if ParseWith(formats[0], s).Some? then ParseWith(formats[0], s)
    else FirstParse(formats[1..], s)
  }

  /** The date `update_metadata_info` writes: None for a missing or empty
      argument, else the first format's reading of the stripped text. */
  function MetadataDate(exifDatetime: Option<string>): Option<DateTime> {
    if exifDatetime.None? || exifDatetime.value == "" then None
    else FirstParse(Formats, Strip(exifDatetime.value))
  }

  /** What the update writes: nothing for a missing or empty text; else the
      stripped text read as a date and time, failing that as a date, and a
      date that exists whenever it writes one. Since at most one format
      accepts a text, the order they are tried in does not matter. */
  lemma {:induction false} MetadataDateCases(exifDatetime: Option<string>)
    ensures exifDatetime.None? || exifDatetime.value == "" ==> MetadataDate(exifDatetime).None?
    ensures exifDatetime.Some? && exifDatetime.value != "" ==>
      var s := Strip(exifDatetime.value);
      && MetadataDate(exifDatetime) == (if ParseDateTime(s).Some? then ParseDateTime(s) else ParseDate(s))
      && MetadataDate(exifDatetime) == (if ParseDate(s).Some? then ParseDate(s) else ParseDateTime(s))
    ensures MetadataDate(exifDatetime).Some? ==> Valid(MetadataDate(exifDatetime).value)
  {
    if exifDatetime.Some? && exifDatetime.value != "" {
      var s := Strip(exifDatetime.value);
      assert Formats[1..] == [DateOnly];
      assert FirstParse([DateOnly], s) == ParseDate(s);
      FormatsExclusive(s);
    }
  }

  lemma FormattedIsStripped(dt: DateTime)
    requires Valid(dt)
    ensures IsStripped(FormatDateTime(dt))
    ensures IsStripped(FormatDate(dt))
  {
    var y := Pad4(dt.year);
    var s := Pad2(dt.second);
    var d := Pad2(dt.day);
    assert IsDigit(y[0]) && IsDigit(s[1]) && IsDigit(d[1]);
    assert FormatDateTime(dt)[0] == y[0];
    assert FormatDate(dt)[0] == y[0];
  }

  /** A date and time written as `str(datetime)` is read back as itself. */
  lemma MetadataDateTimeRoundTrip(dt: DateTime)
    requires Valid(dt)
    ensures MetadataDate(Some(FormatDateTime(dt))) == Some(dt)
  {
    var f := FormatDateTime(dt);
    FormattedIsStripped(dt);
    StripStripped(f);
    DateTimeRoundTrip(dt);
    MetadataDateCases(Some(f));
  }

  /** A date written as `str(date)` is read back as that date at midnight. */
  lemma MetadataDateRoundTrip(dt: DateTime)
    requires Valid(dt) && AtMidnight(dt)
    ensures MetadataDate(Some(FormatDate(dt))) == Some(dt)
  {
    var f := FormatDate(dt);
    FormattedIsStripped(dt);
    StripStripped(f);
    DateRoundTrip(dt);
    MetadataDateCases(Some(f));
  }

  lemma FirstParseStep(formats: seq<DateFormat>, s: string, i: nat)
    requires i < |formats|
    requires ParseWith(formats[i], s).None?
    ensures FirstParse(formats[i..], s) == FirstParse(formats[i + 1..], s)
  {
    assert formats[i..][0] == formats[i] && formats[i..][1..] == formats[i + 1..];
  }

  /** The date parsing of `update_metadata_info`: strips, then tries each
      format until one succeeds. */
  method ParseMetadataDate(exifDatetime: Option<string>) returns (dt: Option<DateTime>)
    ensures dt == MetadataDate(exifDatetime)
  {
    dt := None;
    if exifDatetime.Some? && exifDatetime.value != "" {
      var text := Strip(exifDatetime.value);
      var i := 0;
      assert Formats[0..] == Formats;
      while i < |Formats|
        invariant 0 <= i <= |Formats|
        invariant dt.None?
        invariant FirstParse(Formats[i..], text) == FirstParse(Formats, text)
      {
        var parsed := ParseWith(Formats[i], text);
        if parsed.Some? {
          assert Formats[i..][0] == Formats[i];
          dt := parsed;
          break;
        }
        FirstParseStep(Formats, text, i);
        i := i + 1;
      }
    }
  }
}
