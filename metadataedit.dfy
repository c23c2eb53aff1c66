/** The metadata-edit half of `TagManager` (tagmanager.py): reading the
    "date,make,model" text a user types into three optional replacements. */
module MetadataEdit {
  import opened Maybe
  import opened Text
  import opened Dates
  import opened TagLists

  /** `is_datetime_string`: `strptime(s, "%Y-%m-%d")` succeeds. */
  predicate IsDatetimeString(s: string) {
    ParseDate(s).Some?
  }

  /** Slot `k` of the edit text: the stripped `k`-th comma-separated piece, or
      `""` past the last piece. */
  function Slot(s: string, k: nat): (r: string)
    ensures IsStripped(r) && ',' !in r
    ensures k >= |Split(s, ',')| ==> r == ""
  {
    var parts := Split(s, ',');
    if k < |parts| then
      assert ',' !in parts[k];
      Strip(parts[k])
    else ""
  }

  function NonEmpty(t: string): Option<string> {
    if t != "" then Some(t) else None
  }

  /** What `parse_replacements` returns for the text it reads. */
  function Replacements(s: string): (Option<string>, Option<string>, Option<string>) {
    var d := Slot(s, 0);
    (if d != "" && IsDatetimeString(d) then Some(d) else None, NonEmpty(Slot(s, 1)), NonEmpty(Slot(s, 2)))
  }

  /** `TagManager.parse_replacements`: three slots, padded with `""` and cut at
      three, empty slots and a date slot that is not a bare date turned into
      `None`. */
  method ParseReplacements(incomingText: Option<string>) returns (newDt: Option<string>, newMake: Option<string>, newModel: Option<string>)
    ensures (newDt, newMake, newModel) == Replacements(incomingText.GetOr(""))
  {
    var text := incomingText.GetOr("");
    var dtS, make, model := ThreeSlots(text);
    newDt := if dtS != "" && IsDatetimeString(dtS) then Some(dtS) else None;
    newMake := if make != "" then Some(make) else None;
    newModel := if model != "" then Some(model) else None;
  }

  /** The stripped pieces, padded with `""` to three and cut at three. */
  method ThreeSlots(text: string) returns (dtS: string, make: string, model: string)
    ensures dtS == Slot(text, 0) && make == Slot(text, 1) && model == Slot(text, 2)
  {
    var pieces := Split(text, ',');
    var parts := seq(|pieces|, i requires 0 <= i < |pieces| => Strip(pieces[i]));
    while |parts| < 3
      invariant |parts| >= |pieces|
      invariant forall k :: 0 <= k < |parts| ==> parts[k] == Slot(text, k)
      decreases 3 - |parts|
    {
      parts := parts + [""];
    }
    if |parts| > 3 {
      parts := parts[..3];
    }
    dtS, make, model := parts[0], parts[1], parts[2];
  }

  /** A formatted date has digits and dashes only. */
  lemma FormatDateChars(dt: DateTime)
    requires Valid(dt)
    ensures var f := FormatDate(dt);
      |f| == 10 && forall i :: 0 <= i < |f| ==> IsDigit(f[i]) || f[i] == '-'
  {
    var f := FormatDate(dt);
    var y, m, d := Pad4(dt.year), Pad2(dt.month), Pad2(dt.day);
    assert f == y + "-" + m + "-" + d;
    forall i | 0 <= i < |f| ensures IsDigit(f[i]) || f[i] == '-' {
      if i < 4 { assert f[i] == y[i]; }
      else if 5 <= i < 7 { assert f[i] == m[i - 5]; }
      else if 8 <= i { assert f[i] == d[i - 8]; }
    }
  }

  /** An edit text written as "date,make,model" is read back slot by slot. */
  lemma ReplacementsRoundTrip(dt: DateTime, make: string, model: string)
    requires Valid(dt) && AtMidnight(dt) && IsTag(make) && IsTag(model)
    ensures Replacements(FormatDate(dt) + "," + make + "," + model)
      == (Some(FormatDate(dt)), Some(make), Some(model))
  {
    var f := FormatDate(dt);
    FormatDateChars(dt);
    assert ',' !in f by {
      forall i | 0 <= i < |f| ensures f[i] != ',' { }
    }
    assert IsStripped(f) by {
      assert IsDigit(f[0]) && IsDigit(f[9]);
    }
    var s := f + "," + make + "," + model;
    assert [f, make, model][1..] == [make, model] && [make, model][1..] == [model];
    assert Join([make, model], ',') == make + "," + model;
    assert Join([f, make, model], ',') == s;
    SplitJoin([f, make, model], ',');
    StripStripped(f);
    StripStripped(make);
    StripStripped(model);
    DateRoundTrip(dt);
  }

  /** A date slot with a time of day in it is dropped: only a bare date is
      accepted. */
  lemma DateSlotWithTime(s: string)
    requires ':' in Slot(s, 0)
    ensures Replacements(s).0 == None
  {
    if IsDatetimeString(Slot(s, 0)) {
      DateHasNoColon(Slot(s, 0));
    }
  }

  /** Pieces after the third are ignored. */
  lemma ReplacementsIgnoreExtras(s: string, extra: string)
    requires |Split(s, ',')| >= 3
    ensures Replacements(s + "," + extra) == Replacements(s)
  {
    var t := s + "," + extra;
    LeadingPieces(s, extra);
    SameLeadingPieces(s, t);
  }

  /** Appending `,extra` keeps the first three pieces. */
  lemma LeadingPieces(s: string, extra: string)
    requires |Split(s, ',')| >= 3
    ensures var all, parts := Split(s + "," + extra, ','), Split(s, ',');
      |all| >= 3 && all[0] == parts[0] && all[1] == parts[1] && all[2] == parts[2]
  {
    assert s + "," + extra == s + [','] + extra;
    SplitConcat(s, extra, ',');
  }

  /** Texts whose first three pieces agree are read alike. */
  lemma SameLeadingPieces(s: string, t: string)
    requires var a, b := Split(s, ','), Split(t, ',');
      |a| >= 3 && |b| >= 3 && a[0] == b[0] && a[1] == b[1] && a[2] == b[2]
    ensures Replacements(t) == Replacements(s)
  {
    SlotAgrees(s, t, 0);
    SlotAgrees(s, t, 1);
    SlotAgrees(s, t, 2);
  }

  /** Texts with the same `k`-th piece have the same slot `k`. */
  lemma SlotAgrees(s: string, t: string, k: nat)
    requires k < |Split(s, ',')| && k < |Split(t, ',')| && Split(t, ',')[k] == Split(s, ',')[k]
    ensures Slot(t, k) == Slot(s, k)
  {
  }
}
