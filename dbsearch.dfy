/** The statement `ImageDBService.search` (database.py) sends: which filters
    it adds, in which order, with which parameters. What the server returns
    for it is outside the model. */
module DbSearch {
  import opened Maybe
  import opened Dates

  /** The filters `search` can add, in the order it adds them. */
  datatype Clause = DateIs | FilenameIs | KeywordsLike

  function Rank(c: Clause): nat {
    if c.DateIs? then 0 else if c.FilenameIs? then 1 else 2
  }

  datatype Param = PDate(date: DateTime) | PText(text: string)

  /** A statement, given by the filters its text carries, and its
      parameters. */
  datatype Query = Query(clauses: seq<Clause>, params: seq<Param>)

  const Header: string := "SELECT * FROM image_info WHERE 1=1"

  /** The text `search` appends for a filter, up to its placeholder. */
  function Condition(c: Clause): string {
    if c.DateIs? then " AND DATE(exif_datetime) = "
    else if c.FilenameIs? then " AND image_filename = "
    else " AND exif_xpkeywords like "
  }

  /** The text `search` appends for a filter. */
  function ClauseText(c: Clause): string {
    Condition(c) + "%s"
  }

  /** The statement text for a list of filters: the header, then each
      filter's text in turn, as `sql +=` builds it. */
  function SqlText(clauses: seq<Clause>): string {
    if clauses == [] then Header else SqlText(clauses[..|clauses| - 1]) + ClauseText(clauses[|clauses| - 1])
  }

  /** The number of `%s` placeholders in a statement. */
  function Placeholders(s: string): nat {
    if |s| < 2 then 0 else (if s[0] == '%' && s[1] == 's' then 1 else 0) + Placeholders(s[1..])
  }

  predicate NoPercent(s: string) {
    forall i :: 0 <= i < |s| ==> s[i] != '%'
  }

  lemma {:induction false} NoPercentNoPlaceholders(s: string)
    requires NoPercent(s)
    ensures Placeholders(s) == 0
  {
    if |s| >= 2 {
      NoPercentNoPlaceholders(s[1..]);
    }
  }

  lemma {:induction false} PlaceholdersConcat(a: string, b: string)
    requires a == [] || a[|a| - 1] != '%'
    ensures Placeholders(a + b) == Placeholders(a) + Placeholders(b)
  {
    if a == [] {
      assert a + b == b;
    } else if b == [] {
      assert a + b == a;
    } else {
      var ab := a + b;
      assert ab[0] == a[0] && ab[1..] == a[1..] + b;
      if |a| == 1 {
        assert a[1..] == [] && ab[1..] == b;
        assert Placeholders(a) == 0;
        assert Placeholders(ab) == Placeholders(b);
      } else {
        assert ab[1] == a[1];
        assert a[1..][|a[1..]| - 1] == a[|a| - 1];
        PlaceholdersConcat(a[1..], b);
      }
    }
  }

  lemma ConditionNoPercent(c: Clause)
    ensures NoPercent(Condition(c)) && |Condition(c)| > 0
  {
  }

  lemma ClauseTextPlaceholder(c: Clause)
    ensures Placeholders(ClauseText(c)) == 1
  {
    ConditionNoPercent(c);
    NoPercentNoPlaceholders(Condition(c));
    PlaceholdersConcat(Condition(c), "%s");
    assert Placeholders("%s") == 1 by {
      assert "%s"[1..] == "s";
    }
  }

  /** Each filter brings exactly one placeholder into the statement. */
  lemma {:induction false} SqlTextPlaceholders(clauses: seq<Clause>)
    ensures Placeholders(SqlText(clauses)) == |clauses|
    ensures SqlText(clauses)[|SqlText(clauses)| - 1] != '%'
  {
    if clauses == [] {
      assert NoPercent(Header);
      NoPercentNoPlaceholders(Header);
    } else {
      var init := clauses[..|clauses| - 1];
      var last := clauses[|clauses| - 1];
      SqlTextPlaceholders(init);
      ClauseTextPlaceholder(last);
      PlaceholdersConcat(SqlText(init), ClauseText(last));
    }
  }

  /** The parameter a filter takes. */
  predicate Fits(c: Clause, p: Param, exifDatetime: Option<DateTime>, imageFilename: Option<string>, exifXpkeywords: Option<string>) {
    && (c == DateIs ==> exifDatetime.Some? && p == PDate(exifDatetime.value))
    && (c == FilenameIs ==> imageFilename.Some? && p == PText(imageFilename.value))
    && (c == KeywordsLike ==> exifXpkeywords.Some? && exifXpkeywords.value != "" && p == PText("%" + exifXpkeywords.value + "%"))
  }

  /** Filters in the fixed order, each with its parameter at its own place. */
  predicate WellFormed(q: Query, exifDatetime: Option<DateTime>, imageFilename: Option<string>, exifXpkeywords: Option<string>) {
    && |q.params| == |q.clauses|
    && (forall i, j :: 0 <= i < j < |q.clauses| ==> Rank(q.clauses[i]) < Rank(q.clauses[j]))
    && (forall k :: 0 <= k < |q.clauses| ==> Fits(q.clauses[k], q.params[k], exifDatetime, imageFilename, exifXpkeywords))
  }

  lemma AddClause(q: Query, c: Clause, p: Param, exifDatetime: Option<DateTime>, imageFilename: Option<string>, exifXpkeywords: Option<string>)
    requires WellFormed(q, exifDatetime, imageFilename, exifXpkeywords)
    requires forall i :: 0 <= i < |q.clauses| ==> Rank(q.clauses[i]) < Rank(c)
    requires Fits(c, p, exifDatetime, imageFilename, exifXpkeywords)
    ensures WellFormed(Query(q.clauses + [c], q.params + [p]), exifDatetime, imageFilename, exifXpkeywords)
  {
  }

  /** `search`'s statement for the given filters, or None when it returns `[]`
      without querying: the date, filename and keyword filters in that order,
      each with its one parameter, the keyword one only when it is not empty. */
  method SearchQuery(exifDatetime: Option<DateTime>, imageFilename: Option<string>, exifXpkeywords: Option<string>)
    returns (q: Option<Query>)
    ensures q.None? <==> exifDatetime.None? && imageFilename.None? && exifXpkeywords.None?
    ensures q.Some? ==> WellFormed(q.value, exifDatetime, imageFilename, exifXpkeywords)
    ensures q.Some? ==> (DateIs in q.value.clauses <==> exifDatetime.Some?)
    ensures q.Some? ==> (FilenameIs in q.value.clauses <==> imageFilename.Some?)
    ensures q.Some? ==> (KeywordsLike in q.value.clauses <==> exifXpkeywords.Some? && exifXpkeywords.value != "")
  {
    if exifDatetime.None? && imageFilename.None? && exifXpkeywords.None? {
      return None;
    }
    var query := Query([], []);
    if exifDatetime.Some? {
      AddClause(query, DateIs, PDate(exifDatetime.value), exifDatetime, imageFilename, exifXpkeywords);
      query := Query(query.clauses + [DateIs], query.params + [PDate(exifDatetime.value)]);
    }
    assert DateIs in query.clauses <==> exifDatetime.Some?;
    if imageFilename.Some? {
      AddClause(query, FilenameIs, PText(imageFilename.value), exifDatetime, imageFilename, exifXpkeywords);
      query := Query(query.clauses + [FilenameIs], query.params + [PText(imageFilename.value)]);
    }
    assert FilenameIs in query.clauses <==> imageFilename.Some?;
    if exifXpkeywords.Some? && exifXpkeywords.value != "" {
      var p := PText("%" + exifXpkeywords.value + "%");
      AddClause(query, KeywordsLike, p, exifDatetime, imageFilename, exifXpkeywords);
      query := Query(query.clauses + [KeywordsLike], query.params + [p]);
    }
    return Some(query);
  }

  /** A well-formed statement has one placeholder per parameter. */
  lemma QueryPlaceholders(q: Query, exifDatetime: Option<DateTime>, imageFilename: Option<string>, exifXpkeywords: Option<string>)
    requires WellFormed(q, exifDatetime, imageFilename, exifXpkeywords)
    ensures Placeholders(SqlText(q.clauses)) == |q.params|
  {
    SqlTextPlaceholders(q.clauses);
  }
}
