/** `ImageDBService` (database.py): the catalog's MySQL table of images.

    The server is modelled as the rows of each table; a statement's effect
    on them is written out. Connections, cursors, commits and the SQL engine
    itself are outside the model. */
module Database {
  import opened Maybe
  import opened Dates
  import opened ExifBuilder
  import opened DbDates

  /** What a column holds: a value from the table built from the images, or
      a `datetime` written by a metadata update. */
  datatype Value = Cell(raw: Raw) | Timestamp(at: DateTime)

  /** A row of `image_info`, columns in the order the insert statement lists
      them; `None` is SQL `NULL`. */
  datatype DbRow = DbRow(
    imageFilename: Option<Value>,
    exifDatetime: Option<Value>,
    fullPath: Option<Value>,
    createdTime: Option<Value>,
    exifMake: Option<Value>,
    exifModel: Option<Value>,
    exifXpkeywords: Option<Value>)

  /** The table both insert statements and `search` name. */
  const ImageInfo: string := "image_info"

  datatype DbError = NoSuchTable

  // ---------------------------------------------------------------------
  // Inserting a table of images
  // ---------------------------------------------------------------------

  /** `df.where(pd.notnull(df), None)` on one cell. */
  function NullToNone(v: Raw): (r: Option<Value>)
    ensures r.None? <==> v.Null?
    ensures r.Some? ==> r.value == Cell(v)
  {
    if v.Null? then None else Some(Cell(v))
  }

  /** The 7-tuple `insert_dataframe` builds for a record. */
  function RowOf(rec: Record): DbRow {
    DbRow(NullToNone(rec.imageFilename), NullToNone(rec.dateTime), NullToNone(rec.fullPath),
      NullToNone(rec.createdTime), NullToNone(rec.make), NullToNone(rec.model),
      NullToNone(rec.xpKeywords))
  }

  /** The tuples for a table, one per record, in order. */
  function InsertTuples(df: seq<Record>): (data: seq<DbRow>)
    ensures |data| == |df|
  {
    if df == [] then [] else InsertTuples(df[..|df| - 1]) + [RowOf(df[|df| - 1])]
  }

  /** One more record adds its tuple at the end. */
  lemma InsertTuplesSnoc(df: seq<Record>, rec: Record)
    ensures InsertTuples(df + [rec]) == InsertTuples(df) + [RowOf(rec)]
  {
    assert (df + [rec])[..|df|] == df;
  }

  lemma {:induction false} InsertTuplesAt(df: seq<Record>, i: nat)
    requires i < |df|
    ensures InsertTuples(df)[i] == RowOf(df[i])
  {
    if i < |df| - 1 {
      InsertTuplesAt(df[..|df| - 1], i);
    }
  }

  /** Every column of an inserted row carries the record's column of the
      same name, `NULL` exactly where the record has a missing cell. */
  lemma InsertedColumns(rec: Record)
    ensures var row := RowOf(rec);
      && (row.imageFilename.None? <==> rec.imageFilename.Null?)
      && (row.exifDatetime.None? <==> rec.dateTime.Null?)
      && (row.fullPath.None? <==> rec.fullPath.Null?)
      && (row.createdTime.None? <==> rec.createdTime.Null?)
      && (row.exifMake.None? <==> rec.make.Null?)
      && (row.exifModel.None? <==> rec.model.Null?)
      && (row.exifXpkeywords.None? <==> rec.xpKeywords.Null?)
      && (row.fullPath.Some? ==> row.fullPath.value == Cell(rec.fullPath))
      && (row.exifXpkeywords.Some? ==> row.exifXpkeywords.value == Cell(rec.xpKeywords))
  {
  }

  // ---------------------------------------------------------------------
  // Reading and updating by path
  // ---------------------------------------------------------------------

  /** `WHERE full_path = %s`. */
  predicate PathIs(row: DbRow, fullPath: string) {
    row.fullPath == Some(Cell(Text(fullPath)))
  }

  /** The first row at the path, or -1: the row `fetchone` returns. */
  function FirstAt(rows: seq<DbRow>, fullPath: string): (k: int)
    ensures -1 <= k < |rows|
    ensures k >= 0 ==> PathIs(rows[k], fullPath)
    ensures forall i :: 0 <= i < |rows| && (k < 0 || i < k) ==> !PathIs(rows[i], fullPath)
  {
    if rows == [] then -1
    else if PathIs(rows[0], fullPath) then 0
    else
      var k := FirstAt(rows[1..], fullPath);
      if k < 0 then -1 else k + 1
  }

  /** `get_tags` on a table's rows: the keywords of the row at the path;
      None when no row is there (and also when its keywords are `NULL`). */
  function TagsAt(rows: seq<DbRow>, fullPath: string): (r: Option<Value>)
    ensures FirstAt(rows, fullPath) < 0 ==> r.None?
    ensures FirstAt(rows, fullPath) >= 0 ==> r == rows[FirstAt(rows, fullPath)].exifXpkeywords
  {
    var k := FirstAt(rows, fullPath);
    if k < 0 then None else rows[k].exifXpkeywords
  }

  /** `UPDATE ... SET exif_xpkeywords = %s WHERE full_path = %s`. */
  function SetKeywords(rows: seq<DbRow>, fullPath: string, tags: string): (r: seq<DbRow>)
    ensures |r| == |rows|
    ensures forall i :: 0 <= i < |rows| && !PathIs(rows[i], fullPath) ==> r[i] == rows[i]
    ensures forall i :: 0 <= i < |rows| && PathIs(rows[i], fullPath) ==>
      r[i] == rows[i].(exifXpkeywords := Some(Cell(Text(tags))))
  {
    if rows == [] then []
    else
      var row := if PathIs(rows[0], fullPath) then rows[0].(exifXpkeywords := Some(Cell(Text(tags)))) else rows[0];
      [row] + SetKeywords(rows[1..], fullPath, tags)
  }

  /** The number of rows at the path: the rows an update by path matches. */
  function CountAt(rows: seq<DbRow>, fullPath: string): (n: nat)
    ensures n <= |rows|
    ensures n == 0 <==> FirstAt(rows, fullPath) < 0
  {
    if rows == [] then 0 else (if PathIs(rows[0], fullPath) then 1 else 0) + CountAt(rows[1..], fullPath)
  }

  /** `cursor.rowcount` of an UPDATE: mysql.connector connects without the
      `FOUND_ROWS` client flag, so the server reports the rows whose values
      the update changed, not the rows it matched. */
  function Changed(before: seq<DbRow>, after: seq<DbRow>): (n: nat)
    requires |before| == |after|
    ensures n <= |before|
    ensures n == 0 <==> before == after
  {
    if before == [] then 0
    else
      var rest := Changed(before[1..], after[1..]);
      assert before[0] == after[0] && before[1..] == after[1..] ==> before == after by {
        assert before == [before[0]] + before[1..] && after == [after[0]] + after[1..];
      }
      (if before[0] != after[0] then 1 else 0) + rest
  }

  /** Setting the keywords changes at most the rows at the path: the reported
      count never exceeds the matched rows, and is zero when every row there
      already holds the tags. */
  lemma {:induction false} SetKeywordsChanged(rows: seq<DbRow>, fullPath: string, tags: string)
    ensures Changed(rows, SetKeywords(rows, fullPath, tags)) <= CountAt(rows, fullPath)
    ensures (forall i :: 0 <= i < |rows| && PathIs(rows[i], fullPath) ==> rows[i].exifXpkeywords == Some(Cell(Text(tags))))
      ==> Changed(rows, SetKeywords(rows, fullPath, tags)) == 0
  {
    if rows != [] {
      var r := SetKeywords(rows, fullPath, tags);
      assert r[1..] == SetKeywords(rows[1..], fullPath, tags);
      SetKeywordsChanged(rows[1..], fullPath, tags);
      if forall i :: 0 <= i < |rows| && PathIs(rows[i], fullPath) ==> rows[i].exifXpkeywords == Some(Cell(Text(tags))) {
        assert forall i :: 0 <= i < |rows| - 1 && PathIs(rows[1..][i], fullPath) ==> rows[1..][i].exifXpkeywords == Some(Cell(Text(tags))) by {
          forall i | 0 <= i < |rows| - 1 && PathIs(rows[1..][i], fullPath)
            ensures rows[1..][i].exifXpkeywords == Some(Cell(Text(tags)))
          {
            assert rows[1..][i] == rows[i + 1];
          }
        }
        assert r[0] == rows[0];
      }
    }
  }

  /** After the keywords at a path are set, `get_tags` reads them back; with
      no row at the path nothing changes. */
  lemma SetKeywordsReadsBack(rows: seq<DbRow>, fullPath: string, tags: string)
    ensures FirstAt(rows, fullPath) >= 0 ==> TagsAt(SetKeywords(rows, fullPath, tags), fullPath) == Some(Cell(Text(tags)))
    ensures FirstAt(rows, fullPath) < 0 ==> SetKeywords(rows, fullPath, tags) == rows
  {
    var r := SetKeywords(rows, fullPath, tags);
    var k := FirstAt(rows, fullPath);
    assert forall i :: 0 <= i < |rows| ==> (PathIs(r[i], fullPath) <==> PathIs(rows[i], fullPath));
    if k >= 0 {
      FirstAtSame(rows, r, fullPath);
    }
  }

  /** Writing the same keywords twice is writing them once. */
  lemma SetKeywordsTwice(rows: seq<DbRow>, fullPath: string, tags: string)
    ensures SetKeywords(SetKeywords(rows, fullPath, tags), fullPath, tags) == SetKeywords(rows, fullPath, tags)
  {
    var once := SetKeywords(rows, fullPath, tags);
    var twice := SetKeywords(once, fullPath, tags);
    assert forall i :: 0 <= i < |once| ==> (PathIs(once[i], fullPath) <==> PathIs(rows[i], fullPath));
    assert forall i :: 0 <= i < |once| ==> twice[i] == once[i];
  }

  lemma {:induction false} FirstAtSame(a: seq<DbRow>, b: seq<DbRow>, fullPath: string)
    requires |a| == |b|
    requires forall i :: 0 <= i < |a| ==> (PathIs(a[i], fullPath) <==> PathIs(b[i], fullPath))
    ensures FirstAt(a, fullPath) == FirstAt(b, fullPath)
  {
    if a != [] {
      FirstAtSame(a[1..], b[1..], fullPath);
    }
  }

  /** A row inserted at a path no earlier row has is the one `get_tags`
      reads there. */
  lemma InsertedRowReadsBack(rows: seq<DbRow>, rec: Record, fullPath: string)
    requires FirstAt(rows, fullPath) < 0
    requires rec.fullPath == Text(fullPath)
    ensures TagsAt(rows + [RowOf(rec)], fullPath) == NullToNone(rec.xpKeywords)
  {
    var all := rows + [RowOf(rec)];
    FirstAtAppend(rows, RowOf(rec), fullPath);
  }

  lemma {:induction false} FirstAtAppend(rows: seq<DbRow>, row: DbRow, fullPath: string)
    requires FirstAt(rows, fullPath) < 0
    requires PathIs(row, fullPath)
    ensures FirstAt(rows + [row], fullPath) == |rows|
  {
    if rows != [] {
      assert (rows + [row])[1..] == rows[1..] + [row];
      FirstAtAppend(rows[1..], row, fullPath);
    }
  }

  // ---------------------------------------------------------------------
  // Metadata update
  // ---------------------------------------------------------------------

  /** `COALESCE(%s, column)`. */
  function Coalesce(v: Option<Value>, column: Option<Value>): (r: Option<Value>)
    ensures v.Some? ==> r == v
    ensures v.None? ==> r == column
  {
    if v.Some? then v else column
  }

  function TextValue(s: Option<string>): Option<Value> {
    if s.Some? then Some(Cell(Text(s.value))) else None
  }

  function TimeValue(dt: Option<DateTime>): Option<Value> {
    if dt.Some? then Some(Timestamp(dt.value)) else None
  }

  /** Whether a row is the one `WHERE full_path = %s` selects; a `NULL` path
      selects none. */
  predicate Selected(row: DbRow, fullPath: Option<string>) {
    fullPath.Some? && PathIs(row, fullPath.value)
  }

  /** The effect of the metadata update on one row. */
  function UpdatedRow(row: DbRow, dt: Option<DateTime>, make: Option<string>, model: Option<string>): DbRow {
    row.(exifDatetime := Coalesce(TimeValue(dt), row.exifDatetime),
         exifMake := Coalesce(TextValue(make), row.exifMake),
         exifModel := Coalesce(TextValue(model), row.exifModel))
  }

  /** The metadata update on a table: the selected rows get each new value
      that is given and keep the others; every other row, and every other
      column, stays as it was. */
  function ApplyMetadata(rows: seq<DbRow>, fullPath: Option<string>, dt: Option<DateTime>, make: Option<string>, model: Option<string>)
    : (r: seq<DbRow>)
    ensures |r| == |rows|
    ensures forall i :: 0 <= i < |rows| && !Selected(rows[i], fullPath) ==> r[i] == rows[i]
    ensures forall i :: 0 <= i < |rows| && Selected(rows[i], fullPath) ==>
      && r[i].imageFilename == rows[i].imageFilename && r[i].fullPath == rows[i].fullPath
      && r[i].createdTime == rows[i].createdTime && r[i].exifXpkeywords == rows[i].exifXpkeywords
      && r[i].exifDatetime == (if dt.Some? then Some(Timestamp(dt.value)) else rows[i].exifDatetime)
      && r[i].exifMake == (if make.Some? then Some(Cell(Text(make.value))) else rows[i].exifMake)
      && r[i].exifModel == (if model.Some? then Some(Cell(Text(model.value))) else rows[i].exifModel)
  {
    if rows == [] then []
    else
      var row := if Selected(rows[0], fullPath) then UpdatedRow(rows[0], dt, make, model) else rows[0];
      [row] + ApplyMetadata(rows[1..], fullPath, dt, make, model)
  }

  /** Applying the same update twice is applying it once. */
  lemma {:induction false} ApplyMetadataIdempotent(rows: seq<DbRow>, fullPath: Option<string>, dt: Option<DateTime>, make: Option<string>, model: Option<string>)
    ensures ApplyMetadata(ApplyMetadata(rows, fullPath, dt, make, model), fullPath, dt, make, model)
      == ApplyMetadata(rows, fullPath, dt, make, model)
  {
    var once := ApplyMetadata(rows, fullPath, dt, make, model);
    var twice := ApplyMetadata(once, fullPath, dt, make, model);
    assert forall i :: 0 <= i < |rows| ==> twice[i] == once[i];
  }

  /** The metadata update changes at most the selected rows, and none when
      the path is `NULL`. */
  lemma {:induction false} ApplyMetadataChanged(rows: seq<DbRow>, fullPath: Option<string>, dt: Option<DateTime>, make: Option<string>, model: Option<string>)
    ensures fullPath.None? ==> Changed(rows, ApplyMetadata(rows, fullPath, dt, make, model)) == 0
    ensures fullPath.Some? ==> Changed(rows, ApplyMetadata(rows, fullPath, dt, make, model)) <= CountAt(rows, fullPath.value)
  {
    if rows != [] {
      var r := ApplyMetadata(rows, fullPath, dt, make, model);
      assert r[1..] == ApplyMetadata(rows[1..], fullPath, dt, make, model);
      ApplyMetadataChanged(rows[1..], fullPath, dt, make, model);
    }
  }

  /** A text no format accepts leaves every stored date as it was. */
  lemma UnparsedDateKeepsDates(rows: seq<DbRow>, fullPath: Option<string>, exifDatetime: Option<string>, make: Option<string>, model: Option<string>)
    requires MetadataDate(exifDatetime).None?
    ensures var r := ApplyMetadata(rows, fullPath, MetadataDate(exifDatetime), make, model);
      forall i :: 0 <= i < |rows| ==> r[i].exifDatetime == rows[i].exifDatetime
  {
  }

  // ---------------------------------------------------------------------
  // The service
  // ---------------------------------------------------------------------

  /** The service and the database it talks to: `table` is the configured
      table `get_tags` and the updates use; `tables` the rows of each table
      that exists. */
  class ImageDb {
    const table: string
    var tables: map<string, seq<DbRow>>

    constructor(table: string, tables: map<string, seq<DbRow>>)
      ensures this.table == table && this.tables == tables
    {
      this.table := table;
      this.tables := tables;
    }

    /** `insert_dataframe`: one row per record appended to `image_info`;
        nothing is executed for an empty table. */
    method InsertDataframe(df: seq<Record>) returns (r: Result<nat, DbError>)
      modifies this
      ensures df == [] ==> r == Ok(0) && tables == old(tables)
      ensures df != [] && ImageInfo !in old(tables) ==> r == Err(NoSuchTable) && tables == old(tables)
      ensures df != [] && ImageInfo in old(tables) ==>
        r == Ok(|df|) && tables == old(tables)[ImageInfo := old(tables)[ImageInfo] + InsertTuples(df)]
    {
      var data: seq<DbRow> := [];
      for i := 0 to |df|
        invariant data == InsertTuples(df[..i])
      {
        assert df[..i + 1][..i] == df[..i];
        data := data + [RowOf(df[i])];
      }
      assert df[..|df|] == df;
      if data == [] {
        return Ok(0);
      }
      if ImageInfo !in tables {
        return Err(NoSuchTable);
      }
      tables := tables[ImageInfo := tables[ImageInfo] + data];
      return Ok(|data|);
    }

    /** `new_insert_dataframe`: the same statement built the same way. */
    method NewInsertDataframe(df: seq<Record>) returns (r: Result<nat, DbError>)
      modifies this
      ensures df == [] ==> r == Ok(0) && tables == old(tables)
      ensures df != [] && ImageInfo !in old(tables) ==> r == Err(NoSuchTable) && tables == old(tables)
      ensures df != [] && ImageInfo in old(tables) ==>
        r == Ok(|df|) && tables == old(tables)[ImageInfo := old(tables)[ImageInfo] + InsertTuples(df)]
    {
      r := InsertDataframe(df);
    }

    /** `get_tags`. */
    function GetTags(fullPath: string): (r: Result<Option<Value>, DbError>)
      reads this
      ensures table !in tables <==> r.Err?
      ensures r.Ok? && FirstAt(tables[table], fullPath) < 0 ==> r.value.None?
      ensures r.Ok? && FirstAt(tables[table], fullPath) >= 0 ==>
        r.value == tables[table][FirstAt(tables[table], fullPath)].exifXpkeywords
    {
      if table !in tables then Err(NoSuchTable) else Ok(TagsAt(tables[table], fullPath))
    }

    /** `get_full_path`: the stored paths of the configured table, in table
        order. */
    function GetFullPath(): (r: Result<seq<Option<Value>>, DbError>)
      reads this
      ensures table !in tables <==> r.Err?
      ensures r.Ok? ==> |r.value| == |tables[table]|
      ensures r.Ok? ==> forall i :: 0 <= i < |r.value| ==> r.value[i] == tables[table][i].fullPath
    {
      if table !in tables then Err(NoSuchTable)
      else
        var rows := tables[table];
        Ok(seq(|rows|, i requires 0 <= i < |rows| => rows[i].fullPath))
    }

    /** `update_tag_info`: replaces the keywords of the rows at the path and
        returns how many rows that changed. */
    method UpdateTagInfo(fullPath: string, tagValue: string) returns (r: Result<nat, DbError>)
      modifies this
      ensures table !in old(tables) ==> r == Err(NoSuchTable) && tables == old(tables)
      ensures table in old(tables) ==>
        && tables == old(tables)[table := SetKeywords(old(tables)[table], fullPath, tagValue)]
        && r == Ok(Changed(old(tables)[table], tables[table]))
    {
      if table !in tables {
        return Err(NoSuchTable);
      }
      var rows := tables[table];
      var updated := SetKeywords(rows, fullPath, tagValue);
      tables := tables[table := updated];
      return Ok(Changed(rows, updated));
    }

    /** `update_metadata_info`: parses the date, then sets each given value
        on the rows at the path and returns how many rows that changed. */
    method UpdateMetadataInfo(fullPath: Option<string>, exifDatetime: Option<string>, exifMake: Option<string>, exifModel: Option<string>)
      returns (r: Result<nat, DbError>)
      modifies this
      ensures table !in old(tables) ==> r == Err(NoSuchTable) && tables == old(tables)
      ensures table in old(tables) ==>
        tables == old(tables)[table := ApplyMetadata(old(tables)[table], fullPath, MetadataDate(exifDatetime), exifMake, exifModel)]
      ensures table in old(tables) ==> r == Ok(Changed(old(tables)[table], tables[table]))
      ensures table in old(tables) && fullPath.None? ==> r == Ok(0)
    {
      var dt := ParseMetadataDate(exifDatetime);
      if table !in tables {
        return Err(NoSuchTable);
      }
      var rows := tables[table];
      var updated := ApplyMetadata(rows, fullPath, dt, exifMake, exifModel);
      ApplyMetadataChanged(rows, fullPath, dt, exifMake, exifModel);
      tables := tables[table := updated];
      return Ok(Changed(rows, updated));
    }
  }
}
