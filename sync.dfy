/** `edit_database` in web.py: inserts the scanned images whose resolved,
    lower-cased path is not among the stored ones. */
module CatalogSync {
  import opened Maybe
  import opened Text
  import opened ExifBuilder
  import opened Database

  /** The comparison key: `Path(p).resolve().as_posix().lower()`, where
      `Path("")` is the current folder `.`. */
  function Key(resolve: string -> string, p: string): string {
    Lower(resolve(if p == "" then "." else p))
  }

  datatype SyncError =
    | StoredPathNotText            // `Path()` of a stored value that is not text
    | BuildFailed(reason: BuildError)
    | RecordPathNotText            // `Path()` of a scanned path that is not text
    | InsertFailed(cause: DbError)

  /** The keys of the stored paths; any value that is not text makes
      `Path()` raise. */
  function KeysOf(resolve: string -> string, paths: seq<Option<Value>>): (r: Result<set<string>, SyncError>)
    ensures r.Ok? <==> forall i :: 0 <= i < |paths| ==> paths[i].Some? && paths[i].value.Cell? && paths[i].value.raw.Text?
    ensures r.Err? ==> r.error == StoredPathNotText
    ensures r.Ok? ==> forall i :: 0 <= i < |paths| ==> Key(resolve, paths[i].value.raw.text) in r.value
  {
    if paths == [] then Ok({})
    else
      var init := KeysOf(resolve, paths[..|paths| - 1]);
      var last := paths[|paths| - 1];
      if init.Err? then init
      else if !(last.Some? && last.value.Cell? && last.value.raw.Text?) then Err(StoredPathNotText)
      else
        Ok(init.value + {Key(resolve, last.value.raw.text)})
  }

  /** Every key comes from a stored path. */
  lemma {:induction false} KeysOfMembers(resolve: string -> string, paths: seq<Option<Value>>, k: string)
    requires KeysOf(resolve, paths).Ok? && k in KeysOf(resolve, paths).value
    ensures exists i :: 0 <= i < |paths| && k == Key(resolve, paths[i].value.raw.text)
  {
    var init := paths[..|paths| - 1];
    if k in KeysOf(resolve, init).value {
      KeysOfMembers(resolve, init, k);
      var i :| 0 <= i < |init| && k == Key(resolve, init[i].value.raw.text);
      assert init[i] == paths[i];
    } else {
      assert k == Key(resolve, paths[|paths| - 1].value.raw.text);
    }
  }

  /** What `edit_database` compares against: the keys of the stored paths,
      or, when `get_full_path` returned its error message instead, the keys
      of that message's characters. */
  function StoredKeys(resolve: string -> string, stored: Result<seq<Option<Value>>, DbError>, errorText: string): (r: Result<set<string>, SyncError>)
    ensures stored.Ok? ==> r == KeysOf(resolve, stored.value)
    ensures stored.Err? ==> r.Ok? && forall c :: c in errorText ==> Key(resolve, [c]) in r.value
  {
    if stored.Err? then Ok(set c | c in errorText :: Key(resolve, [c]))
    else KeysOf(resolve, stored.value)
  }

  /** The records the loop inserts, front to back: those whose key is not
      stored, up to the first record whose path is not text. The stored
      keys are not updated in the loop, so a path scanned twice is inserted
      twice. */
  function Pending(resolve: string -> string, keys: set<string>, recs: seq<Record>): (p: seq<Record>)
    ensures |p| <= |recs|
  {
    if recs == [] || !recs[0].fullPath.Text? then []
    else if Key(resolve, recs[0].fullPath.text) in keys then Pending(resolve, keys, recs[1..])
    else [recs[0]] + Pending(resolve, keys, recs[1..])
  }

  /** Only scanned records with a text path and an unknown key are
      inserted. */
  lemma {:induction false} PendingMembers(resolve: string -> string, keys: set<string>, recs: seq<Record>)
    ensures forall x :: x in Pending(resolve, keys, recs) ==>
      x in recs && x.fullPath.Text? && Key(resolve, x.fullPath.text) !in keys
  {
    if recs != [] && recs[0].fullPath.Text? {
      PendingMembers(resolve, keys, recs[1..]);
    }
  }

  /** Whether every scanned path is text, so that the loop runs to the end. */
  predicate AllText(recs: seq<Record>) {
    forall i :: 0 <= i < |recs| ==> recs[i].fullPath.Text?
  }

  /** A text record before the first non-text one is inserted exactly when
      its key is not stored. */
  lemma {:induction false} PendingHas(resolve: string -> string, keys: set<string>, recs: seq<Record>, i: nat)
    requires i < |recs| && AllText(recs[..i + 1])
    requires Key(resolve, recs[i].fullPath.text) !in keys
    ensures recs[i] in Pending(resolve, keys, recs)
  {
    if i > 0 {
      assert recs[1..][..i] == recs[..i + 1][1..];
      PendingHas(resolve, keys, recs[1..], i - 1);
    }
  }

  /** One step of the loop. */
  lemma PendingStep(resolve: string -> string, keys: set<string>, recs: seq<Record>, i: nat)
    requires i < |recs| && recs[i].fullPath.Text?
    ensures Pending(resolve, keys, recs[i..]) ==
      (if Key(resolve, recs[i].fullPath.text) in keys then [] else [recs[i]]) + Pending(resolve, keys, recs[i + 1..])
  {
    assert recs[i..][0] == recs[i] && recs[i..][1..] == recs[i + 1..];
  }

  /** Once every pending key is stored, there is nothing left to insert. */
  lemma {:induction false} PendingNone(resolve: string -> string, keys: set<string>, keys': set<string>, recs: seq<Record>)
    requires keys <= keys'
    requires forall x :: x in Pending(resolve, keys, recs) && x.fullPath.Text? ==> Key(resolve, x.fullPath.text) in keys'
    ensures Pending(resolve, keys', recs) == []
  {
    if recs != [] && recs[0].fullPath.Text? {
      if Key(resolve, recs[0].fullPath.text) !in keys {
        assert recs[0] in Pending(resolve, keys, recs);
      }
      PendingNone(resolve, keys, keys', recs[1..]);
    }
  }

  /** A scanned path whose resolved form differs from a stored one only in
      letter case is not inserted. */
  lemma CaseVariantSkipped(resolve: string -> string, paths: seq<Option<Value>>, recs: seq<Record>, i: nat, j: nat)
    requires KeysOf(resolve, paths).Ok?
    requires i < |paths| && j < |recs| && recs[j].fullPath.Text?
    requires EqualIgnoringCase(resolve(if paths[i].value.raw.text == "" then "." else paths[i].value.raw.text),
                               resolve(if recs[j].fullPath.text == "" then "." else recs[j].fullPath.text))
    ensures recs[j] !in Pending(resolve, KeysOf(resolve, paths).value, recs)
  {
    var keys := KeysOf(resolve, paths).value;
    LowerIgnoresCase(resolve(if paths[i].value.raw.text == "" then "." else paths[i].value.raw.text),
                     resolve(if recs[j].fullPath.text == "" then "." else recs[j].fullPath.text));
    assert Key(resolve, recs[j].fullPath.text) in keys;
    PendingMembers(resolve, keys, recs);
  }

  /** The stored paths of a table, as `get_full_path` returns them. */
  function PathsOf(rows: seq<DbRow>): (paths: seq<Option<Value>>)
    ensures |paths| == |rows|
    ensures forall i :: 0 <= i < |rows| ==> paths[i] == rows[i].fullPath
  {
    seq(|rows|, i requires 0 <= i < |rows| => rows[i].fullPath)
  }

  /** Inserted records add the keys of their paths to the stored ones. */
  lemma {:induction false} KeysAfterInsert(resolve: string -> string, rows: seq<DbRow>, p: seq<Record>)
    requires KeysOf(resolve, PathsOf(rows)).Ok?
    requires forall x :: x in p ==> x.fullPath.Text?
    ensures KeysOf(resolve, PathsOf(rows + InsertTuples(p))).Ok?
    ensures forall x :: x in p ==> Key(resolve, x.fullPath.text) in KeysOf(resolve, PathsOf(rows + InsertTuples(p))).value
    ensures KeysOf(resolve, PathsOf(rows)).value <= KeysOf(resolve, PathsOf(rows + InsertTuples(p))).value
  {
    var all := rows + InsertTuples(p);
    forall j | 0 <= j < |p|
      ensures all[|rows| + j].fullPath == Some(Cell(p[j].fullPath))
    {
      InsertTuplesAt(p, j);
    }
    var paths := PathsOf(all);
    forall k | 0 <= k < |paths|
      ensures paths[k].Some? && paths[k].value.Cell? && paths[k].value.raw.Text?
    {
      if k >= |rows| {
        assert p[k - |rows|] in p;
      }
    }
    forall x | x in p
      ensures Key(resolve, x.fullPath.text) in KeysOf(resolve, paths).value
    {
      var j :| 0 <= j < |p| && p[j] == x;
      assert paths[|rows| + j].value.raw.text == x.fullPath.text;
    }
    forall k | k in KeysOf(resolve, PathsOf(rows)).value
      ensures k in KeysOf(resolve, paths).value
    {
      KeysOfMembers(resolve, PathsOf(rows), k);
      var i :| 0 <= i < |rows| && k == Key(resolve, PathsOf(rows)[i].value.raw.text);
      assert paths[i] == PathsOf(rows)[i];
    }
  }

  /** Running the sync again over the same scan inserts nothing, when the
      configured table is the one the inserts write to. */
  lemma SecondRunAddsNothing(resolve: string -> string, rows: seq<DbRow>, recs: seq<Record>)
    requires KeysOf(resolve, PathsOf(rows)).Ok?
    ensures var p := Pending(resolve, KeysOf(resolve, PathsOf(rows)).value, recs);
      var keys' := KeysOf(resolve, PathsOf(rows + InsertTuples(p)));
      keys'.Ok? && Pending(resolve, keys'.value, recs) == []
  {
    var keys := KeysOf(resolve, PathsOf(rows)).value;
    var p := Pending(resolve, keys, recs);
    PendingMembers(resolve, keys, recs);
    KeysAfterInsert(resolve, rows, p);
    PendingNone(resolve, keys, KeysOf(resolve, PathsOf(rows + InsertTuples(p))).value, recs);
  }

  /** The insertion loop stops at a record whose path is not text: nothing
      after it is pending, and not every record has a text path. */
  lemma PendingStops(resolve: string -> string, keys: set<string>, recs: seq<Record>, i: nat, done: seq<Record>, p: seq<Record>)
    requires i < |recs| && !recs[i].fullPath.Text?
    requires done + Pending(resolve, keys, recs[i..]) == p
    ensures done == p
    ensures !AllText(recs)
  {
    assert recs[i..][0] == recs[i];
    assert done + [] == done;
  }

  /** A text record whose key is stored is skipped. */
  lemma PendingSkip(resolve: string -> string, keys: set<string>, recs: seq<Record>, i: nat, done: seq<Record>, p: seq<Record>)
    requires i < |recs| && recs[i].fullPath.Text? && Key(resolve, recs[i].fullPath.text) in keys
    requires done + Pending(resolve, keys, recs[i..]) == p
    ensures done + Pending(resolve, keys, recs[i + 1..]) == p
  {
    PendingStep(resolve, keys, recs, i);
    assert [] + Pending(resolve, keys, recs[i + 1..]) == Pending(resolve, keys, recs[i + 1..]);
  }

  /** A text record whose key is not stored is the next one inserted. */
  lemma PendingTake(resolve: string -> string, keys: set<string>, recs: seq<Record>, i: nat, done: seq<Record>, p: seq<Record>)
    requires i < |recs| && recs[i].fullPath.Text? && Key(resolve, recs[i].fullPath.text) !in keys
    requires done + Pending(resolve, keys, recs[i..]) == p
    ensures (done + [recs[i]]) + Pending(resolve, keys, recs[i + 1..]) == p
    ensures p != []
  {
    PendingStep(resolve, keys, recs, i);
    assert done + ([recs[i]] + Pending(resolve, keys, recs[i + 1..])) == p;
    assert |p| > |done|;
  }

  /** The tables after appending `rows` to `image_info`, which only
      succeeds when that table exists. */
  predicate HoldsRows(tables0: map<string, seq<DbRow>>, tables: map<string, seq<DbRow>>, rows: seq<DbRow>) {
    if ImageInfo in tables0 then tables == tables0[ImageInfo := tables0[ImageInfo] + rows]
    else tables == tables0 && rows == []
  }

  /** `new_insert_dataframe` of one record, on a table that holds the
      rows inserted so far. */
  method InsertRecord(db: ImageDb, ghost tables0: map<string, seq<DbRow>>, ghost rows: seq<DbRow>, rec: Record)
    returns (inserted: bool)
    modifies db
    requires HoldsRows(tables0, db.tables, rows)
    ensures inserted <==> ImageInfo in tables0
    ensures inserted ==> HoldsRows(tables0, db.tables, rows + [RowOf(rec)])
    ensures !inserted ==> db.tables == tables0
  {
    var rc := db.NewInsertDataframe([rec]);
    if rc.Err? {
      return false;
    }
    assert InsertTuples([rec]) == [RowOf(rec)];
    assert tables0[ImageInfo] + rows + [RowOf(rec)] == tables0[ImageInfo] + (rows + [RowOf(rec)]);
    return true;
  }

  /** The insertion loop over the scanned records: one single-record
      insert per pending record, stopping at the first failure. */
  method InsertPending(db: ImageDb, resolve: string -> string, keys: set<string>, recs: seq<Record>) returns (r: Result<nat, SyncError>)
    modifies db
    ensures ImageInfo in old(db.tables) ==>
      db.tables == old(db.tables)[ImageInfo := old(db.tables)[ImageInfo] + InsertTuples(Pending(resolve, keys, recs))]
    ensures ImageInfo in old(db.tables) ==>
      r == (if AllText(recs) then Ok(|Pending(resolve, keys, recs)|) else Err(RecordPathNotText))
    ensures ImageInfo !in old(db.tables) ==> db.tables == old(db.tables)
    ensures ImageInfo !in old(db.tables) ==>
      r == (if Pending(resolve, keys, recs) != [] then Err(InsertFailed(NoSuchTable))
            else if AllText(recs) then Ok(0) else Err(RecordPathNotText))
  {
    ghost var tables0 := db.tables;
    ghost var p := Pending(resolve, keys, recs);
    ghost var rows: seq<DbRow> := [];
    var done: seq<Record> := [];
    if ImageInfo in tables0 {
      assert tables0[ImageInfo] + [] == tables0[ImageInfo];
    }
    var i := 0;
    while i < |recs|
      invariant i <= |recs|
      invariant forall j :: 0 <= j < i ==> recs[j].fullPath.Text?
      invariant done + Pending(resolve, keys, recs[i..]) == p
      invariant HoldsRows(tables0, db.tables, rows)
      invariant rows == InsertTuples(done)
    {
      if !recs[i].fullPath.Text? {
        PendingStops(resolve, keys, recs, i, done, p);
        assert ImageInfo !in tables0 ==> done == [] by { assert |rows| == |done|; }
        return Err(RecordPathNotText);
      }
      if Key(resolve, recs[i].fullPath.text) !in keys {
        PendingTake(resolve, keys, recs, i, done, p);
        var inserted := InsertRecord(db, tables0, rows, recs[i]);
        if !inserted {
          assert p != [] && ImageInfo !in tables0;
          return Err(InsertFailed(NoSuchTable));
        }
        InsertTuplesSnoc(done, recs[i]);
        rows := rows + [RowOf(recs[i])];
        done := done + [recs[i]];
      } else {
        PendingSkip(resolve, keys, recs, i, done, p);
      }
      i := i + 1;
    }
    assert recs[|recs|..] == [];
    assert done == p && AllText(recs);
    assert ImageInfo !in tables0 ==> done == [] by { assert |rows| == |done|; }
    return Ok(|done|);
  }

  /** `edit_database`: reads the stored paths, builds the table, computes the
      stored keys and inserts each record whose key is not among them. */
  method EditDatabase(db: ImageDb, resolve: string -> string, errorText: string, built: Result<seq<Record>, BuildError>)
    returns (r: Result<nat, SyncError>)
    modifies db
    ensures built.Err? ==> r == Err(BuildFailed(built.error)) && db.tables == old(db.tables)
    ensures built.Ok? && StoredKeys(resolve, old(db.GetFullPath()), errorText).Err? ==>
      r == Err(StoredPathNotText) && db.tables == old(db.tables)
    ensures built.Ok? && StoredKeys(resolve, old(db.GetFullPath()), errorText).Ok? ==>
      var p := Pending(resolve, StoredKeys(resolve, old(db.GetFullPath()), errorText).value, built.value);
      && (ImageInfo in old(db.tables) ==>
            db.tables == old(db.tables)[ImageInfo := old(db.tables)[ImageInfo] + InsertTuples(p)])
      && (ImageInfo !in old(db.tables) ==> db.tables == old(db.tables))
      && (ImageInfo in old(db.tables) ==>
            r == (if AllText(built.value) then Ok(|p|) else Err(RecordPathNotText)))
      && (ImageInfo !in old(db.tables) ==>
            r == (if p != [] then Err(InsertFailed(NoSuchTable))
                  else if AllText(built.value) then Ok(0) else Err(RecordPathNotText)))
  {
    var data := db.GetFullPath();
    if built.Err? {
      return Err(BuildFailed(built.error));
    }
    var keys := StoredKeys(resolve, data, errorText);
    if keys.Err? {
      return Err(keys.error);
    }
    r := InsertPending(db, resolve, keys.value, built.value);
  }
}
