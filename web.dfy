/** The request handlers of web.py: serving uploads, the gallery listing, and
    the edit form with its tag and metadata updates.

    Flask itself (routing, templates, redirects, reading the request) is
    outside the model: a handler receives the request fields as values and
    returns what it would answer. */
module Web {
  import opened Maybe
  import opened Text
  import opened Dates
  import opened TagLists
  import opened TagManager
  import opened MetadataEdit
  import opened ExifBuilder
  import opened Database
  import opened DbSearch

  /** The world around the handlers. */
  datatype WebEnv = WebEnv(
    resolve: string -> string,   // `str(Path(p).resolve())`
    baseDir: string)             // `str(BASE_DIR)`: the resolved upload folder

  /** `(value or default).strip()` for a request field. */
  function Field(v: Option<string>, default: string): (r: string)
    ensures IsStripped(r)
    ensures v.Some? && v.value != "" ==> r == Strip(v.value)
    ensures v.None? || v.value == "" ==> r == Strip(default)
  {
    Strip(if v.None? || v.value == "" then default else v.value)
  }

  /** `Path(base) / rel` as text: an absolute `rel` replaces the base, an
      empty one leaves it. */
  function JoinPath(base: string, rel: string): (r: string)
    ensures rel != [] && rel[0] == '/' ==> r == rel
    ensures rel == [] ==> r == base
  {
    if rel == [] then base
    else if rel[0] == '/' then rel
    else base + "/" + rel
  }

  // ---------------------------------------------------------------------
  // The containment test
  // ---------------------------------------------------------------------

  /** The test `uploads` and `edit_tags` apply: the resolved target's text
      starts with the base folder's text. */
  predicate PrefixAllowed(target: string, baseDir: string) {
    StartsWith(target, baseDir)
  }

  /** What every path strictly inside the folder starts with: the folder
      and a separator, or the root `/` alone. */
  function Under(baseDir: string): string {
    if baseDir == "/" then baseDir else baseDir + "/"
  }

  /** Being the folder or inside it, component by component. */
  predicate Inside(p: string, baseDir: string) {
    p == baseDir || StartsWith(p, Under(baseDir))
  }

  /** Everything inside the folder passes the test. */
  lemma InsideAllowed(p: string, baseDir: string)
    requires Inside(p, baseDir)
    ensures PrefixAllowed(p, baseDir)
  {
    if p != baseDir {
      assert p[..|baseDir|] == Under(baseDir)[..|baseDir|];
    }
  }

  /** The test also passes a sibling whose name extends the folder's, which
      is not inside it: with the folder `/srv/up`, `/srv/upx/f` passes. The
      root folder has no siblings: such a path is inside it. */
  lemma SiblingAllowed(baseDir: string, c: char, rest: string)
    requires c != '/'
    ensures PrefixAllowed(baseDir + [c] + rest, baseDir)
    ensures baseDir != "/" ==> !Inside(baseDir + [c] + rest, baseDir)
    ensures baseDir == "/" ==> Inside(baseDir + [c] + rest, baseDir)
  {
    var p := baseDir + [c] + rest;
    assert p[..|baseDir|] == baseDir;
    assert p[|baseDir|] == c;
    if baseDir != "/" {
      assert |p| >= |Under(baseDir)| ==> p[..|Under(baseDir)|][|baseDir|] == c;
    }
  }

  /** What `uploads` answers. */
  datatype UploadResponse = Forbidden | Serve(folder: string, relpath: string)

  /** `uploads`: 403 unless the resolved target passes the test; else the
      file is served from the base folder. */
  function Uploads(env: WebEnv, relpath: string): (r: UploadResponse)
    ensures r.Forbidden? <==> !PrefixAllowed(env.resolve(JoinPath(env.baseDir, relpath)), env.baseDir)
    ensures r.Serve? ==> r == Serve(env.baseDir, relpath)
  {
    var target := env.resolve(JoinPath(env.baseDir, relpath));
    if !PrefixAllowed(target, env.baseDir) then Forbidden else Serve(env.baseDir, relpath)
  }

  // ---------------------------------------------------------------------
  // The gallery
  // ---------------------------------------------------------------------

  /** Where the gallery's rows come from. */
  datatype GalleryQuery =
    | Browse(limit: nat)                 // `get_all_images(limit=500)`
    // `search`; the `date` that `.date()` gives is passed as that date at midnight
    | Filtered(exifDate: Option<DateTime>, imageFilename: Option<string>, tagFile: Option<string>)

  datatype GalleryError =
    | BadDate     // `strptime` raised `ValueError` on the date field
    | NotAPath    // `Path()` of a stored value that is not text

  /** The query `gallery` makes for its three fields. */
  function GalleryPlan(qArg: Option<string>, dateArg: Option<string>, gArg: Option<string>): (r: Result<GalleryQuery, GalleryError>)
    ensures var d := Field(dateArg, "");
      r.Err? <==> d != "" && ParseDate(d).None?
    ensures r.Ok? ==> (r.value.Browse? <==> Field(qArg, "") == "" && Field(dateArg, "") == "" && Field(gArg, "") == "")
    ensures r.Ok? && r.value.Browse? ==> r.value.limit == 500
    ensures r.Ok? && r.value.Filtered? ==>
      && (r.value.exifDate.Some? <==> Field(dateArg, "") != "")
      && (r.value.exifDate.Some? ==> Some(r.value.exifDate.value) == ParseDate(Field(dateArg, "")))
      && r.value.imageFilename == NonEmpty(Field(qArg, ""))
      && r.value.tagFile == NonEmpty(Field(gArg, ""))
  {
    var q := Field(qArg, "");
    var d := Field(dateArg, "");
    var g := Field(gArg, "");
    if d != "" && ParseDate(d).None? then Err(BadDate)
    else
      var exifDate := if d != "" then ParseDate(d) else None;
      var imageFilename := NonEmpty(q);
      var tagFile := NonEmpty(g);
      if exifDate.None? && imageFilename.None? && tagFile.None? then Ok(Browse(500))
      else Ok(Filtered(exifDate, imageFilename, tagFile))
  }

  /** An image as the gallery page receives it. */
  datatype GalleryImage = GalleryImage(
    imageFilename: Option<Value>, relpath: string, exifDatetime: Option<Value>,
    exifMake: Option<Value>, exifModel: Option<Value>, exifXpkeywords: Option<Value>)

  /** A stored `full_path` as `gallery` sees it: falsy (skipped), text, or a
      value `Path()` refuses. */
  datatype PathCell = NoPath | PathText(text: string) | NotText

  /** Python truthiness of a stored value: NULL, zero, and empty text,
      bytes or containers are false. */
  predicate Falsy(v: Option<Value>) {
    v.None? ||
    (v.value.Cell? &&
      match v.value.raw
      case Text(t) => t == ""
      case Bytes(b) => b == []
      case Items(xs) => xs == []
      case Mapping(kvs) => kvs == []
      case Number(n) => n == 0
      case Rational(n, _) => n == 0
      case Null => true)
  }

  function Classify(v: Option<Value>): (c: PathCell)
    ensures c.NoPath? <==> Falsy(v)
    ensures c.PathText? <==> !Falsy(v) && v.value.Cell? && v.value.raw.Text?
  {
    if Falsy(v) then NoPath
    else if v.value.Cell? && v.value.raw.Text? then PathText(v.value.raw.text)
    else NotText
  }

  /** `PurePath.relative_to` for resolved paths: None when `p` is not the
      folder or inside it. */
  function RelativeTo(p: string, baseDir: string): (r: Option<string>)
    ensures r.Some? <==> Inside(p, baseDir)
    ensures r == Some(".") <== p == baseDir
    ensures r.Some? && p != baseDir ==> Under(baseDir) + r.value == p
    ensures r.Some? && p != baseDir && baseDir != "/" ==> baseDir + "/" + r.value == p
  {
    if p == baseDir then Some(".")
    else if StartsWith(p, Under(baseDir)) then
      var rel := p[|Under(baseDir)|..];
      assert Under(baseDir) + rel == p[..|Under(baseDir)|] + rel;
      Some(rel)
    else None
  }

  /** With the root as the folder, every other absolute path is inside it,
      and its relative path drops the leading `/`. */
  lemma RootRelative(p: string)
    requires |p| > 1 && p[0] == '/'
    ensures Inside(p, "/")
    ensures RelativeTo(p, "/") == Some(p[1..])
  {
    assert p[..1] == "/";
  }

  /** What the gallery loop does with one row: skip it, add its image, or
      fail. */
  function ImageOf(env: WebEnv, row: DbRow): Result<Option<GalleryImage>, GalleryError> {
    var cell := Classify(row.fullPath);
    if cell.NoPath? then Ok(None)
    else if cell.NotText? then Err(NotAPath)
    else
      var rel := RelativeTo(env.resolve(cell.text), env.baseDir);
      if rel.None? then Ok(None)
      else Ok(Some(GalleryImage(row.imageFilename, ReplaceChar(rel.value, '\\', '/'), row.exifDatetime,
        row.exifMake, row.exifModel, row.exifXpkeywords)))
  }

  /** The images of the gallery page for its rows, in row order. */
  function GalleryImages(env: WebEnv, rows: seq<DbRow>): (r: Result<seq<GalleryImage>, GalleryError>)
    ensures r.Ok? ==> |r.value| <= |rows|
  {
    if rows == [] then Ok([])
    else
      var init := GalleryImages(env, rows[..|rows| - 1]);
      var last := ImageOf(env, rows[|rows| - 1]);
      if init.Err? then init
      else if last.Err? then Err(last.error)
      else if last.value.None? then init
      else Ok(init.value + [last.value.value])
  }

  /** The rows of two result sets give the images of each, one after the
      other: the page keeps the rows' order. */
  lemma {:induction false} GalleryImagesConcat(env: WebEnv, a: seq<DbRow>, b: seq<DbRow>)
    ensures GalleryImages(env, a + b) ==
      if GalleryImages(env, a).Err? then GalleryImages(env, a)
      else if GalleryImages(env, b).Err? then GalleryImages(env, b)
      else Ok(GalleryImages(env, a).value + GalleryImages(env, b).value)
    decreases |b|
  {
    if b == [] {
      assert a + b == a;
      assert GalleryImages(env, b) == Ok([]);
      if GalleryImages(env, a).Ok? {
        assert GalleryImages(env, a).value + [] == GalleryImages(env, a).value;
      }
    } else {
      var b' := b[..|b| - 1];
      assert (a + b)[..|a + b| - 1] == a + b';
      assert (a + b)[|a + b| - 1] == b[|b| - 1];
      GalleryImagesConcat(env, a, b');
      var last := ImageOf(env, b[|b| - 1]);
      if GalleryImages(env, a).Ok? && GalleryImages(env, b').Ok? && last.Ok? && last.value.Some? {
        var x, y := GalleryImages(env, a).value, GalleryImages(env, b').value;
        assert x + y + [last.value.value] == x + (y + [last.value.value]);
      }
    }
  }

  /** A row's image names a path under the base folder: the stored path
      resolves inside it, the relative path has no backslash left, and for a
      path without backslashes it is the part after the folder. */
  lemma ImageUnderBase(env: WebEnv, row: DbRow)
    requires ImageOf(env, row).Ok? && ImageOf(env, row).value.Some?
    ensures row.fullPath.Some? && row.fullPath.value.Cell? && row.fullPath.value.raw.Text?
    ensures var p := env.resolve(row.fullPath.value.raw.text);
      var rel := ImageOf(env, row).value.value.relpath;
      && Inside(p, env.baseDir)
      && '\\' !in rel
      && (p != env.baseDir && '\\' !in p ==> Under(env.baseDir) + rel == p)
      && (p != env.baseDir && env.baseDir != "/" && '\\' !in p ==> env.baseDir + "/" + rel == p)
  {
    var p := env.resolve(row.fullPath.value.raw.text);
    var rel := RelativeTo(p, env.baseDir).value;
    if p != env.baseDir && '\\' !in p {
      assert Under(env.baseDir) + rel == p;
      assert '\\' !in rel;
    }
  }

  /** The gallery loop: appends the image of each row that has one. */
  method CollectGallery(env: WebEnv, rows: seq<DbRow>) returns (r: Result<seq<GalleryImage>, GalleryError>)
    ensures r == GalleryImages(env, rows)
  {
    var images: seq<GalleryImage> := [];
    for i := 0 to |rows|
      invariant GalleryImages(env, rows[..i]) == Ok(images)
    {
      assert rows[..i + 1][..i] == rows[..i] && rows[..i + 1][i] == rows[i];
      var image := ImageOf(env, rows[i]);
      if image.Err? {
        GalleryImagesConcat(env, rows[..i + 1], rows[i + 1..]);
        assert rows[..i + 1] + rows[i + 1..] == rows;
        return Err(image.error);
      }
      if image.value.Some? {
        images := images + [image.value.value];
      }
    }
    assert rows[..|rows|] == rows;
    return Ok(images);
  }

  /** What the database answers to the gallery's two queries; the SQL
      engine is outside the model. */
  datatype Store = Store(
    allImages: nat -> seq<DbRow>,   // `get_all_images(limit)`
    run: Query -> seq<DbRow>)       // the rows of a `search` statement

  /** `gallery`: plans the query, fetches the rows and lists their images.
      The statement sent for a filtered view is the one `search` builds, and
      it always exists, since some filter is set. */
  method Gallery(env: WebEnv, store: Store, qArg: Option<string>, dateArg: Option<string>, gArg: Option<string>)
    returns (query: Option<Query>, r: Result<seq<GalleryImage>, GalleryError>)
    ensures GalleryPlan(qArg, dateArg, gArg).Err? ==> query.None? && r == Err(BadDate)
    ensures GalleryPlan(qArg, dateArg, gArg).Ok? && GalleryPlan(qArg, dateArg, gArg).value.Browse? ==>
      query.None? && r == GalleryImages(env, store.allImages(500))
    ensures GalleryPlan(qArg, dateArg, gArg).Ok? && GalleryPlan(qArg, dateArg, gArg).value.Filtered? ==>
      var f := GalleryPlan(qArg, dateArg, gArg).value;
      && query.Some?
      && WellFormed(query.value, f.exifDate, f.imageFilename, f.tagFile)
      && r == GalleryImages(env, store.run(query.value))
  {
    var plan := GalleryPlan(qArg, dateArg, gArg);
    if plan.Err? {
      return None, Err(plan.error);
    }
    var rows: seq<DbRow>;
    if plan.value.Browse? {
      query := None;
      rows := store.allImages(plan.value.limit);
    } else {
      query := SearchQuery(plan.value.exifDate, plan.value.imageFilename, plan.value.tagFile);
      rows := store.run(query.value);
    }
    r := CollectGallery(env, rows);
  }

  // ---------------------------------------------------------------------
  // Tag updates
  // ---------------------------------------------------------------------

  /** What `update_tag` and `delete_tags` report: the new tags and the update's
      row count (or the text of its error), or a failure. */
  datatype Outcome = Success(tags: string, rowsUpdated: Result<nat, DbError>) | Failed

  /** The stored keywords as the tag manager reads them, `initial_tags or
      ""`: a falsy value reads as no text; a value that is neither text nor
      falsy makes `split` raise (None). */
  function StoredTags(v: Option<Value>): (r: Option<string>)
    ensures Falsy(v) ==> r == Some("")
    ensures r.None? <==> !Falsy(v) && !(v.value.Cell? && v.value.raw.Text?)
    ensures v == Some(Cell(Text(r.GetOr("")))) <== v.Some? && v.value.Cell? && v.value.raw.Text?
  {
    if Falsy(v) then Some("")
    else if v.value.Cell? && v.value.raw.Text? then Some(v.value.raw.text)
    else None
  }

  /** The tags `update_tag` writes for the stored ones and the raw input. */
  function MergedTags(stored: string, tagValue: string): string {
    Join(AppendNew(Tokens(stored), Clean(Split(tagValue, ','))), ',')
  }

  /** The tables after `update_tag` at a path: unchanged when the table is
      missing or its stored tags are not text, else the merged tags written
      to the rows at the path. */
  function TablesAfterUpdate(tables: map<string, seq<DbRow>>, table: string, filePath: string, tagValue: string)
    : map<string, seq<DbRow>>
  {
    if table !in tables then tables
    else
      var stored := StoredTags(TagsAt(tables[table], filePath));
      if stored.None? then tables
      else tables[table := SetKeywords(tables[table], filePath, MergedTags(stored.value, tagValue))]
  }

  /** The tables after `delete_tags` at a path: unchanged when the table is
      missing, the stored tags are not text or the removal raises, else the
      remaining tags written to the rows at the path. */
  function TablesAfterDelete(tables: map<string, seq<DbRow>>, table: string, filePath: string, tagValue: string)
    : map<string, seq<DbRow>>
  {
    if table !in tables then tables
    else
      var stored := StoredTags(TagsAt(tables[table], filePath));
      if stored.None? then tables
      else
        var result := DeleteResult(stored, Split(tagValue, ','));
        if result.Err? then tables
        else tables[table := SetKeywords(tables[table], filePath, result.value)]
  }

  /** `update_tag`: merges the input into the stored tags and writes them
      back to the rows at the path. */
  method UpdateTag(db: ImageDb, filePath: string, tagValue: string) returns (outcome: Outcome)
    modifies db
    ensures db.table !in old(db.tables) ==> outcome == Failed && db.tables == old(db.tables)
    ensures db.table in old(db.tables) && StoredTags(TagsAt(old(db.tables)[db.table], filePath)).None? ==>
      outcome == Failed && db.tables == old(db.tables)
    ensures db.table in old(db.tables) && StoredTags(TagsAt(old(db.tables)[db.table], filePath)).Some? ==>
      var rows := old(db.tables)[db.table];
      var merged := MergedTags(StoredTags(TagsAt(rows, filePath)).value, tagValue);
      && outcome == Success(merged, Ok(Changed(rows, SetKeywords(rows, filePath, merged))))
      && db.tables == old(db.tables)[db.table := SetKeywords(rows, filePath, merged)]
    ensures db.tables == TablesAfterUpdate(old(db.tables), db.table, filePath, tagValue)
  {
    var tags := Split(tagValue, ',');
    var existing := db.GetTags(filePath);
    if existing.Err? {
      return Failed;
    }
    var stored := StoredTags(existing.value);
    if stored.None? {
      return Failed;
    }
    var newTags := MergeTags(stored, tags);
    var rc := db.UpdateTagInfo(filePath, newTags);
    return Success(newTags, rc);
  }

  /** Merging the same input into the merged tags gives them back. */
  lemma MergedTagsIdempotent(stored: string, tagValue: string)
    ensures MergedTags(MergedTags(stored, tagValue), tagValue) == MergedTags(stored, tagValue)
  {
    MergeIdempotent(stored, Split(tagValue, ','));
  }

  /** Sending the same tags twice: the second update reads back the merged
      tags, merges them into the same string, and leaves the rows as the
      first left them, so it reports no changed row. */
  lemma UpdateTagTwice(rows: seq<DbRow>, filePath: string, tagValue: string)
    requires FirstAt(rows, filePath) >= 0
    requires StoredTags(TagsAt(rows, filePath)).Some?
    ensures var m := MergedTags(StoredTags(TagsAt(rows, filePath)).value, tagValue);
      var once := SetKeywords(rows, filePath, m);
      && StoredTags(TagsAt(once, filePath)) == Some(m)
      && MergedTags(m, tagValue) == m
      && SetKeywords(once, filePath, m) == once
      && Changed(once, SetKeywords(once, filePath, m)) == 0
  {
    var m := MergedTags(StoredTags(TagsAt(rows, filePath)).value, tagValue);
    SetKeywordsReadsBack(rows, filePath, m);
    MergedTagsIdempotent(StoredTags(TagsAt(rows, filePath)).value, tagValue);
    SetKeywordsTwice(rows, filePath, m);
  }

  /** `delete_tags`: removes the input's tags from the stored ones and writes
      the rest back; fails when nothing is stored or a tag is missing. */
  method DeleteTagsAt(db: ImageDb, filePath: string, tagValue: string) returns (outcome: Outcome)
    modifies db
    ensures db.table !in old(db.tables) ==> outcome == Failed && db.tables == old(db.tables)
    ensures db.table in old(db.tables) && StoredTags(TagsAt(old(db.tables)[db.table], filePath)).None? ==>
      outcome == Failed && db.tables == old(db.tables)
    ensures db.table in old(db.tables) && StoredTags(TagsAt(old(db.tables)[db.table], filePath)).Some? ==>
      var rows := old(db.tables)[db.table];
      var result := DeleteResult(StoredTags(TagsAt(rows, filePath)), Split(tagValue, ','));
      && (result.Err? ==> outcome == Failed && db.tables == old(db.tables))
      && (result.Ok? ==>
            && outcome == Success(result.value, Ok(Changed(rows, SetKeywords(rows, filePath, result.value))))
            && db.tables == old(db.tables)[db.table := SetKeywords(rows, filePath, result.value)])
    ensures db.tables == TablesAfterDelete(old(db.tables), db.table, filePath, tagValue)
  {
    var tags := Split(tagValue, ',');
    var existing := db.GetTags(filePath);
    if existing.Err? {
      return Failed;
    }
    var stored := StoredTags(existing.value);
    if stored.None? {
      return Failed;
    }
    var newTags := DeleteTags(stored, tags);
    if newTags.Err? {
      return Failed;
    }
    var rc := db.UpdateTagInfo(filePath, newTags.value);
    return Success(newTags.value, rc);
  }

  // ---------------------------------------------------------------------
  // The edit form
  // ---------------------------------------------------------------------

  /** The fields of the edit form. */
  datatype Form = Form(
    mode: Option<string>, r: Option<string>, file: Option<string>, edit: Option<string>,
    exifDatetime: Option<string>, exifMake: Option<string>, exifModel: Option<string>)

  /** What `edit_tags` decides to do with a form. */
  datatype Action =
    | InvalidPath                          // 403
    | DeleteTagsFrom(path: string, tagValue: string)
    | UpdateTagsOf(path: string, tagValue: string)
    | UpdateMetadataOf(path: string, exifDatetime: Option<string>, exifMake: Option<string>, exifModel: Option<string>)
    | InvalidMode                          // 400

  /** The dispatch of `edit_tags`: the path test first; then the tag mode
      deletes for `edit == "delete"` and merges otherwise; the metadata mode
      turns each empty field into None; any other mode is refused. */
  function EditPlan(env: WebEnv, form: Form): (a: Action)
    ensures var full := env.resolve(JoinPath(env.baseDir, Field(form.file, "")));
      && (a.InvalidPath? <==> !PrefixAllowed(full, env.baseDir))
      && (!a.InvalidPath? && !a.InvalidMode? ==> a.path == full)
    ensures !a.InvalidPath? ==>
      && (a.DeleteTagsFrom? <==> Field(form.mode, "tags") == "tags" && Field(form.edit, "") == "delete")
      && (a.UpdateTagsOf? <==> Field(form.mode, "tags") == "tags" && Field(form.edit, "") != "delete")
      && (a.UpdateMetadataOf? <==> Field(form.mode, "tags") == "meta")
      && (a.InvalidMode? <==> Field(form.mode, "tags") != "tags" && Field(form.mode, "tags") != "meta")
    ensures (a.DeleteTagsFrom? || a.UpdateTagsOf?) ==> a.tagValue == Field(form.r, "")
    ensures a.UpdateMetadataOf? ==>
      && (a.exifDatetime.None? <==> Field(form.exifDatetime, "") == "")
      && (a.exifMake.None? <==> Field(form.exifMake, "") == "")
      && (a.exifModel.None? <==> Field(form.exifModel, "") == "")
      && (a.exifDatetime.Some? ==> a.exifDatetime.value == Field(form.exifDatetime, ""))
      && (a.exifMake.Some? ==> a.exifMake.value == Field(form.exifMake, ""))
      && (a.exifModel.Some? ==> a.exifModel.value == Field(form.exifModel, ""))
  {
    var mode := Field(form.mode, "tags");
    var r := Field(form.r, "");
    var file := Field(form.file, "");
    var edit := Field(form.edit, "");
    var full := env.resolve(JoinPath(env.baseDir, file));
    if !PrefixAllowed(full, env.baseDir) then InvalidPath
    else if mode == "tags" then
      if edit == "delete" then DeleteTagsFrom(full, r) else UpdateTagsOf(full, r)
    else if mode == "meta" then
      UpdateMetadataOf(full, NonEmpty(Field(form.exifDatetime, "")), NonEmpty(Field(form.exifMake, "")),
        NonEmpty(Field(form.exifModel, "")))
    else InvalidMode
  }

  /** What `edit_tags` answers. */
  datatype Response =
    | RedirectToGallery
    | Refused(message: string, status: nat)
    | ServerError        // an exception the handler lets through

  /** `edit_tags`: carries out the planned action. Refused forms leave the
      database as it was. */
  method EditTags(db: ImageDb, env: WebEnv, form: Form) returns (resp: Response)
    modifies db
    ensures EditPlan(env, form).InvalidPath? ==> resp == Refused("Invalid path", 403) && db.tables == old(db.tables)
    ensures EditPlan(env, form).InvalidMode? ==> resp == Refused("Invalid mode", 400) && db.tables == old(db.tables)
    ensures EditPlan(env, form).DeleteTagsFrom? ==>
      resp == RedirectToGallery
      && db.tables == TablesAfterDelete(old(db.tables), db.table, EditPlan(env, form).path, EditPlan(env, form).tagValue)
    ensures EditPlan(env, form).UpdateTagsOf? ==>
      resp == RedirectToGallery
      && db.tables == TablesAfterUpdate(old(db.tables), db.table, EditPlan(env, form).path, EditPlan(env, form).tagValue)
    ensures EditPlan(env, form).UpdateMetadataOf? ==>
      var a := EditPlan(env, form);
      && (db.table in old(db.tables) ==>
            && resp == RedirectToGallery
            && db.tables == old(db.tables)[db.table := ApplyMetadata(old(db.tables)[db.table], Some(a.path),
                 DbDates.MetadataDate(a.exifDatetime), a.exifMake, a.exifModel)])
      && (db.table !in old(db.tables) ==> resp == ServerError && db.tables == old(db.tables))
  {
    var a := EditPlan(env, form);
    if a.InvalidPath? {
      return Refused("Invalid path", 403);
    } else if a.DeleteTagsFrom? {
      var _ := DeleteTagsAt(db, a.path, a.tagValue);
      return RedirectToGallery;
    } else if a.UpdateTagsOf? {
      var _ := UpdateTag(db, a.path, a.tagValue);
      return RedirectToGallery;
    } else if a.UpdateMetadataOf? {
      var rc := db.UpdateMetadataInfo(Some(a.path), a.exifDatetime, a.exifMake, a.exifModel);
      if rc.Err? {
        return ServerError;
      }
      return RedirectToGallery;
    } else {
      return Refused("Invalid mode", 400);
    }
  }
}
