/** `ExifDataFrameBuilder` (filereader.py): one table row per image the
    reader finds, holding its resolved path, its creation time and its EXIF
    tags, projected to seven fixed columns.

    Pillow, the EXIF tag-name table, UTF-16LE decoding, `str()` of a value,
    `Path.resolve`, the file's `st_ctime` and the folder listing are outside
    the model: they are the fields of an `Env` the operations receive. */
module ExifBuilder {
  import opened Maybe
  import opened Text
  import opened Configuration
  import opened Reader

  /** A raw EXIF value as Pillow hands it over, and a table cell. */
  datatype Raw =
    | Bytes(data: seq<bv8>)                 // `bytes` / `bytearray`
    | Items(items: seq<Raw>)                // `tuple` / `list`
    | Mapping(entries: seq<(Raw, Raw)>)     // `dict`
    | Text(text: string)
    | Number(n: int)
    | Rational(numerator: int, denominator: int)   // Pillow's `IFDRational`
    | Null                                  // a missing cell (`NaN`)

  /** What `DataFrame` and the database accept as they are. */
  predicate IsScalar(v: Raw) {
    !v.Bytes? && !v.Items? && !v.Mapping?
  }

  /** What an image file offers: nothing readable, or its EXIF items in the
      order `getexif().items()` yields them. */
  datatype ImageFile = Unreadable | Image(exif: seq<(int, Raw)>)

  /** The world outside the model. */
  datatype Env = Env(
    tagNames: map<int, string>,                   // `ExifTags.TAGS`
    decodeUtf16: seq<bv8> -> Option<string>,      // `decode("utf-16le", errors="replace")`; None if it raises
    repr: Raw -> string,                          // `str(value)`
    resolve: string -> string,                    // `str(Path(p).resolve())`
    createdIso: string -> string,                 // `_file_created_time_iso`
    open: string -> ImageFile,                    // `Image.open(p).getexif()`
    listing: string -> Folder)                    // the folder as `rglob("*")` sees it

  /** `_normalize_exif_value`: bytes become their decoded text (or their
      `str()` when decoding raises), sequences and dicts their `str()`,
      anything else stays as it is. */
  function NormalizeExifValue(env: Env, v: Raw): (r: Raw)
    ensures IsScalar(r)
    ensures v.Bytes? ==> r.Text? && (env.decodeUtf16(v.data).Some? ==> r.text == env.decodeUtf16(v.data).value)
    ensures v.Bytes? && env.decodeUtf16(v.data).None? ==> r == Text(env.repr(v))
    ensures v.Items? || v.Mapping? ==> r == Text(env.repr(v))
    ensures IsScalar(v) ==> r == v
  {
    if v.Bytes? then
      var decoded := env.decodeUtf16(v.data);
      if decoded.Some? then Text(decoded.value) else Text(env.repr(v))
    else if v.Items? || v.Mapping? then Text(env.repr(v))
    else v
  }

  /** Normalising a normalised value changes nothing. */
  lemma NormalizeIdempotent(env: Env, v: Raw)
    ensures NormalizeExifValue(env, NormalizeExifValue(env, v)) == NormalizeExifValue(env, v)
  {
  }

  const Prefix: string := "EXIF_"

  /** The column `_read_exif_dict` files a tag under: `EXIF_` and the tag's
      name, or its number when the table does not know it. */
  function ColumnName(env: Env, tagId: int): (r: string)
    ensures StartsWith(r, Prefix)
    ensures tagId in env.tagNames ==> r[|Prefix|..] == env.tagNames[tagId]
    ensures tagId !in env.tagNames ==> r[|Prefix|..] == IntToString(tagId)
  {
    Prefix + (if tagId in env.tagNames then env.tagNames[tagId] else IntToString(tagId))
  }

  /** The `out` dict after the loop of `_read_exif_dict` has seen `items`:
      each item stored, normalised, under its column, a later item
      overwriting an earlier one with the same column. */
  function ExifColumns(env: Env, items: seq<(int, Raw)>): map<string, Raw>
  {
    if items == [] then map[]
    else
      var last := items[|items| - 1];
      ExifColumns(env, items[..|items| - 1])[ColumnName(env, last.0) := NormalizeExifValue(env, last.1)]
  }

  /** What `_read_exif_dict` returns for a file: `{}` when it cannot be read
      or has no EXIF, else the columns of its items. */
  function ExifDict(env: Env, image: ImageFile): map<string, Raw>
  {
    if image.Unreadable? then map[] else ExifColumns(env, image.exif)
  }

  /** `_read_exif_dict`. */
  method ReadExifDict(env: Env, path: string) returns (out: map<string, Raw>)
    ensures out == ExifDict(env, env.open(path))
  {
    var image := env.open(path);
    if image.Unreadable? || image.exif == [] {
      return map[];
    }
    var items := image.exif;
    out := map[];
    for i := 0 to |items|
      invariant out == ExifColumns(env, items[..i])
    {
      assert items[..i + 1][..i] == items[..i];
      out := out[ColumnName(env, items[i].0) := NormalizeExifValue(env, items[i].1)];
    }
    assert items[..|items|] == items;
  }

  /** The columns are exactly those of the items. */
  lemma {:induction false} ExifColumnsKeys(env: Env, items: seq<(int, Raw)>, key: string)
    ensures key in ExifColumns(env, items) <==> exists i :: 0 <= i < |items| && ColumnName(env, items[i].0) == key
  {
    if items != [] {
      var init := items[..|items| - 1];
      var last := items[|items| - 1];
      assert ExifColumns(env, items) == ExifColumns(env, init)[ColumnName(env, last.0) := NormalizeExifValue(env, last.1)];
      ExifColumnsKeys(env, init, key);
      if key in ExifColumns(env, items) && key != ColumnName(env, last.0) {
        var i :| 0 <= i < |init| && ColumnName(env, init[i].0) == key;
        assert init[i] == items[i];
      }
      if exists i :: 0 <= i < |items| - 1 && ColumnName(env, items[i].0) == key {
        var i :| 0 <= i < |items| - 1 && ColumnName(env, items[i].0) == key;
        assert init[i] == items[i];
      }
    }
  }

  /** A column holds the normalised value of the last item filed under it. */
  lemma {:induction false} ExifColumnsLastWins(env: Env, items: seq<(int, Raw)>, i: nat)
    requires i < |items|
    requires forall j :: i < j < |items| ==> ColumnName(env, items[j].0) != ColumnName(env, items[i].0)
    ensures ColumnName(env, items[i].0) in ExifColumns(env, items)
    ensures ExifColumns(env, items)[ColumnName(env, items[i].0)] == NormalizeExifValue(env, items[i].1)
  {
    var init := items[..|items| - 1];
    var last := items[|items| - 1];
    var key := ColumnName(env, items[i].0);
    assert ExifColumns(env, items) == ExifColumns(env, init)[ColumnName(env, last.0) := NormalizeExifValue(env, last.1)];
    if i < |items| - 1 {
      assert ColumnName(env, last.0) != key;
      assert init[i] == items[i];
      assert forall j :: i < j < |init| ==> init[j] == items[j];
      ExifColumnsLastWins(env, init, i);
    }
  }

  /** Every column of an EXIF dict carries the `EXIF_` prefix and a
      scalar value. */
  lemma {:induction false} ExifColumnsShape(env: Env, items: seq<(int, Raw)>)
    ensures forall k :: k in ExifColumns(env, items) ==> StartsWith(k, Prefix) && IsScalar(ExifColumns(env, items)[k])
  {
    if items != [] {
      ExifColumnsShape(env, items[..|items| - 1]);
    }
  }

  /** A row before projection: column name to cell. */
  type Row = map<string, Raw>

  /** The row `build_dataframe` makes for a relative path: the resolved full
      path, its creation time, then the EXIF columns. */
  function RowFor(env: Env, base: string, rel: string): Row
  {
    var full := env.resolve(base + "/" + rel);
    map["full_path" := Text(full), "created_time" := Text(env.createdIso(full))]
      + ExifDict(env, env.open(full))
  }

  /** The rows for the reader's paths, one per path, in the same order. */
  function Rows(env: Env, base: string, rels: seq<string>): (rows: seq<Row>)
    ensures |rows| == |rels|
  {
    if rels == [] then [] else Rows(env, base, rels[..|rels| - 1]) + [RowFor(env, base, rels[|rels| - 1])]
  }

  /** The EXIF columns never displace the two columns set first. */
  lemma RowForKeepsPath(env: Env, base: string, rel: string)
    ensures var full := env.resolve(base + "/" + rel);
      RowFor(env, base, rel)["full_path"] == Text(full)
      && RowFor(env, base, rel)["created_time"] == Text(env.createdIso(full))
  {
    var full := env.resolve(base + "/" + rel);
    var image := env.open(full);
    if image.Image? {
      ExifColumnsShape(env, image.exif);
    }
    assert !StartsWith("full_path", Prefix) by { assert "full_path"[0] != Prefix[0]; }
    assert !StartsWith("created_time", Prefix) by { assert "created_time"[0] != Prefix[0]; }
  }

  lemma {:induction false} RowsAt(env: Env, base: string, rels: seq<string>, i: nat)
    requires i < |rels|
    ensures Rows(env, base, rels)[i] == RowFor(env, base, rels[i])
  {
    if i < |rels| - 1 {
      RowsAt(env, base, rels[..|rels| - 1], i);
    }
  }

  /** Whether some row has the column (pandas makes a column of every key
      of every row). */
  predicate InSomeRow(rows: seq<Row>, key: string) {
    exists i :: 0 <= i < |rows| && key in rows[i]
  }

  /** The EXIF columns of the final projection, in their order. */
  const RequiredExif: seq<string> := ["EXIF_Make", "EXIF_Model", "EXIF_DateTime", "EXIF_XPKeywords"]

  /** The keys among `keys` no row has, in order. */
  function Absent(keys: seq<string>, rows: seq<Row>): (r: seq<string>)
    ensures forall k :: k in r <==> k in keys && !InSomeRow(rows, k)
  {
    if keys == [] then []
    else (if InSomeRow(rows, keys[0]) then [] else [keys[0]]) + Absent(keys[1..], rows)
  }

  /** A row of the returned table: full_path, created_time, EXIF_Make,
      EXIF_Model, EXIF_DateTime, image_filename, EXIF_XPKeywords. */
  datatype Record = Record(
    fullPath: Raw, createdTime: Raw, make: Raw, model: Raw, dateTime: Raw,
    imageFilename: Raw, xpKeywords: Raw)

  function Cell(row: Row, key: string): Raw {
    if key in row then row[key] else Null
  }

  /** `Path(p).name` of the full path. */
  function FileNameOf(fullPath: Raw): Raw {
    if fullPath.Text? then Text(Name(fullPath.text)) else Null
  }

  function RecordOf(row: Row): Record {
    var full := Cell(row, "full_path");
    Record(full, Cell(row, "created_time"), Cell(row, "EXIF_Make"), Cell(row, "EXIF_Model"),
      Cell(row, "EXIF_DateTime"), FileNameOf(full), Cell(row, "EXIF_XPKeywords"))
  }

  datatype BuildError =
    | PathTypeError                      // the upload folder setting is not a string
    | ReadFailed(reason: ReaderError)    // `read_images` raised
    | MissingColumns(names: seq<string>) // `KeyError` on a column the table lacks

  /** The frame's construction and projection: with no rows there is no
      `full_path` column to read; otherwise every required EXIF column must
      occur in some row. */
  function Project(rows: seq<Row>): (r: Result<seq<Record>, BuildError>)
    ensures r.Ok? <==> rows != [] && forall k :: k in RequiredExif ==> InSomeRow(rows, k)
    ensures rows == [] ==> r == Err(MissingColumns(["full_path"]))
    ensures r.Ok? ==> |r.value| == |rows| && forall i :: 0 <= i < |rows| ==> r.value[i] == RecordOf(rows[i])
  {
    if rows == [] then Err(MissingColumns(["full_path"]))
    else
      var missing := Absent(RequiredExif, rows);
      if missing != [] then
        assert missing[0] in missing;
        Err(MissingColumns(missing))
      else Ok(seq(|rows|, i requires 0 <= i < |rows| => RecordOf(rows[i])))
  }

  /** `Path(folder_path) if folder_path else Path(config.UPLOAD_FOLDER)`, as
      text (`Path("")` is `.`). */
  function BaseFolder(folderPath: Option<string>, uploadFolder: Yaml): (r: Result<string, BuildError>)
    ensures folderPath.Some? && folderPath.value != "" ==> r == Ok(folderPath.value)
    ensures (folderPath.None? || folderPath.value == "") ==> (r.Ok? <==> uploadFolder.YStr?)
  {
    if folderPath.Some? && folderPath.value != "" then Ok(folderPath.value)
    else if uploadFolder.YStr? then Ok(if uploadFolder.text == "" then "." else uploadFolder.text)
    else Err(PathTypeError)
  }

  /** What `build_dataframe` returns for a reader with the given allowed
      extensions. */
  function Dataframe(env: Env, allowed: set<string>, uploadFolder: Yaml, folderPath: Option<string>): Result<seq<Record>, BuildError>
  {
    var base := BaseFolder(folderPath, uploadFolder);
    if base.Err? then Err(base.error)
    else
      var rels := Listing(allowed, env.listing(base.value));
      if rels.Err? then Err(ReadFailed(rels.error))
      else Project(Rows(env, base.value, rels.value))
  }

  /** `build_dataframe`. */
  method BuildDataframe(env: Env, allowed: set<string>, uploadFolder: Yaml, folderPath: Option<string>)
    returns (r: Result<seq<Record>, BuildError>)
    ensures r == Dataframe(env, allowed, uploadFolder, folderPath)
  {
    var base := BaseFolder(folderPath, uploadFolder);
    if base.Err? {
      return Err(base.error);
    }
    var baseFolder := base.value;
    var relFiles := ReadImages(allowed, env.listing(baseFolder));
    if relFiles.Err? {
      return Err(ReadFailed(relFiles.error));
    }
    var rows := CollectRows(env, baseFolder, relFiles.value);
    return Project(rows);
  }

  /** The loop of `build_dataframe`: one row per relative path, in order. */
  method CollectRows(env: Env, baseFolder: string, rels: seq<string>) returns (rows: seq<Row>)
    ensures rows == Rows(env, baseFolder, rels)
  {
    rows := [];
    for i := 0 to |rels|
      invariant rows == Rows(env, baseFolder, rels[..i])
    {
      assert rels[..i + 1][..i] == rels[..i];
      var row := BuildRow(env, baseFolder, rels[i]);
      rows := rows + [row];
    }
    assert rels[..|rels|] == rels;
  }

  /** The body of that loop for one path: the two fixed columns, then the
      EXIF columns. */
  method BuildRow(env: Env, baseFolder: string, rel: string) returns (row: Row)
    ensures row == RowFor(env, baseFolder, rel)
  {
    var fullPath := env.resolve(baseFolder + "/" + rel);
    row := map["full_path" := Text(fullPath), "created_time" := Text(env.createdIso(fullPath))];
    var exif := ReadExifDict(env, fullPath);
    row := row + exif;
  }

  /** A table comes out only for a non-empty listing, and then has one record
      per listed path. */
  lemma DataframeNonEmpty(env: Env, base: string, rels: seq<string>)
    requires Project(Rows(env, base, rels)).Ok?
    ensures rels != [] && |Project(Rows(env, base, rels)).value| == |rels|
  {
  }

  /** Record `i` of a table belongs to listed path `i`, in the reader's
      order: its full path is the resolved `base/rel` and its file name is
      that path's last component. */
  lemma DataframeRecords(env: Env, base: string, rels: seq<string>, i: nat)
    requires Project(Rows(env, base, rels)).Ok?
    requires i < |rels|
    ensures var full := env.resolve(base + "/" + rels[i]);
      var rec := Project(Rows(env, base, rels)).value[i];
      rec.fullPath == Text(full) && rec.createdTime == Text(env.createdIso(full))
      && rec.imageFilename == Text(Name(full))
  {
    RowsAt(env, base, rels, i);
    RowForKeepsPath(env, base, rels[i]);
  }
}
