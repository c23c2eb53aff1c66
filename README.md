# Image catalog core in Dafny

This project models the core of a small image catalog. The catalog walks an
upload folder and keeps the images whose extension is allowed. It reads each
image's EXIF tags and builds a fixed seven-column table of records. It
inserts into a MySQL table `image_info` the records whose path the table does
not hold yet. A web front end browses and searches the catalog, and merges,
removes or replaces an image's keyword tags and its date, make and model.

Modules follow the source files:

- `Configuration` covers `config.py`: YAML loading and dotted-key lookup.
- `Reader` covers `reader.py`: the folder walk and the extension filter.
- `ExifBuilder` covers `filereader.py`: EXIF normalisation, the EXIF columns and the table of records.
- `Database` covers `database.py`. Its class `ImageDb` holds the tables the service reads and updates.
- `DbSearch` covers the SQL text built by `search`.
- `DbDates` covers the date parsing of `update_metadata_info`.
- `TagLists`, `TagManager` and `MetadataEdit` cover `tagmanager.py`:
  - `TagLists` is the list level: tokens, append-if-new, remove-first.
  - `TagManager` is `merge_tags` and `delete_tags`.
  - `MetadataEdit` is `parse_replacements` and `is_datetime_string`.
- `Web` covers the routes and helpers of `web.py`.
- `CatalogSync` covers `edit_database`, the synchronisation of the folder with the table.

Three support modules serve them all:

- `Maybe` holds `Option` and `Result`.
- `Text` holds Python's `strip`, `split`, `join` and `lower`, plus the integer and digit helpers.
- `Dates` models `strptime` for `%Y-%m-%d` and `%Y-%m-%d %H:%M:%S`, with the matching formatting.

Python exceptions become `Err` values or `Failed`/`ServerError` outcomes.
Python truthiness is written out wherever the code branches on it:

- `x or ""` is modelled.
- `if not full_path` is the predicate `Web.Falsy`.
- `if initial_tags` is modelled.

Everything outside the program is a parameter of the operation that uses it:

- `Path.resolve`;
- the EXIF tag-name table;
- UTF-16LE decoding and `str()` of a value;
- the file's `st_ctime`;
- opening an image;
- the folder listing;
- the query results of the SQL engine.

Two behaviours of the code are modelled as written, though a reader might expect otherwise:

- `delete_tags` with an empty or missing stored value reads an unbound variable. `TagManager.DeleteResult` makes that an error, and the `delete_tags` handler of the web layer (`Web.DeleteTagsAt`) reports it as `FAILED`. It does not return `""`.
- `edit_database` does not add the paths it inserts to its set of stored paths. A path listed twice is therefore inserted twice (`CatalogSync.Pending`).

## Model

| member | source | states |
|---|---|---|
| Configuration.LoadYaml | config.py:37-43 | a missing file is `FileNotFoundError`; an empty or null document is the empty mapping; otherwise the document itself |
| Configuration.Get | config.py:44-54 | the loop over the dotted key returns the value the keys lead to, or the default as soon as a step is not a mapping or lacks the key |
| Configuration.WalkConcat | config.py:49-52 | walking `a + b` is walking `a` and then walking `b` from where `a` stopped |
| Configuration.WalkOneKey | config.py:50-52 | one step of the walk: a mapping holding the key gives its value, anything else gives nothing |
| Configuration.DottedKey | config.py:46 | a two-level key whose parts have no dot splits into its section and its name |
| Configuration.ToSet | config.py:27-29 | `set(...)` of the configured extensions: a list gives the set of its hashable items, a string the set of its characters, a mapping the set of its keys; other values raise |
| Configuration.NewConfig | config.py:8-32 | a missing file fails. Otherwise the construction succeeds exactly when `set()` of `images.allowed_extensions` does. Every setting is the value found under its dotted key, or its default: debug `false`, upload folder `uploads`, host `127.0.0.1`, port 5000, metadata file `image_metadata.json`, and `null` for the name, maximum content length, database type and database path |
| Configuration.MissingServerDefaults | config.py:19-20 | a document with no `server` section gets host `127.0.0.1` and port 5000 |
| Configuration.EmptyFileDefaults | config.py:13-32 | an empty configuration file yields exactly the defaults: folder `uploads`, host `127.0.0.1`, port 5000, metadata `image_metadata.json`, no extensions |
| Configuration.MissingKeyDefault | config.py:50-51 | a key path the walk cannot follow yields the default |
| Configuration.StoredKeyFound | config.py:46-54 | a value stored under `a` and then `b` is what `a.b` returns |
| Reader.NormalExtension | reader.py:13 | the lower-cased extension with only dots removed from its front: no leading dot and no capital letter remain |
| Reader.AllowedExtensions | reader.py:12-15 | the set is defined exactly when every configured extension is a string, and then holds exactly their normal forms |
| Reader.Name | reader.py:44 | the last path component, with no `/` in it |
| Reader.Suffix | reader.py:44 | `Path.suffix`: a tail of the name that is empty, or a dot followed by at least one character and no further dot |
| Reader.Sort | reader.py:38 | `sorted` yields a sorted permutation of its input |
| Reader.Insert | reader.py:38 | inserting into a sorted list keeps it sorted and adds exactly one occurrence |
| Reader.LexLeTotal | reader.py:38 | the string order `sorted` uses is total |
| Reader.MatchingMembers | reader.py:34-36 | a path is collected exactly when some entry is a regular file at that path with an allowed extension |
| Reader.MatchingOnce | reader.py:34-36 | a listing without repeated paths is collected without repeats |
| Reader.CollectImages | reader.py:32-36 | the loop collects the matching files in listing order |
| Reader.Listing | reader.py:24-38 | a missing folder is `FileNotFoundError`; a non-directory is `NotADirectoryError`; otherwise the result is sorted and a permutation of the matching files |
| Reader.ReadImages | reader.py:17-38 | the method computes `Listing` |
| ExifBuilder.NormalizeExifValue | filereader.py:104-123 | the result is always a scalar. Bytes become their UTF-16LE text, or their `str()` when decoding raises. Tuples, lists and dicts become their `str()`. Scalars are unchanged |
| ExifBuilder.NormalizeIdempotent | filereader.py:104-123 | normalising twice equals normalising once |
| ExifBuilder.ColumnName | filereader.py:92-93 | the column is `EXIF_` followed by the tag's name, or by its number when the table does not know it |
| ExifBuilder.ReadExifDict | filereader.py:78-102 | an unreadable file or one without EXIF gives `{}`; otherwise every item is stored normalised under its column |
| ExifBuilder.ExifColumnsKeys | filereader.py:90-95 | the dict's keys are exactly the columns of the items |
| ExifBuilder.ExifColumnsLastWins | filereader.py:91-95 | a column holds the normalised value of the last item filed under it |
| ExifBuilder.ExifColumnsShape | filereader.py:93-95 | every key starts with `EXIF_` and every value is a scalar |
| ExifBuilder.RowForKeepsPath | filereader.py:40-47 | the EXIF columns never overwrite `full_path` or `created_time` |
| ExifBuilder.Rows | filereader.py:39-49 | one row per listed path |
| ExifBuilder.RowsAt | filereader.py:39-49 | row `i` belongs to path `i` |
| ExifBuilder.Absent | filereader.py:62 | exactly the required columns that no row has |
| ExifBuilder.Project | filereader.py:51-62 | no rows is a `KeyError` on `full_path`. A missing required column is a `KeyError`. Otherwise there is one record per row, in order, with `image_filename` the last component of the path |
| ExifBuilder.BaseFolder | filereader.py:34 | a non-empty argument is the base folder; otherwise the configured upload folder, which must be a string |
| ExifBuilder.CollectRows | filereader.py:39-49 | the loop over the listed paths yields `Rows`: one row per path, in listing order |
| ExifBuilder.BuildRow | filereader.py:40-47 | one path's row is `RowFor`: the path columns, then the EXIF columns |
| ExifBuilder.BuildDataframe | filereader.py:23-64 | the loop computes `Dataframe`: base folder, listing, rows, projection, with each step's error |
| ExifBuilder.DataframeNonEmpty | filereader.py:39-62 | a table exists only for a non-empty listing, and has one record per listed path |
| ExifBuilder.DataframeRecords | filereader.py:39-55 | record `i` has the resolved path of listed file `i`, its creation time and its file name |
| DbSearch.SearchQuery | database.py:113-146 | no query exactly when no criterion is given. Otherwise the SQL has a date, filename or keyword clause exactly when that criterion is given, and the parameters match the placeholders |
| DbSearch.AddClause | database.py:136-146 | appending a clause after those before it, with its matching parameter, keeps the query well formed |
| DbSearch.SqlTextPlaceholders | database.py:133-146 | the SQL text has one `%s` per clause and does not end in `%` |
| DbSearch.QueryPlaceholders | database.py:133-146 | the number of `%s` in the SQL equals the number of parameters |
| DbSearch.PlaceholdersConcat | database.py:137-145 | when the first text does not end in `%`, the placeholders of a concatenation add up |
| DbDates.ParseMetadataDate | database.py:234-242 | the loop yields the first format that parses the stripped input, or nothing for an empty input or a failed parse |
| DbDates.MetadataDateCases | database.py:234-242 | the result is the date-time parse when that succeeds, else the date parse, else nothing |
| DbDates.FirstParseStep | database.py:237-242 | a failed format falls through to the next |
| DbDates.FormattedIsStripped | database.py:236 | a formatted date has no surrounding blanks |
| DbDates.MetadataDateTimeRoundTrip | database.py:237-240 | a formatted date-time parses back to itself |
| DbDates.MetadataDateRoundTrip | database.py:237-240 | a formatted date parses back to itself at midnight |
| Dates.ParseDate | tagmanager.py:23 | a parsed date is a valid calendar date at midnight |
| Dates.ParseDateTime | database.py:237-239 | a parsed date-time is a valid calendar date and clock time |
| Dates.FormatsExclusive | database.py:237 | no text parses under both formats |
| Dates.DateRejectsTimeSuffix | tagmanager.py:23 | a date followed by a time is not a `%Y-%m-%d` date |
| Dates.DateRoundTrip | tagmanager.py:23 | formatting and then parsing a date gives it back |
| Dates.DateTimeRoundTrip | database.py:237 | formatting and then parsing a date-time gives it back |
| Database.NullToNone | database.py:57 | a missing cell becomes SQL NULL; any other cell is kept |
| Database.InsertTuplesAt | database.py:57-68 | tuple `i` is the row of record `i` |
| Database.InsertTuplesSnoc | database.py:59-68 | one more record adds its row at the end |
| Database.InsertedColumns | database.py:53-68 | each cell of the inserted row is NULL exactly when the record's value is missing; the path and keyword cells hold the record's values |
| Database.FirstAt | database.py:190-196 | the first row whose path equals the argument, or -1 when there is none |
| Database.TagsAt | database.py:195-197 | the keywords of the first matching row, or none |
| Database.SetKeywords | database.py:210-213 | only the rows at the path get the new keywords; everything else is unchanged |
| Database.CountAt | database.py:210-213 | the rows an update by path matches: zero exactly when no row has the path, and never more than the table has |
| Database.Changed | database.py:215 | `rowcount` as mysql.connector reports it, the rows the update changed: never more than the table has, and zero exactly when the table is left as it was |
| Database.SetKeywordsChanged | database.py:210-216 | the keyword update changes no more rows than it matches, and none when every row at the path already holds the tags |
| Database.SetKeywordsReadsBack | database.py:190-213 | with a row at the path, `get_tags` reads the new tags back after the update; with none, the update changes nothing |
| Database.SetKeywordsTwice | database.py:210-213 | the update is idempotent |
| Database.FirstAtSame | database.py:190-196 | rows with the same paths have the same first match |
| Database.FirstAtAppend | database.py:190-196 | a row appended at a path no row had becomes that path's first match |
| Database.InsertedRowReadsBack | database.py:53-68 | a record appended for a path no row had reads back its keywords, or none when they are missing |
| Database.Coalesce | database.py:229-231 | `COALESCE(new, old)`: the new value when given, else the old one |
| Database.ApplyMetadata | database.py:227-244 | the rows at the path get each given value and keep the others; no other row changes |
| Database.ApplyMetadataIdempotent | database.py:227-244 | applying the same update twice equals applying it once |
| Database.ApplyMetadataChanged | database.py:227-246 | the metadata update changes no more rows than it matches, and none for a `NULL` path |
| Database.UnparsedDateKeepsDates | database.py:234-244 | an unparsable date leaves every row's date unchanged |
| Database.ImageDb.constructor | database.py:9-18 | the service uses the configured table |
| Database.ImageDb.InsertDataframe | database.py:33-75 | an empty table inserts nothing and returns 0. A missing `image_info` raises. Otherwise one row per record is appended in order, and the count is returned |
| Database.ImageDb.NewInsertDataframe | database.py:77-109 | the same effect as `insert_dataframe` |
| Database.ImageDb.GetTags | database.py:185-199 | a missing table raises. A path with no row gives none. Otherwise the keywords of the first matching row |
| Database.ImageDb.GetFullPath | database.py:155-168 | a missing table is an error; otherwise every stored path, in table order |
| Database.ImageDb.UpdateTagInfo | database.py:201-221 | a missing table is an error and changes nothing. Otherwise the rows at the path get the tags, and the number of rows that changed is returned |
| Database.ImageDb.UpdateMetadataInfo | database.py:223-248 | the date is parsed as `update_metadata_info` does, then applied with COALESCE to the rows at the path; returns the number of rows that changed (zero for a `NULL` path), or raises for a missing table |
| TagLists.Clean | tagmanager.py:12 | no more entries than the input, each stripped and non-empty |
| TagLists.TokensJoin | tagmanager.py:11-19 | splitting the comma-join of clean comma-free tags gives them back |
| TagLists.AppendNew | tagmanager.py:14-17 | the stored tags stay as a prefix |
| TagLists.AppendNewMembers | tagmanager.py:14-17 | a tag is in the result exactly when it was stored or incoming |
| TagLists.AppendNewAddsOnlyNew | tagmanager.py:15-17 | no added tag occurs earlier in the result |
| TagLists.AppendNewKeepsOrder | tagmanager.py:15-17 | the result's added part is a subsequence of the incoming tags |
| TagLists.AppendNewPresent | tagmanager.py:15-17 | merging tags already present changes nothing |
| TagLists.AppendNewDistinct | tagmanager.py:14-17 | distinct stored tags stay distinct after the merge |
| TagLists.MergedAreTags | tagmanager.py:11-17 | every merged tag is stripped, non-empty and comma-free |
| TagLists.RemoveFirst | tagmanager.py:55 | `list.remove`: one occurrence fewer, as multisets, and the rest in their order |
| TagLists.Position | tagmanager.py:55 | the index `list.remove` searches for: an occurrence with none before it |
| TagLists.RemoveFirstAt | tagmanager.py:55 | `list.remove` cuts out exactly the leftmost occurrence |
| TagLists.DropFirstsRemoveFirst | tagmanager.py:53-57 | removing the first `x` and then the first occurrences of a multiset is removing the first occurrences of that multiset plus `x` |
| TagLists.RemoveEachDropsFirsts | tagmanager.py:53-57 | a successful loop equals `DropFirsts`: one pass that drops the first occurrences of the found tags and keeps later duplicates |
| TagLists.RemoveEachSucceeds | tagmanager.py:53-57 | the removals succeed exactly when the incoming tags found in the base occur no more often than in the base |
| TagLists.RemoveEachKept | tagmanager.py:53-57 | the result is the base minus the removed tags, as multisets, and a subsequence of the base |
| TagLists.RemoveEachIgnoresAbsent | tagmanager.py:54-57 | incoming tags not in the base are ignored |
| TagLists.RemoveEachReadsBack | tagmanager.py:50-58 | the joined result tokenises back to the remaining tags |
| TagManager.AppendMissing | tagmanager.py:14-17 | the loop appends each incoming tag not yet in the list |
| TagManager.MergeTags | tagmanager.py:10-19 | the stored tokens followed by the incoming tags that are new, comma-joined |
| TagManager.MergeEmitsTags | tagmanager.py:10-19 | the merged string splits into clean tags |
| TagManager.MergeReadsBack | tagmanager.py:11-19 | re-reading the merged string gives the merged list |
| TagManager.MergeIdempotent | tagmanager.py:10-19 | merging the same comma-free tags into the result again changes nothing |
| TagManager.MergeIntoNothing | tagmanager.py:11-19 | merging into `None` or `""` gives the distinct clean incoming tags, as a subsequence of them |
| TagManager.DeleteTags | tagmanager.py:48-58 | the method computes `DeleteResult`: an empty or missing base is an error; otherwise each incoming tag found in the base is removed once |
| TagManager.DeleteSucceeds | tagmanager.py:53-57 | for stored tags, deletion succeeds exactly when no tag is asked to be removed more often than it occurs |
| TagManager.DeleteKeeps | tagmanager.py:52-58 | the result is the base tokens minus the removed ones, in base order; exactly the first occurrences are removed (`DropFirsts`) |
| TagManager.DeleteFirstDuplicate | tagmanager.py:48-58 | deleting `a` from `a,b,a` gives `b,a`: the first `a` goes and the second stays |
| MetadataEdit.Slot | tagmanager.py:32-40 | each slot is a stripped comma-free part, or empty past the parts |
| MetadataEdit.ThreeSlots | tagmanager.py:32-40 | the loop pads the stripped comma pieces to three and drops extras: the three slots are the first three stripped pieces, each empty when missing |
| MetadataEdit.ParseReplacements | tagmanager.py:31-46 | the loop computes `Replacements`: date, make and model, each none when empty, and the date none when it is not a date |
| MetadataEdit.ReplacementsRoundTrip | tagmanager.py:31-46 | the text `date,make,model` of a date and clean values parses back to them |
| MetadataEdit.DateSlotWithTime | tagmanager.py:42 | a date with a time is not accepted as the date |
| MetadataEdit.ReplacementsIgnoreExtras | tagmanager.py:37-38 | parts after the third are ignored |
| Web.Field | web.py:30-32 | `(arg or default).strip()`: stripped, from the argument when it is non-empty |
| Web.JoinPath | web.py:23 | `/` with an absolute part is that part; an empty part leaves the base |
| Web.InsideAllowed | web.py:24 | a path inside the folder passes the prefix test |
| Web.SiblingAllowed | web.py:24 | the prefix test also passes a sibling folder whose name extends the upload folder's; for the root folder `/` such a path is inside it |
| Web.Uploads | web.py:20-26 | forbidden exactly when the resolved target does not start with the folder; otherwise the file is served from the folder |
| Web.GalleryPlan | web.py:30-46 | a bad date is an error. Browsing happens exactly when all three fields are empty, and with limit 500. Otherwise the filters are the parsed date and the non-empty name and tag |
| Web.Classify | web.py:50-51 | no path exactly when the cell is falsy |
| Web.RelativeTo | web.py:56-59 | defined exactly for paths inside the folder; `.` for the folder itself; base + `/` + result is the path, and `/` + result for the root folder |
| Web.RootRelative | web.py:56-59 | with the root `/` as the upload folder, every other absolute path is inside it and its relative path drops the leading `/` |
| Web.GalleryImages | web.py:48-68 | at most one image per row |
| Web.GalleryImagesConcat | web.py:48-68 | the images of two row lists are the images of each, concatenated |
| Web.ImageUnderBase | web.py:50-63 | every image's path is inside the folder; its relative path has no backslash and, appended to the folder and a separator (to `/` alone for the root folder), gives the path back |
| Web.CollectGallery | web.py:48-68 | the loop computes `GalleryImages` |
| Web.Gallery | web.py:28-70 | a bad date is an error. Empty fields list the 500 stored images. Otherwise a well-formed query for the filters is run and its rows become images |
| Web.StoredTags | web.py:80-83 | a falsy value counts as `""`; text is kept; other values make `merge_tags` raise |
| Web.UpdateTag | web.py:77-96 | a missing table or non-text tags fail and change nothing. Otherwise the merged tags are written to the rows at the path and reported with the changed-row count; in every case the tables become `TablesAfterUpdate` |
| Web.MergedTagsIdempotent | web.py:78-83 | merging the same input twice equals merging it once |
| Web.UpdateTagTwice | web.py:77-96 | after one update the stored tags read back as the merge; a second identical update computes the same string, leaves the rows as they are and reports no changed row |
| Web.DeleteTagsAt | web.py:98-117 | as `UpdateTag`, with `delete_tags`; a raising deletion changes nothing; in every case the tables become `TablesAfterDelete` |
| Web.EditPlan | web.py:139-175 | refused exactly when the resolved path fails the prefix test. Mode `tags` deletes exactly when `edit` is `delete` and merges otherwise. Mode `meta` turns each empty field into none. Any other mode is refused |
| Web.EditTags | web.py:138-175 | a bad path gives 403 and a bad mode 400, both without change. Tag edits redirect and leave the tables as `TablesAfterUpdate` or `TablesAfterDelete` state: the merged or remaining tags at the path, or no change when the table is missing, the tags are not text or the deletion raises. Metadata edits apply COALESCE to the rows at the path |
| CatalogSync.KeysOf | web.py:123-126 | the key set exists exactly when every stored path is text, and it holds each path's resolved lower-cased form |
| CatalogSync.KeysOfMembers | web.py:123-126 | every key comes from some stored path |
| CatalogSync.StoredKeys | web.py:121-126 | stored paths give their keys. The error message `get_full_path` returns gives the keys of its characters |
| CatalogSync.Pending | web.py:127-131 | at most one insert per record |
| CatalogSync.PendingMembers | web.py:127-131 | every inserted record is a scanned one whose key is not stored |
| CatalogSync.PendingHas | web.py:127-131 | a record reached by the loop whose key is not stored is inserted |
| CatalogSync.PendingStep | web.py:127-135 | one iteration of the loop |
| CatalogSync.PendingNone | web.py:127-131 | nothing is inserted when every candidate's key is already stored |
| CatalogSync.CaseVariantSkipped | web.py:124-128 | a file whose resolved path differs from a stored one only in letter case is not inserted |
| CatalogSync.PathsOf | web.py:121 | the stored paths, in table order |
| CatalogSync.KeysAfterInsert | web.py:127-131 | after the inserts, the stored keys include the old keys and those of the inserted records |
| CatalogSync.SecondRunAddsNothing | web.py:119-135 | running the synchronisation again over the same records inserts nothing |
| CatalogSync.InsertRecord | web.py:131 | one single-row insert succeeds exactly when `image_info` exists |
| CatalogSync.InsertPending | web.py:127-135 | `image_info` gains exactly the rows of the pending records, in order; a missing table fails at the first insert |
| CatalogSync.EditDatabase | web.py:119-135 | a failed build or a non-text stored path changes nothing. Otherwise the records whose key is not stored are appended to `image_info`. The result is their count, or the error for the first non-text scanned path, or, without an `image_info` table, the insert failure as soon as one record is pending |

## Left out

- The SQL engine is not modelled. The rows a search or `get_all_images` returns are parameters (`Web.Store`). The SQL text of `search` is modelled, but the order, limit and `LIKE` matching of the engine are not.
- MySQL's default collation compares strings without regard to case. The model matches paths by exact equality.
- Connection settings are not modelled: host, user, password, database name and `_connect`. `ImageDb`'s constructor takes the configured table name.
- Paths are POSIX paths. `Path.resolve`, the folder listing and `rglob`'s order, Pillow, the EXIF name table, UTF-16LE decoding, `str()` and `st_ctime` are functions given as parameters.
- `_file_created_time_iso` is the `createdIso` parameter of `ExifBuilder.Env`.
- `Text.Lower` folds only ASCII letters.
- `strptime` is modelled for ASCII digits only. Locale and Unicode digits are not modelled.
- Printing is not modelled: every `print` is taken to succeed. A `print` that raises is not captured. At filereader.py:96 it sits inside the `try` of `_read_exif_dict` and would turn the EXIF dict into `{}`; at database.py:208 `update_tag_info` would return its message. The read-back after an update only prints and is not modelled. The `home` route, the Flask request and response plumbing and `as_dict` are left out for the same reason.
- `Configuration.ToSet`: does not model equality between `True` and `1`, which the model's hashable values keep distinct. YAML keys are strings only.
- Stored keyword values that are not text make `merge_tags` raise. The model treats them as a failure, the same as any other exception in the handler.
- `CatalogSync.StoredKeys`: the error message `get_full_path` returns is a parameter (`errorText`). Its wording is not modelled.
- `TagManager.MergeIdempotent`: requires comma-free incoming tags. A tag such as `a,b` passed directly is split on re-reading. Inputs that come from the web layer are split on commas first, so `Web.MergedTagsIdempotent` holds for every input.
- `ExifBuilder.NormalizeIdempotent`: holds without a proof step, because normalisation returns scalars unchanged.
- `Database.Changed`: counts a row as changed when its modelled values differ. MySQL compares the values after converting them to the column types, so a cell stored as text and rewritten as the same timestamp counts as changed in the model only.
- `CatalogSync.InsertRecord` and `CatalogSync.InsertPending`: each insert is one call of `new_insert_dataframe` on a one-row table. A failure stops the loop, as the exception does.
