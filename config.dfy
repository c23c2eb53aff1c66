/** `Config` (config.py): the YAML settings file, read once into nested maps,
    and the settings looked up in it by dotted keys with defaults.

    A `Config` is only assigned in its constructor, so it is a value here. The
    YAML parser is not modelled: the parsed document is given. */
module Configuration {
  import opened Maybe
  import opened Text

  /** A parsed YAML value. Only string keys are kept in maps, since a dotted key
      can only ever name a string key. */
  datatype Yaml =
    | YMap(entries: map<string, Yaml>)
    | YList(items: seq<Yaml>)
    | YStr(text: string)
    | YInt(number: int)
    | YBool(flag: bool)
    | YNull

  /** Python's truth value of a parsed YAML value. */
  predicate Truthy(v: Yaml) {
    match v
    case YMap(m) => |m| > 0
    case YList(items) => |items| > 0
    case YStr(s) => s != ""
    case YInt(n) => n != 0
    case YBool(b) => b
    case YNull => false
  }

  /** Following `keys` one map level at a time; `None` at the first key that is
      missing or is asked of a value that is not a map. */
  function Walk(v: Yaml, keys: seq<string>): Option<Yaml>
    decreases |keys|
  {
    if keys == [] then Some(v)
    else
      match v
      case YMap(m) => if keys[0] in m then Walk(m[keys[0]], keys[1..]) else None
      case _ => None
  }

  /** Walking a path in two parts walks the first part, then the second from
      where the first ended. */
  lemma {:induction false} WalkConcat(v: Yaml, first: seq<string>, second: seq<string>)
    ensures Walk(v, first + second) == if Walk(v, first).None? then None else Walk(Walk(v, first).value, second)
    decreases |first|
  {
    if first != [] {
      assert (first + second)[0] == first[0] && (first + second)[1..] == first[1..] + second;
      if v.YMap? && first[0] in v.entries {
        WalkConcat(v.entries[first[0]], first[1..], second);
      }
    } else {
      assert first + second == second;
    }
  }

  /** A path that reaches a value: each key names an entry of a map. */
  lemma WalkOneKey(m: map<string, Yaml>, k: string)
    ensures Walk(YMap(m), [k]) == if k in m then Some(m[k]) else None
  {
    if k in m {
      assert Walk(m[k], []) == Some(m[k]);
    }
  }

  /** `Config._get(dotted_key, default)`: split the key at dots and follow it
      through nested maps; the default at the first miss. */
  method Get(data: Yaml, dottedKey: string, default: Yaml) returns (value: Yaml)
    ensures Walk(data, Split(dottedKey, '.')).Some? ==> value == Walk(data, Split(dottedKey, '.')).value
    ensures Walk(data, Split(dottedKey, '.')).None? ==> value == default
  {
    var keys := Split(dottedKey, '.');
    value := data;
    assert keys[0..] == keys;
    for i := 0 to |keys|
      invariant Walk(value, keys[i..]) == Walk(data, keys)
    {
      assert keys[i..][0] == keys[i] && keys[i..][1..] == keys[i + 1..];
      if !value.YMap? || keys[i] !in value.entries {
        return default;
      }
      value := value.entries[keys[i]];
    }
    assert keys[|keys|..] == [];
  }

  /** The value `_get` gives for the dotted key whose pieces are `keys`. */
  function Lookup(data: Yaml, keys: seq<string>, default: Yaml): Yaml {
    match Walk(data, keys)
    case Some(v) => v
    case None => default
  }

  /** A two-level dotted key splits into its section and its name, so the
      settings read by `__init__` are `Lookup`s of those two keys. */
  lemma DottedKey(section: string, name: string)
    requires '.' !in section && '.' !in name
    ensures Split(section + "." + name, '.') == [section, name]
  {
    SplitJoin([section, name], '.');
    assert [section, name][1..] == [name];
    assert Join([section, name], '.') == section + "." + name;
  }

  /** Why building a `Config` fails. */
  datatype ConfigError =
    | FileNotFound       // the settings file does not exist
    | TypeError          // `set(...)` of a value that is not a collection of hashable values

  /** The settings file: absent, or present with the document `yaml.safe_load`
      reads from it (`YNull` for an empty file). */
  datatype ConfigFile = Missing | Present(document: Yaml)

  /** `Config._load_yaml`: the document, or `{}` when it is falsy. */
  function LoadYaml(file: ConfigFile): (r: Result<Yaml, ConfigError>)
    ensures file.Missing? <==> r == Err(FileNotFound)
    ensures file.Present? && !Truthy(file.document) ==> r == Ok(YMap(map[]))
    ensures file.Present? && Truthy(file.document) ==> r == Ok(file.document)
  {
    match file
    case Missing => Err(FileNotFound)
    case Present(doc) => Ok(if Truthy(doc) then doc else YMap(map[]))
  }

  /** Values Python can put in a set. */
  predicate Hashable(v: Yaml) {
    v.YStr? || v.YInt? || v.YBool? || v.YNull?
  }

  /** Python's `set(v)` of a parsed value: the items of a list, the keys of a
      map, the characters of a string; `TypeError` for anything else and for a
      list holding a list or a map. */
  function ToSet(v: Yaml): (r: Result<set<Yaml>, ConfigError>)
    ensures v.YList? ==> (r.Ok? <==> forall x :: x in v.items ==> Hashable(x))
    ensures v.YList? && r.Ok? ==> forall x :: x in r.value <==> x in v.items
    ensures v.YMap? ==> r.Ok? && forall x :: x in r.value <==> x.YStr? && x.text in v.entries
    ensures v.YStr? ==> r.Ok? && forall x :: x in r.value <==> x.YStr? && |x.text| == 1 && x.text[0] in v.text
    ensures v.YInt? || v.YBool? || v.YNull? ==> r == Err(TypeError)
  {
    match v
    case YList(items) =>
      if forall x :: x in items ==> Hashable(x) then Ok(set x | x in items) else Err(TypeError)
    case YMap(m) => Ok(set k | k in m :: YStr(k))
    case YStr(s) =>
      var chars := set c | c in s :: YStr([c]);
      assert forall x: Yaml :: x in chars <== x.YStr? && |x.text| == 1 && x.text[0] in s by {
        forall x: Yaml | x.YStr? && |x.text| == 1 && x.text[0] in s
          ensures x in chars
        {
          assert x == YStr([x.text[0]]);
        }
      }
      Ok(chars)
    case _ => Err(TypeError)
  }

  /** The settings a `Config` holds. `allowedExtensions` is `ALLOWED_EXTENSIONS`;
      the rest keep the value found under their key. */
  datatype Config = Config(
    data: Yaml,
    appName: Yaml,
    debug: Yaml,
    uploadFolder: Yaml,
    maxContentLength: Yaml,
    host: Yaml,
    port: Yaml,
    dbType: Yaml,
    dbPath: Yaml,
    allowedExtensions: set<Yaml>,
    metadataFile: Yaml)

  /** `Config.__init__`. */
  function NewConfig(file: ConfigFile): (r: Result<Config, ConfigError>)
    ensures file.Missing? ==> r == Err(FileNotFound)
    ensures file.Present? ==>
      (r.Ok? <==> ToSet(Lookup(LoadYaml(file).value, ["images", "allowed_extensions"], YList([]))).Ok?)
    ensures r.Ok? ==> LoadYaml(file) == Ok(r.value.data)
    ensures r.Ok? ==> Ok(r.value.allowedExtensions) == ToSet(Lookup(r.value.data, ["images", "allowed_extensions"], YList([])))
    ensures r.Ok? ==> r.value.uploadFolder == Lookup(r.value.data, ["app", "upload_folder"], YStr("uploads"))
    ensures r.Ok? ==> r.value.debug == Lookup(r.value.data, ["app", "debug"], YBool(false))
    ensures r.Ok? ==> r.value.host == Lookup(r.value.data, ["server", "host"], YStr("127.0.0.1"))
    ensures r.Ok? ==> r.value.port == Lookup(r.value.data, ["server", "port"], YInt(5000))
    ensures r.Ok? ==> r.value.metadataFile == Lookup(r.value.data, ["metadata", "file"], YStr("image_metadata.json"))
    ensures r.Ok? ==> && r.value.appName == Lookup(r.value.data, ["app", "name"], YNull)
                      && r.value.maxContentLength == Lookup(r.value.data, ["app", "max_content_length"], YNull)
                      && r.value.dbType == Lookup(r.value.data, ["database", "type"], YNull)
                      && r.value.dbPath == Lookup(r.value.data, ["database", "path"], YNull)
  {
    match LoadYaml(file)
    case Err(e) => Err(e)
    case Ok(data) =>
      match ToSet(Lookup(data, ["images", "allowed_extensions"], YList([])))
      case Err(e) => Err(e)
      case Ok(exts) =>
        Ok(Config(
          data,
          Lookup(data, ["app", "name"], YNull),
          Lookup(data, ["app", "debug"], YBool(false)),
          Lookup(data, ["app", "upload_folder"], YStr("uploads")),
          Lookup(data, ["app", "max_content_length"], YNull),
          Lookup(data, ["server", "host"], YStr("127.0.0.1")),
          Lookup(data, ["server", "port"], YInt(5000)),
          Lookup(data, ["database", "type"], YNull),
          Lookup(data, ["database", "path"], YNull),
          exts,
          Lookup(data, ["metadata", "file"], YStr("image_metadata.json"))))
  }

  /** A file without settings (empty, or any falsy document) gives every
      default: debug off, uploads in "uploads", 127.0.0.1:5000, no allowed
      extensions, metadata in "image_metadata.json". */
  lemma EmptyFileDefaults(doc: Yaml)
    requires !Truthy(doc)
    ensures NewConfig(Present(doc)) == Ok(Config(
      YMap(map[]), YNull, YBool(false), YStr("uploads"), YNull, YStr("127.0.0.1"), YInt(5000),
      YNull, YNull, {}, YStr("image_metadata.json")))
  {
    assert LoadYaml(Present(doc)) == Ok(YMap(map[]));
    var exts := ToSet(YList([]));
    assert exts.Ok?;
    assert forall x :: x in exts.value ==> x in [];
    assert exts.value == {};
  }

  /** A setting whose path is missing takes its default. */
  lemma MissingKeyDefault(data: Yaml, keys: seq<string>, default: Yaml)
    requires Walk(data, keys).None?
    ensures Lookup(data, keys, default) == default
  {
  }

  /** A document without a `server` section, whatever else it holds, gets
      the default host and port. */
  lemma MissingServerDefaults(entries: map<string, Yaml>)
    requires "server" !in entries
    requires NewConfig(Present(YMap(entries))).Ok?
    ensures var c := NewConfig(Present(YMap(entries))).value;
      c.host == YStr("127.0.0.1") && c.port == YInt(5000)
  {
    var c := NewConfig(Present(YMap(entries))).value;
    assert c.data == YMap(entries) || c.data == YMap(map[]);
    MissingKeyDefault(c.data, ["server", "host"], YStr("127.0.0.1"));
    MissingKeyDefault(c.data, ["server", "port"], YInt(5000));
  }

  /** A setting stored under its section and name is found, whatever the
      default. */
  lemma StoredKeyFound(section: string, name: string, v: Yaml, default: Yaml)
    ensures Lookup(YMap(map[section := YMap(map[name := v])]), [section, name], default) == v
  {
    var data := YMap(map[section := YMap(map[name := v])]);
    WalkConcat(data, [section], [name]);
    assert [section] + [name] == [section, name];
    WalkOneKey(map[section := YMap(map[name := v])], section);
    WalkOneKey(map[name := v], name);
  }
}
