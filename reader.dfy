/** `FileReader` (reader.py): the scan of the upload folder for image files
    whose extension is allowed.

    The folder is given as the list of entries `rglob("*")` yields, each a
    path relative to the folder (as `str(file.relative_to(folder))` writes it,
    with `/` between components) and whether it is a regular file. */
module Reader {
  import opened Maybe
  import opened Text
  import opened Configuration

  /** Python's ordering of strings: code point by code point, a proper prefix
      first. */
  predicate LexLe(a: string, b: string)
    decreases |a|
  {
    a == [] || (b != [] && (a[0] < b[0] || (a[0] == b[0] && LexLe(a[1..], b[1..]))))
  }

  lemma {:induction false} LexLeTotal(a: string, b: string)
    ensures LexLe(a, b) || LexLe(b, a)
    decreases |a|
  {
    if a != [] && b != [] && a[0] == b[0] {
      LexLeTotal(a[1..], b[1..]);
    }
  }

  predicate Sorted(s: seq<string>) {
    forall i :: 0 <= i < |s| - 1 ==> LexLe(s[i], s[i + 1])
  }

  /** Puts `x` into a sorted list after the entries that order before it. */
  function Insert(x: string, s: seq<string>): (r: seq<string>)
    requires Sorted(s)
    ensures Sorted(r)
    ensures multiset(r) == multiset(s) + multiset{x}
    ensures |r| == |s| + 1 && (r[0] == x || (s != [] && r[0] == s[0]))
  {
    if s == [] then [x]
    else if LexLe(x, s[0]) then [x] + s
    else
      LexLeTotal(x, s[0]);
      var rest := Insert(x, s[1..]);
      assert s == [s[0]] + s[1..];
      [s[0]] + rest
  }

  /** Python's `sorted` on a list of strings: the same strings, in order. */
  function Sort(s: seq<string>): (r: seq<string>)
    ensures Sorted(r)
    ensures multiset(r) == multiset(s)
  {
    if s == [] then []
    else
      assert s == [s[0]] + s[1..];
      Insert(s[0], Sort(s[1..]))
  }

  /** Python's `s.rfind(c)`: the last index of `c`, or -1. */
  function LastIndexOf(s: string, c: char): (i: int)
    ensures -1 <= i < |s|
    ensures i >= 0 ==> s[i] == c
    ensures forall j :: i < j < |s| ==> s[j] != c
  {
    if s == [] then -1
    else if s[|s| - 1] == c then |s| - 1
    else LastIndexOf(s[..|s| - 1], c)
  }

  /** `PurePath.name` of a relative path: its last component. */
  function Name(rel: string): (r: string)
    ensures forall k :: 0 <= k < |r| ==> r[k] != '/'
  {
    rel[LastIndexOf(rel, '/') + 1..]
  }

  /** `PurePath.suffix` of a name: from its last dot, unless that dot is the
      first or the last character; `""` otherwise. */
  function Suffix(name: string): (r: string)
    ensures r == [] || (|r| >= 2 && r[0] == '.' && forall k :: 0 < k < |r| ==> r[k] != '.')
    ensures |r| <= |name| && r == name[|name| - |r|..]
  {
    var i := LastIndexOf(name, '.');
    if 0 < i < |name| - 1 then name[i..] else ""
  }

  /** The form an extension takes for comparison: lower case, without leading
      dots. */
  function NormalExtension(e: string): (r: string)
    ensures r == [] || r[0] != '.'
    ensures var l := Lower(e);
      |r| <= |l| && r == l[|l| - |r|..] && forall i :: 0 <= i < |l| - |r| ==> l[i] == '.'
    ensures forall k :: 0 <= k < |r| ==> !('A' <= r[k] <= 'Z')
  {
    LStripChar(Lower(e), '.')
  }

  /** Why reading fails. */
  datatype ReaderError =
    | FolderNotFound   // `FileNotFoundError`: the folder does not exist
    | NotADirectory    // `NotADirectoryError`: it exists but is not a folder
    | AttributeError   // a configured extension that is not a string has no `lower`

  /** The allowed extensions of `FileReader.__init__`, from `ALLOWED_EXTENSIONS`. */
  function AllowedExtensions(exts: set<Yaml>): (r: Result<set<string>, ReaderError>)
    ensures r.Ok? <==> forall v :: v in exts ==> v.YStr?
    ensures r.Ok? ==> forall x :: x in r.value <==> exists v :: v in exts && v.YStr? && x == NormalExtension(v.text)
  {
    if forall v :: v in exts ==> v.YStr? then
      Ok(set v | v in exts && v.YStr? :: NormalExtension(v.text))
    else Err(AttributeError)
  }

  /** `FileReader._is_allowed`. */
  predicate IsAllowed(allowed: set<string>, rel: string) {
    NormalExtension(Suffix(Name(rel))) in allowed
  }

  /** `_is_allowed` as the filter `read_images` applies. */
  function Allowed(allowed: set<string>): string -> bool {
    rel => IsAllowed(allowed, rel)
  }

  datatype Entry = Entry(rel: string, isFile: bool)

  datatype Folder = Missing | NotADirectoryPath | Directory(entries: seq<Entry>)

  /** The entries `read_images` keeps, in the order `rglob` yields them:
      the regular files whose path passes `keep`. */
  function Matching(keep: string -> bool, entries: seq<Entry>): (r: seq<string>)
    ensures |r| <= |entries|
  {
    if entries == [] then []
    else
      var rest := Matching(keep, entries[1..]);
      if entries[0].isFile && keep(entries[0].rel) then [entries[0].rel] + rest else rest
  }

  /** A path is kept exactly when some entry is a regular file at that path
      that passes `keep`. */
  lemma {:induction false} MatchingMembers(keep: string -> bool, entries: seq<Entry>, x: string)
    ensures x in Matching(keep, entries) <==>
      exists i :: 0 <= i < |entries| && entries[i].rel == x && entries[i].isFile && keep(x)
  {
    if entries != [] {
      MatchingMembers(keep, entries[1..], x);
      if x in Matching(keep, entries) && x != entries[0].rel {
        var i :| 0 <= i < |entries[1..]| && entries[1..][i].rel == x && entries[1..][i].isFile && keep(x);
        assert entries[i + 1] == entries[1..][i];
      }
      if exists i :: 0 < i < |entries| && entries[i].rel == x && entries[i].isFile && keep(x) {
        var i :| 0 < i < |entries| && entries[i].rel == x && entries[i].isFile && keep(x);
        assert entries[1..][i - 1] == entries[i];
      }
    }
  }

  /** A path no entry has is not kept. */
  lemma {:induction false} MatchingAbsent(keep: string -> bool, entries: seq<Entry>, x: string)
    requires forall i :: 0 <= i < |entries| ==> entries[i].rel != x
    ensures x !in Matching(keep, entries)
  {
    if entries != [] {
      MatchingAbsent(keep, entries[1..], x);
    }
  }

  /** What `FileReader.read_images` returns for a folder: the relative paths
      of the allowed regular files, sorted, or the error it raises. */
  function Listing(allowed: set<string>, folder: Folder): (r: Result<seq<string>, ReaderError>)
    ensures folder.Missing? ==> r == Err(FolderNotFound)
    ensures folder.NotADirectoryPath? ==> r == Err(NotADirectory)
    ensures folder.Directory? ==>
              r.Ok? && Sorted(r.value) && multiset(r.value) == multiset(Matching(Allowed(allowed), folder.entries))
  {
    if folder.Missing? then Err(FolderNotFound)
    else if folder.NotADirectoryPath? then Err(NotADirectory)
    else Ok(Sort(Matching(Allowed(allowed), folder.entries)))
  }

  lemma MatchingStep(keep: string -> bool, entries: seq<Entry>, i: nat)
    requires i < |entries|
    ensures Matching(keep, entries[i..]) ==
      (if entries[i].isFile && keep(entries[i].rel) then [entries[i].rel] else [])
      + Matching(keep, entries[i + 1..])
  {
    assert entries[i..][0] == entries[i] && entries[i..][1..] == entries[i + 1..];
  }

  /** The loop of `FileReader.read_images`: the regular files that pass
      `keep`, in listing order. */
  method CollectImages(keep: string -> bool, entries: seq<Entry>) returns (images: seq<string>)
    ensures images == Matching(keep, entries)
  {
    images := [];
    assert entries[0..] == entries;
    for i := 0 to |entries|
      invariant images + Matching(keep, entries[i..]) == Matching(keep, entries)
    {
      MatchingStep(keep, entries, i);
      if entries[i].isFile && keep(entries[i].rel) {
        images := images + [entries[i].rel];
      }
    }
    assert entries[|entries|..] == [];
  }

  /** `FileReader.read_images`: checks the folder, collects, then sorts. */
  method ReadImages(allowed: set<string>, folder: Folder) returns (r: Result<seq<string>, ReaderError>)
    ensures r == Listing(allowed, folder)
  {
    if folder.Missing? {
      return Err(FolderNotFound);
    }
    if folder.NotADirectoryPath? {
      return Err(NotADirectory);
    }
    var images := CollectImages(Allowed(allowed), folder.entries);
    return Ok(Sort(images));
  }

  /** A listing without repeated paths gives a result without repeats. */
  lemma {:induction false} MatchingOnce(keep: string -> bool, entries: seq<Entry>)
    requires forall i, j :: 0 <= i < j < |entries| ==> entries[i].rel != entries[j].rel
    ensures forall x :: multiset(Matching(keep, entries))[x] <= 1
  {
    if entries != [] {
      var e := entries[0];
      var tail := entries[1..];
      assert forall i :: 0 <= i < |tail| ==> tail[i] == entries[i + 1];
      MatchingOnce(keep, tail);
      var rest := Matching(keep, tail);
      if e.isFile && keep(e.rel) {
        MatchingAbsent(keep, tail, e.rel);
        var m := [e.rel] + rest;
        assert multiset(m) == multiset{e.rel} + multiset(rest);
        assert multiset(rest)[e.rel] == 0;
        assert Matching(keep, entries) == m;
      }
    }
  }
}
