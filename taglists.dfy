/** The list layer of `TagManager` (tagmanager.py): the comprehensions that
    clean tag lists and the loops of `merge_tags` and `delete_tags`, stated as
    functions over lists of tags. */
module TagLists {
  import opened Maybe
  import opened Text

  /** A tag as the manager emits it: non-empty, stripped, without a comma. */
  predicate IsTag(t: string) {
    t != "" && IsStripped(t) && ',' !in t
  }

  /** `[t.strip() for t in tags if t.strip()]`. */
  function Clean(tags: seq<string>): (r: seq<string>)
    ensures |r| <= |tags|
    ensures forall t :: t in r ==> t != "" && IsStripped(t)
  {
    if tags == [] then []
    else
      var t := Strip(tags[0]);
      var rest := Clean(tags[1..]);
      if t != "" then
        assert forall u :: u in [t] + rest ==> u == t || u in rest;
        [t] + rest
      else rest
  }

  /** A character that no tag contains is not in any cleaned tag. */
  lemma {:induction false} CleanKeepsOut(tags: seq<string>, c: char)
    requires forall u :: u in tags ==> c !in u
    ensures forall t :: t in Clean(tags) ==> c !in t
  {
    if tags != [] {
      assert tags[0] in tags;
      assert forall u :: u in tags[1..] ==> u in tags;
      CleanKeepsOut(tags[1..], c);
    }
  }

  /** The tags of a stored tag string: the stripped non-empty pieces between
      its commas. */
  function Tokens(s: string): seq<string> {
    Clean(Split(s, ','))
  }

  /** The tags read from a stored string are clean tags. */
  lemma TokensAreTags(s: string)
    ensures forall t :: t in Tokens(s) ==> IsTag(t)
  {
    CleanKeepsOut(Split(s, ','), ',');
  }

  /** Cleaning a list of clean tags changes nothing. */
  lemma {:induction false} CleanClean(ts: seq<string>)
    requires forall t :: t in ts ==> t != "" && IsStripped(t)
    ensures Clean(ts) == ts
  {
    if ts != [] {
      assert ts[0] in ts;
      assert forall u :: u in ts[1..] ==> u in ts;
      StripStripped(ts[0]);
      CleanClean(ts[1..]);
    }
  }

  /** Reading back a joined list of tags gives the list. */
  lemma TokensJoin(ts: seq<string>)
    requires forall t :: t in ts ==> IsTag(t)
    ensures Tokens(Join(ts, ',')) == ts
  {
    if ts == [] {
      assert Split("", ',') == [""];
      assert Strip("") == "";
    } else {
      SplitJoin(ts, ',');
      CleanClean(ts);
    }
  }

  /** `merged` after the loop of `merge_tags` over `incoming`: each token not
      yet present, in the order given, is appended. */
  function AppendNew(merged: seq<string>, incoming: seq<string>): (r: seq<string>)
    ensures |merged| <= |r| && r[..|merged|] == merged
    decreases |incoming|
  {
    if incoming == [] then merged
    else
      var t := incoming[0];
      AppendNew(if t in merged then merged else merged + [t], incoming[1..])
  }

  /** The merged list holds exactly the tokens of both lists. */
  lemma {:induction false} AppendNewMembers(merged: seq<string>, incoming: seq<string>)
    ensures forall t :: t in AppendNew(merged, incoming) <==> t in merged || t in incoming
    decreases |incoming|
  {
    if incoming != [] {
      var t := incoming[0];
      var m' := if t in merged then merged else merged + [t];
      AppendNewMembers(m', incoming[1..]);
      assert AppendNew(merged, incoming) == AppendNew(m', incoming[1..]);
      assert forall u :: u in incoming <==> u == t || u in incoming[1..];
    }
  }

  /** One step of the loop of `merge_tags`. */
  lemma AppendNewStep(merged: seq<string>, incoming: seq<string>, i: nat)
    requires i < |incoming|
    ensures var t := incoming[i];
      AppendNew(merged, incoming[i..]) == AppendNew(if t in merged then merged else merged + [t], incoming[i + 1..])
  {
    assert incoming[i..][0] == incoming[i] && incoming[i..][1..] == incoming[i + 1..];
  }

  /** `a` occurs in `b` in order, possibly with gaps. */
  predicate IsSubseq(a: seq<string>, b: seq<string>)
    decreases |b|
  {
    a == [] || (b != [] && ((a[0] == b[0] && IsSubseq(a[1..], b[1..])) || IsSubseq(a, b[1..])))
  }

  lemma {:induction false} SubseqRefl(a: seq<string>)
    ensures IsSubseq(a, a)
  {
    if a != [] {
      SubseqRefl(a[1..]);
    }
  }

  lemma {:induction false} SubseqTrans(a: seq<string>, b: seq<string>, c: seq<string>)
    requires IsSubseq(a, b) && IsSubseq(b, c)
    ensures IsSubseq(a, c)
    decreases |c|
  {
    if a != [] {
      if IsSubseq(b, c[1..]) {
        SubseqTrans(a, b, c[1..]);
      } else if IsSubseq(a, b[1..]) {
        SubseqTrans(a, b[1..], c[1..]);
      } else {
        SubseqTrans(a[1..], b[1..], c[1..]);
      }
    }
  }

  /** Every appended token was absent from what came before it. */
  lemma {:induction false} AppendNewAddsOnlyNew(merged: seq<string>, incoming: seq<string>)
    ensures var r := AppendNew(merged, incoming);
      forall i :: |merged| <= i < |r| ==> r[i] !in r[..i]
    decreases |incoming|
  {
    if incoming != [] {
      var t := incoming[0];
      if t in merged {
        assert AppendNew(merged, incoming) == AppendNew(merged, incoming[1..]);
        AppendNewAddsOnlyNew(merged, incoming[1..]);
      } else {
        var m' := merged + [t];
        assert AppendNew(merged, incoming) == AppendNew(m', incoming[1..]);
        AppendNewAddsOnlyNew(m', incoming[1..]);
        var r := AppendNew(m', incoming[1..]);
        assert r[..|m'|] == m';
        assert r[|merged|] == t && r[..|merged|] == merged;
      }
    }
  }

  /** The appended tokens come in the order they were given. */
  lemma {:induction false} AppendNewKeepsOrder(merged: seq<string>, incoming: seq<string>)
    ensures IsSubseq(AppendNew(merged, incoming)[|merged|..], incoming)
    decreases |incoming|
  {
    if incoming != [] {
      var t := incoming[0];
      if t in merged {
        AppendNewAddsOnlyNew(merged, incoming[1..]);
        AppendNewKeepsOrder(merged, incoming[1..]);
      } else {
        var m' := merged + [t];
        var r := AppendNew(m', incoming[1..]);
        AppendNewKeepsOrder(m', incoming[1..]);
        assert r[..|m'|] == m';
        assert r[|merged|..][0] == t && r[|merged|..][1..] == r[|m'|..];
      }
    }
  }

  /** When every incoming token is already present nothing is appended. */
  lemma {:induction false} AppendNewPresent(merged: seq<string>, incoming: seq<string>)
    requires forall t :: t in incoming ==> t in merged
    ensures AppendNew(merged, incoming) == merged
    decreases |incoming|
  {
    if incoming != [] {
      AppendNewPresent(merged, incoming[1..]);
    }
  }

  predicate Distinct(s: seq<string>) {
    forall i, j :: 0 <= i < j < |s| ==> s[i] != s[j]
  }

  /** Merging into a list without duplicates gives a list without duplicates. */
  lemma AppendNewDistinct(merged: seq<string>, incoming: seq<string>)
    requires Distinct(merged)
    ensures Distinct(AppendNew(merged, incoming))
  {
    var r := AppendNew(merged, incoming);
    AppendNewAddsOnlyNew(merged, incoming);
    forall i, j | 0 <= i < j < |r| ensures r[i] != r[j] {
      if j < |merged| {
        assert r[i] == merged[i] && r[j] == merged[j];
      } else {
        assert r[i] in r[..j];
      }
    }
  }

  /** Merging clean incoming tags into clean stored tags gives clean tags;
      comma-free ones read back from their join. */
  lemma MergedAreTags(base: seq<string>, tags: seq<string>)
    requires forall t :: t in base ==> IsTag(t)
    ensures var merged := AppendNew(base, Clean(tags));
      forall t :: t in merged ==> t != "" && IsStripped(t)
    ensures (forall u :: u in tags ==> ',' !in u) ==>
      var merged := AppendNew(base, Clean(tags));
      (forall t :: t in merged ==> IsTag(t)) && Tokens(Join(merged, ',')) == merged
  {
    var merged := AppendNew(base, Clean(tags));
    AppendNewMembers(base, Clean(tags));
    if forall u :: u in tags ==> ',' !in u {
      CleanKeepsOut(tags, ',');
      TokensJoin(merged);
    }
  }

  /** Why `delete_tags` fails. */
  datatype TagError =
    | BaseUnbound             // no stored tags: `base` is never assigned
    | NotInList(tag: string)  // `list.remove` of a token already removed

  /** Python's `list.remove(x)`: drops the first occurrence. */
  function RemoveFirst(s: seq<string>, x: string): (r: seq<string>)
    requires x in s
    ensures multiset(r) == multiset(s) - multiset{x}
    ensures IsSubseq(r, s)
  {
    if s[0] == x then
      SubseqRefl(s[1..]);
      assert s == [s[0]] + s[1..];
      s[1..]
    else
      var r := [s[0]] + RemoveFirst(s[1..], x);
      assert s == [s[0]] + s[1..] && r[1..] == RemoveFirst(s[1..], x);
      r
  }

  /** The index of the first occurrence of `x`, as `list.index(x)`. */
  function Position(s: seq<string>, x: string): (i: nat)
    requires x in s
    ensures i < |s| && s[i] == x && x !in s[..i]
  {
    if s[0] == x then 0
    else
      assert x in s[1..] by { var k :| 0 <= k < |s| && s[k] == x; assert s[1..][k - 1] == x; }
      var j := Position(s[1..], x);
      assert s[..j + 1] == [s[0]] + s[1..][..j];
      j + 1
  }

  /** `list.remove(x)` takes out the leftmost `x` and nothing else. */
  lemma {:induction false} RemoveFirstAt(s: seq<string>, x: string)
    requires x in s
    ensures var i := Position(s, x); RemoveFirst(s, x) == s[..i] + s[i + 1..]
  {
    if s[0] == x {
      assert Position(s, x) == 0 && RemoveFirst(s, x) == s[1..];
      assert s[..0] + s[1..] == s[1..];
    } else {
      var t := s[1..];
      assert x in t by { var k :| 0 <= k < |s| && s[k] == x; assert t[k - 1] == x; }
      var j := Position(t, x);
      assert Position(s, x) == j + 1;
      RemoveFirstAt(t, x);
      assert RemoveFirst(s, x) == [s[0]] + RemoveFirst(t, x);
      CutAfterHead(s, j);
    }
  }

  /** Cutting one element out of `s` after its head is cutting it out of the
      tail. */
  lemma CutAfterHead(s: seq<string>, j: nat)
    requires j + 1 < |s|
    ensures s[..j + 1] + s[j + 2..] == [s[0]] + (s[1..][..j] + s[1..][j + 1..])
  {
    assert s[..j + 1] == [s[0]] + s[1..][..j];
    assert s[j + 2..] == s[1..][j + 1..];
  }

  /** `s` with the first `m[y]` occurrences of each `y` taken out, in one
      pass from the front; later occurrences stay where they are. */
  function DropFirsts(s: seq<string>, m: multiset<string>): seq<string>
    decreases |s|
  {
    if s == [] then []
    else if s[0] in m then DropFirsts(s[1..], m - multiset{s[0]})
    else [s[0]] + DropFirsts(s[1..], m)
  }

  lemma {:induction false} DropNothing(s: seq<string>)
    ensures DropFirsts(s, multiset{}) == s
  {
    if s != [] {
      DropNothing(s[1..]);
    }
  }

  /** Removing the first `x`, then the first occurrences counted by `m`, is
      removing the first occurrences counted by `m` and one more `x`. */
  lemma {:induction false} DropFirstsRemoveFirst(s: seq<string>, x: string, m: multiset<string>)
    requires x in s
    ensures DropFirsts(RemoveFirst(s, x), m) == DropFirsts(s, multiset{x} + m)
  {
    if s[0] == x {
      assert DropFirsts(s, multiset{x} + m) == DropFirsts(s[1..], m) by {
        TakeOneBack(x, m);
      }
    } else {
      var t := s[1..];
      assert x in t by { var k :| 0 <= k < |s| && s[k] == x; assert t[k - 1] == x; }
      var r := RemoveFirst(s, x);
      assert r[0] == s[0] && r[1..] == RemoveFirst(t, x);
      if s[0] in m {
        var m' := m - multiset{s[0]};
        assert DropFirsts(r, m) == DropFirsts(RemoveFirst(t, x), m');
        DropFirstsRemoveFirst(t, x, m');
        assert DropFirsts(s, multiset{x} + m) == DropFirsts(t, multiset{x} + m') by {
          TakeOneOther(x, s[0], m);
        }
      } else {
        assert DropFirsts(r, m) == [s[0]] + DropFirsts(RemoveFirst(t, x), m);
        DropFirstsRemoveFirst(t, x, m);
        assert s[0] !in multiset{x} + m;
      }
    }
  }

  /** Adding one `x` and taking it back out. */
  lemma TakeOneBack(x: string, m: multiset<string>)
    ensures (multiset{x} + m) - multiset{x} == m
  {
  }

  /** Adding one `x` commutes with taking out one `y` that is there. */
  lemma TakeOneOther(x: string, y: string, m: multiset<string>)
    requires x != y && y in m
    ensures (multiset{x} + m) - multiset{y} == multiset{x} + (m - multiset{y})
  {
  }

  /** The loop of `delete_tags`: each incoming token found in `base` removes one
      occurrence from `newTags`; the others are passed over. */
  function RemoveEach(base: seq<string>, newTags: seq<string>, incoming: seq<string>): Result<seq<string>, TagError>
    decreases |incoming|
  {
    if incoming == [] then Ok(newTags)
    else if incoming[0] !in base then RemoveEach(base, newTags, incoming[1..])
    else if incoming[0] !in newTags then Err(NotInList(incoming[0]))
    else RemoveEach(base, RemoveFirst(newTags, incoming[0]), incoming[1..])
  }

  /** The incoming tokens that occur in `base`. */
  function InBase(base: seq<string>, incoming: seq<string>): seq<string>
    decreases |incoming|
  {
    if incoming == [] then []
    else (if incoming[0] in base then [incoming[0]] else []) + InBase(base, incoming[1..])
  }

  /** One step of `InBase` on a token found in `base`. */
  lemma InBaseFound(base: seq<string>, incoming: seq<string>)
    requires incoming != [] && incoming[0] in base
    ensures InBase(base, incoming) == [incoming[0]] + InBase(base, incoming[1..])
    ensures multiset(InBase(base, incoming)) == multiset{incoming[0]} + multiset(InBase(base, incoming[1..]))
  {
  }

  /** Taking one `x` out of `b` before comparing. */
  lemma MultisetTakeOne(a: multiset<string>, b: multiset<string>, x: string)
    requires x in b
    ensures (multiset{x} + a <= b) <==> (a <= b - multiset{x})
    ensures b - multiset{x} - a == b - (multiset{x} + a)
  {
    if multiset{x} + a <= b {
      forall y ensures a[y] <= (b - multiset{x})[y] {
        assert (multiset{x} + a)[y] <= b[y];
      }
    }
    if a <= b - multiset{x} {
      forall y ensures (multiset{x} + a)[y] <= b[y] {
        assert a[y] <= (b - multiset{x})[y];
      }
    }
    assert forall y :: (b - multiset{x} - a)[y] == (b - (multiset{x} + a))[y];
  }

  /** The deletion succeeds exactly when no token found in `base` is asked for
      more often than `newTags` holds it. */
  lemma {:induction false} RemoveEachSucceeds(base: seq<string>, newTags: seq<string>, incoming: seq<string>)
    ensures RemoveEach(base, newTags, incoming).Ok? <==> multiset(InBase(base, incoming)) <= multiset(newTags)
    decreases |incoming|
  {
    if incoming != [] {
      var x, rest := incoming[0], incoming[1..];
      if x !in base {
        RemoveEachSucceeds(base, newTags, rest);
      } else {
        InBaseFound(base, incoming);
        var F := multiset(InBase(base, rest));
        if x !in newTags {
          assert (multiset{x} + F)[x] >= 1;
        } else {
          var nt' := RemoveFirst(newTags, x);
          RemoveEachSucceeds(base, nt', rest);
          MultisetTakeOne(F, multiset(newTags), x);
        }
      }
    }
  }

  /** What survives a successful deletion: `newTags` less one occurrence of each
      token found in `base`, in its original order. */
  lemma {:induction false} RemoveEachKept(base: seq<string>, newTags: seq<string>, incoming: seq<string>)
    requires RemoveEach(base, newTags, incoming).Ok?
    ensures var kept := RemoveEach(base, newTags, incoming).value;
      multiset(kept) == multiset(newTags) - multiset(InBase(base, incoming)) && IsSubseq(kept, newTags)
    decreases |incoming|
  {
    if incoming == [] {
      SubseqRefl(newTags);
    } else {
      var x, rest := incoming[0], incoming[1..];
      if x !in base {
        RemoveEachKept(base, newTags, rest);
      } else {
        InBaseFound(base, incoming);
        var F := multiset(InBase(base, rest));
        var nt' := RemoveFirst(newTags, x);
        RemoveEachKept(base, nt', rest);
        MultisetTakeOne(F, multiset(newTags), x);
        SubseqTrans(RemoveEach(base, nt', rest).value, nt', newTags);
      }
    }
  }

  /** A successful deletion removes, for each token found in `base`, its
      first remaining occurrence: the survivors are `newTags` with the first
      occurrences of the found tokens dropped. */
  lemma {:induction false} RemoveEachDropsFirsts(base: seq<string>, newTags: seq<string>, incoming: seq<string>)
    requires RemoveEach(base, newTags, incoming).Ok?
    ensures RemoveEach(base, newTags, incoming).value == DropFirsts(newTags, multiset(InBase(base, incoming)))
    decreases |incoming|
  {
    if incoming == [] {
      DropNothing(newTags);
    } else {
      var x, rest := incoming[0], incoming[1..];
      if x !in base {
        assert InBase(base, incoming) == InBase(base, rest);
        RemoveEachDropsFirsts(base, newTags, rest);
      } else {
        InBaseFound(base, incoming);
        RemoveEachDropsFirsts(base, RemoveFirst(newTags, x), rest);
        DropFirstsRemoveFirst(newTags, x, multiset(InBase(base, rest)));
      }
    }
  }

  /** Tokens absent from `base` play no part in the deletion. */
  lemma {:induction false} RemoveEachIgnoresAbsent(base: seq<string>, newTags: seq<string>, incoming: seq<string>)
    ensures RemoveEach(base, newTags, incoming) == RemoveEach(base, newTags, InBase(base, incoming))
    decreases |incoming|
  {
    if incoming != [] {
      var x, rest := incoming[0], incoming[1..];
      if x in base {
        InBaseFound(base, incoming);
        var F := InBase(base, rest);
        assert ([x] + F)[0] == x && ([x] + F)[1..] == F;
        if x in newTags {
          RemoveEachIgnoresAbsent(base, RemoveFirst(newTags, x), rest);
        }
      } else {
        assert InBase(base, incoming) == InBase(base, rest);
        RemoveEachIgnoresAbsent(base, newTags, rest);
      }
    }
  }
  /** What survives a deletion from clean tags is clean and reads back from
      its join. */
  lemma RemoveEachReadsBack(base: seq<string>, incoming: seq<string>)
    requires forall t :: t in base ==> IsTag(t)
    requires RemoveEach(base, base, incoming).Ok?
    ensures var kept := RemoveEach(base, base, incoming).value;
      Tokens(Join(kept, ',')) == kept
  {
    var kept := RemoveEach(base, base, incoming).value;
    RemoveEachKept(base, base, incoming);
    forall t | t in kept ensures IsTag(t) {
      assert multiset(kept)[t] > 0;
      assert multiset(base)[t] > 0;
    }
    TokensJoin(kept);
  }
}
