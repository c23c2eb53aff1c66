/** `TagManager` (tagmanager.py): reconciling the comma-joined tag string
    stored with an image with the tags a user adds or deletes, and reading
    the "date,make,model" text of a metadata edit.

    The `TagManager` object only keeps its configuration, which none of these
    operations reads, so they are modelled as methods of the module. */
module TagManager {
  import opened Maybe
  import opened Text
  import opened Dates
  import opened TagLists

  /** The loop of `merge_tags`: appends each incoming token not yet in
      `merged`. */
  method AppendMissing(base: seq<string>, incoming: seq<string>) returns (merged: seq<string>)
    ensures merged == AppendNew(base, incoming)
  {
    merged := base;
    assert incoming[0..] == incoming;
    for i := 0 to |incoming|
      invariant AppendNew(merged, incoming[i..]) == AppendNew(base, incoming)
    {
      AppendNewStep(merged, incoming, i);
      if incoming[i] !in merged {
        merged := merged + [incoming[i]];
      }
    }
    assert incoming[|incoming|..] == [];
  }

  /** `TagManager.merge_tags`: the stored tokens followed by the new incoming
      ones. */
  method MergeTags(initialTags: Option<string>, tags: seq<string>) returns (r: string)
    ensures r == Join(AppendNew(Tokens(initialTags.GetOr("")), Clean(tags)), ',')
  {
    var base := Tokens(initialTags.GetOr(""));
    var incoming := Clean(tags);
    var merged := AppendMissing(base, incoming);
    r := Join(merged, ',');
  }

  /** Every tag of a merge result is stripped and non-empty. `stored` is the
      stored tag string, `initial_tags or ""`. */
  lemma MergeEmitsTags(stored: string, tags: seq<string>)
    ensures var merged := AppendNew(Tokens(stored), Clean(tags));
      forall t :: t in merged ==> t != "" && IsStripped(t)
  {
    TokensAreTags(stored);
    MergedAreTags(Tokens(stored), tags);
  }

  /** When the incoming tags hold no comma (the web layer splits them at
      commas), the joined result reads back as the merged list. */
  lemma MergeReadsBack(stored: string, tags: seq<string>)
    requires forall u :: u in tags ==> ',' !in u
    ensures var merged := AppendNew(Tokens(stored), Clean(tags));
      Tokens(Join(merged, ',')) == merged
  {
    TokensAreTags(stored);
    MergedAreTags(Tokens(stored), tags);
  }

  /** Merging the same comma-free tags into a merge result (the result passed
      back as the stored tags) gives it back unchanged. */
  lemma MergeIdempotent(stored: string, tags: seq<string>)
    requires forall u :: u in tags ==> ',' !in u
    ensures var m := Join(AppendNew(Tokens(stored), Clean(tags)), ',');
      Join(AppendNew(Tokens(m), Clean(tags)), ',') == m
  {
    var merged := AppendNew(Tokens(stored), Clean(tags));
    MergeReadsBack(stored, tags);
    AppendNewMembers(Tokens(stored), Clean(tags));
    AppendNewPresent(merged, Clean(tags));
  }

  /** Without stored tags the result lists each clean incoming tag once, in an
      order that follows the incoming tags (a subsequence of them). */
  lemma MergeIntoNothing(tags: seq<string>)
    ensures var merged := AppendNew(Tokens(""), Clean(tags));
      && Distinct(merged)
      && (forall t :: t in merged <==> t in Clean(tags))
      && IsSubseq(merged, Clean(tags))
  {
    NoStoredTokens();
    var incoming := Clean(tags);
    AppendNewDistinct([], incoming);
    AppendNewKeepsOrder([], incoming);
    AppendNewMembers([], incoming);
    var merged := AppendNew([], incoming);
    assert merged[0..] == merged;
  }

  /** The empty stored string holds no tokens. */
  lemma NoStoredTokens()
    ensures Tokens("") == []
  {
    assert Split("", ',') == [""];
    assert Strip("") == "";
  }

  /** What `delete_tags` returns or raises. */
  function DeleteResult(initialTags: Option<string>, tags: seq<string>): Result<string, TagError> {
    if initialTags.None? || initialTags.value == "" then Err(BaseUnbound)
    else
      var base := Tokens(initialTags.value);
      match RemoveEach(base, base, Clean(tags))
      case Ok(kept) => Ok(Join(kept, ','))
      case Err(e) => Err(e)
  }

  /** `TagManager.delete_tags`. */
  method DeleteTags(initialTags: Option<string>, tags: seq<string>) returns (r: Result<string, TagError>)
    ensures r == DeleteResult(initialTags, tags)
  {
    if initialTags.None? || initialTags.value == "" {
      return Err(BaseUnbound);
    }
    var base := Tokens(initialTags.value);
    var incoming := Clean(tags);
    var newTags := base;
    assert incoming[0..] == incoming;
    for i := 0 to |incoming|
      invariant RemoveEach(base, newTags, incoming[i..]) == RemoveEach(base, base, incoming)
    {
      assert incoming[i..][0] == incoming[i] && incoming[i..][1..] == incoming[i + 1..];
      if incoming[i] in base {
        if incoming[i] !in newTags {
          return Err(NotInList(incoming[i]));
        }
        newTags := RemoveFirst(newTags, incoming[i]);
      }
    }
    assert incoming[|incoming|..] == [];
    return Ok(Join(newTags, ','));
  }

  /** `delete_tags` on a non-empty stored string fails exactly when some
      token is requested more often than it is stored. */
  lemma DeleteSucceeds(stored: string, tags: seq<string>)
    requires stored != ""
    ensures DeleteResult(Some(stored), tags).Ok?
      <==> multiset(InBase(Tokens(stored), Clean(tags))) <= multiset(Tokens(stored))
  {
    RemoveEachSucceeds(Tokens(stored), Tokens(stored), Clean(tags));
  }

  /** A successful `delete_tags` returns the stored tokens less one occurrence
      of each requested token found among them, in their stored order: the
      occurrences removed are the first ones, and later duplicates stay. */
  lemma DeleteKeeps(stored: string, tags: seq<string>)
    requires stored != "" && DeleteResult(Some(stored), tags).Ok?
    ensures var base := Tokens(stored);
      var kept := Tokens(DeleteResult(Some(stored), tags).value);
      && multiset(kept) == multiset(base) - multiset(InBase(base, Clean(tags)))
      && IsSubseq(kept, base)
      && kept == DropFirsts(base, multiset(InBase(base, Clean(tags))))
  {
    var base := Tokens(stored);
    var kept := RemoveEach(base, base, Clean(tags)).value;
    assert DeleteResult(Some(stored), tags).value == Join(kept, ',');
    assert Tokens(Join(kept, ',')) == kept by {
      TokensAreTags(stored);
      RemoveEachReadsBack(base, Clean(tags));
    }
    RemoveEachKept(base, base, Clean(tags));
    RemoveEachDropsFirsts(base, base, Clean(tags));
  }

  /** Deleting `a` from `a,b,a` removes the first `a` and keeps the second:
      the result is `b,a`, not `a,b`. */
  lemma DeleteFirstDuplicate(a: string, b: string)
    requires IsTag(a) && IsTag(b) && a != b
    ensures DeleteResult(Some(a + "," + b + "," + a), [a]) == Ok(b + "," + a)
  {
    var base := [a, b, a];
    var stored := a + "," + b + "," + a;
    assert stored != "" by { assert |stored| > |a| > 0; }
    TripleTokens(a, b);
    assert Clean([a]) == [a] by {
      CleanClean([a]);
    }
    assert RemoveEach(base, base, [a]) == Ok([b, a]) by {
      assert RemoveFirst(base, a) == [b, a];
      assert [a][1..] == [];
    }
    DeleteResultOk(stored, [a], [b, a]);
  }

  /** `delete_tags` on a non-empty stored string returns the join of what
      the removal loop keeps. */
  lemma DeleteResultOk(stored: string, tags: seq<string>, kept: seq<string>)
    requires stored != ""
    requires RemoveEach(Tokens(stored), Tokens(stored), Clean(tags)) == Ok(kept)
    ensures DeleteResult(Some(stored), tags) == Ok(Join(kept, ','))
  {
  }

  /** The stored string `a,b,a` reads as the tags `a`, `b`, `a`. */
  lemma TripleTokens(a: string, b: string)
    requires IsTag(a) && IsTag(b)
    ensures Tokens(a + "," + b + "," + a) == [a, b, a]
    ensures Join([b, a], ',') == b + "," + a
  {
    JoinTriple(a, b);
    SplitJoin([a, b, a], ',');
    CleanClean([a, b, a]);
  }

  /** The comma-joins of `[b, a]` and `[a, b, a]`. */
  lemma JoinTriple(a: string, b: string)
    ensures Join([b, a], ',') == b + "," + a
    ensures Join([a, b, a], ',') == a + "," + b + "," + a
  {
    assert [b, a][1..] == [a];
    assert [a, b, a][1..] == [b, a];
    assert Join([a, b, a], ',') == a + [','] + Join([b, a], ',');
    var tail := b + [','] + a;
    assert a + [','] + tail == a + "," + b + "," + a by {
      assert "," == [','];
      assert forall k :: 0 <= k < |a + [','] + tail| ==> (a + [','] + tail)[k] == (a + "," + b + "," + a)[k];
    }
  }
}
