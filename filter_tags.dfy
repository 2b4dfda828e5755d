/**
 * The tag chips (components/FilterTags.tsx): which tags are active, which chip
 * is highlighted, and how clicking a chip edits the query string.
 */
module FilterTags {
  import opened Sequences
  import opened SearchParams

  const TagName := "tag"

  /** `searchParams.getAll('tag')`: every `tag` value, in query-string order. */
  function ActiveTags(ps: seq<Param>): (tags: seq<string>)
    ensures forall t :: t in tags <==> Param(TagName, t) in ps
  {
    ValuesNamed(ps, TagName)
  }

  /** The chip for `tag` is drawn highlighted. */
  predicate ChipHighlighted(activeTags: seq<string>, tag: string)
  {
    tag in activeTags
  }

  /** A chip is highlighted exactly when its tag appears as a `tag` pair of the query. */
  lemma HighlightedIffInQuery(ps: seq<Param>, tag: string)
    ensures ChipHighlighted(ActiveTags(ps), tag) <==> Param(TagName, tag) in ps
  {
  }

  /** The query string after clicking the chip for `tag`, when the page is up to date with the location. */
  function TagClicked(ps: seq<Param>, tag: string): seq<Param>
  {
    if tag !in ActiveTags(ps) then ps + [Param(TagName, tag)]
    else WithoutPair(ps, TagName, tag)
  }

  /**
   * `handleTagClick(tag)`: copies the location's query, appends `tag=<tag>` when
   * the tag is not active and otherwise deletes every `tag=<tag>` pair, and hands
   * the result to the router. `activeTags` is what the component rendered with.
   */
  method HandleTagClick(location: seq<Param>, activeTags: seq<string>, tag: string)
    returns (next: seq<Param>)
    ensures tag !in activeTags ==> next == location + [Param(TagName, tag)]
    ensures tag in activeTags ==> next == WithoutPair(location, TagName, tag)
    ensures WithoutPair(next, TagName, tag) == WithoutPair(location, TagName, tag)
    ensures activeTags == ActiveTags(location) ==> next == TagClicked(location, tag)
  {
    var params := new URLSearchParams(location);
    if tag !in activeTags {
      params.Append(TagName, tag);
      WithoutPairAppended(location, TagName, tag);
    } else {
      params.DeleteValue(TagName, tag);
      WithoutPairIdempotent(location, TagName, tag);
    }
    next := params.list;
  }

  /** A click flips whether the tag is active. */
  lemma TagClickFlips(ps: seq<Param>, tag: string)
    ensures tag in ActiveTags(TagClicked(ps, tag)) <==> tag !in ActiveTags(ps)
  {
  }

  /** A click leaves every other pair, including the other tags, where it was. */
  lemma TagClickKeepsOthers(ps: seq<Param>, tag: string)
    ensures WithoutPair(TagClicked(ps, tag), TagName, tag) == WithoutPair(ps, TagName, tag)
    ensures forall t :: t != tag ==> (t in ActiveTags(TagClicked(ps, tag)) <==> t in ActiveTags(ps))
  {
    if tag !in ActiveTags(ps) {
      WithoutPairAppended(ps, TagName, tag);
    } else {
      WithoutPairIdempotent(ps, TagName, tag);
    }
  }

  /** Clicking an inactive chip twice gives back the original query. */
  lemma TagClickTwiceRestores(ps: seq<Param>, tag: string)
    requires tag !in ActiveTags(ps)
    ensures TagClicked(TagClicked(ps, tag), tag) == ps
  {
    var once := TagClicked(ps, tag);
    assert tag in ActiveTags(once);
    WithoutPairAppended(ps, TagName, tag);
    WithoutAbsentPair(ps, TagName, tag);
  }

  /**
   * The converse fails: clicking an active chip twice moves its pair to the end
   * of the query.
   */
  lemma ActiveTagTwiceMovesToEnd()
    ensures var ps := [Param(TagName, "go"), Param("search", "x")];
            TagClicked(TagClicked(ps, "go"), "go") == [Param("search", "x"), Param(TagName, "go")]
  {
    var ps := [Param(TagName, "go"), Param("search", "x")];
    assert "go" in ActiveTags(ps);
    var once := TagClicked(ps, "go");
    assert once == [Param("search", "x")] by {
      var f := IsNotPair(TagName, "go");
      assert ps[1..] == [Param("search", "x")] && ps[1..][1..] == [];
      assert Filter(ps[1..][1..], f) == [];
      assert Filter(ps[1..], f) == [Param("search", "x")];
      assert Filter(ps, f) == [Param("search", "x")];
    }
    assert "go" !in ActiveTags(once);
  }
}
