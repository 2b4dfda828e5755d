/**
 * The search box (components/Search.tsx): typing a term rewrites the query
 * string so that it carries that term as its only `search` value (or none for
 * an empty term) and no `tag` values at all.
 */
module Search {
  import opened SearchParams
  import FilterTags

  const SearchName := "search"

  /** The query string after the input changes to `term`. */
  function SearchChanged(ps: seq<Param>, term: string): seq<Param>
  {
    var searched := if term != "" then WithSet(ps, SearchName, term) else WithoutName(ps, SearchName);
    WithoutName(searched, FilterTags.TagName)
  }

  /** The pairs that are neither `search` nor `tag`. */
  function Untouched(ps: seq<Param>): seq<Param>
  {
    WithoutName(WithoutName(ps, SearchName), FilterTags.TagName)
  }

  /** After a change no `tag` value is left. */
  lemma SearchChangedClearsTags(ps: seq<Param>, term: string)
    ensures ValuesNamed(SearchChanged(ps, term), FilterTags.TagName) == []
  {
    var searched := if term != "" then WithSet(ps, SearchName, term) else WithoutName(ps, SearchName);
    NoValuesLeft(searched, FilterTags.TagName);
  }

  /** After a change `search` has the term as its only value, or no value for an empty term. */
  lemma SearchChangedSearchValue(ps: seq<Param>, term: string)
    ensures ValuesNamed(SearchChanged(ps, term), SearchName) == if term != "" then [term] else []
  {
    var searched := if term != "" then WithSet(ps, SearchName, term) else WithoutName(ps, SearchName);
    ValuesNamedWithoutOther(searched, FilterTags.TagName, SearchName);
    if term != "" {
      WithSetValues(ps, SearchName, term);
    } else {
      NoValuesLeft(ps, SearchName);
    }
  }

  /** A change keeps every pair that is neither `search` nor `tag`, in order. */
  lemma SearchChangedKeepsOthers(ps: seq<Param>, term: string)
    ensures Untouched(SearchChanged(ps, term)) == Untouched(ps)
  {
    var tag := FilterTags.TagName;
    var searched := if term != "" then WithSet(ps, SearchName, term) else WithoutName(ps, SearchName);
    WithoutNameCommute(searched, tag, SearchName);
    WithoutNameIdempotent(WithoutName(searched, SearchName), tag);
    if term != "" {
      WithSetOthers(ps, SearchName, term);
    } else {
      WithoutNameIdempotent(ps, SearchName);
    }
  }

  /**
   * `handleChange(term)`: copies the location's query, sets `search` to `term`
   * (deletes it when `term` is empty), deletes every `tag`, and hands the result
   * to the router.
   */
  method HandleChange(location: seq<Param>, term: string) returns (next: seq<Param>)
    ensures next == SearchChanged(location, term)
    ensures ValuesNamed(next, FilterTags.TagName) == []
    ensures ValuesNamed(next, SearchName) == if term != "" then [term] else []
    ensures Untouched(next) == Untouched(location)
  {
    var params := new URLSearchParams(location);
    if term != "" {
      params.Set(SearchName, term);
    } else {
      params.Delete(SearchName);
    }
    params.Delete(FilterTags.TagName);
    next := params.list;
    SearchChangedClearsTags(location, term);
    SearchChangedSearchValue(location, term);
    SearchChangedKeepsOthers(location, term);
  }

  /** The reset handler: the same as clearing the input. */
  method HandleReset(location: seq<Param>) returns (next: seq<Param>)
    ensures next == SearchChanged(location, "")
    ensures ValuesNamed(next, SearchName) == [] && ValuesNamed(next, FilterTags.TagName) == []
    ensures Untouched(next) == Untouched(location)
  {
    next := HandleChange(location, "");
  }

  /** Typing the same term again leaves the query as it is. */
  lemma SearchChangedIdempotent(ps: seq<Param>, term: string)
    ensures SearchChanged(SearchChanged(ps, term), term) == SearchChanged(ps, term)
  {
    var tag := FilterTags.TagName;
    var once := SearchChanged(ps, term);
    var searched := if term != "" then WithSet(ps, SearchName, term) else WithoutName(ps, SearchName);
    assert once == WithoutName(searched, tag);
    WithoutNameIdempotent(searched, tag);
    if term != "" {
      SearchChangedSearchValue(ps, term);
      WithSetFixpoint(once, SearchName, term);
    } else {
      WithoutNameCommute(searched, tag, SearchName);
      WithoutNameIdempotent(ps, SearchName);
    }
  }
}
