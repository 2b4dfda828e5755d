/**
 * The blog index page (app/blogs/page.tsx): all posts, newest first; the tag
 * chips taken from all of them; and the cards of the posts that pass the
 * search filter and then the tag filter of the current query.
 */
module BlogsPage {
  import opened Wrappers
  import opened Sequences
  import opened Strings
  import opened Content
  import opened SortedPosts
  import opened Helpers
  import opened SearchParams
  import FilterTags
  import Search

  /** `searchParams.tag` as Next.js hands it over: absent, one string, or an array. */
  datatype TagParam = NoTag | OneTag(tag: string) | ManyTags(tags: seq<string>)

  /** The page's `searchParams`. */
  datatype Query = Query(search: Option<string>, tag: TagParam)

  /**
   * The model's assumption about how the framework builds `searchParams` from
   * the query string: the first `search` value, and the `tag` values as one
   * string when there is one and as an array when there are several. The
   * framework's own parser is not part of this model.
   */
  function FromQuery(ps: seq<Param>): Query
  {
    var searches := ValuesNamed(ps, Search.SearchName);
    var tags := ValuesNamed(ps, FilterTags.TagName);
    Query(
      if searches == [] then None else Some(searches[0]),
      if tags == [] then NoTag else if |tags| == 1 then OneTag(tags[0]) else ManyTags(tags))
  }

  /** The lower-cased title contains the lower-cased term. */
  predicate MatchesSearch(p: PostWithoutBody, term: string)
  {
    Contains(Lower(p.title), Lower(term))
  }

  /** `searchQuery ? posts.filter(...) : posts`: an absent or empty term filters nothing. */
  function SearchFilter(posts: seq<PostWithoutBody>, search: Option<string>): (r: seq<PostWithoutBody>)
    ensures search == None || search == Some("") ==> r == posts
    ensures forall p :: p in r <==> p in posts && (search.Some? && search.value != "" ==> MatchesSearch(p, search.value))
    ensures IsSubseq(r, posts)
  {
    if search.Some? && search.value != "" then
      var f := (p: PostWithoutBody) => MatchesSearch(p, search.value);
      FilterMembers(posts, f);
      FilterIsSubseq(posts, f);
      Filter(posts, f)
    else
      SubseqReflexive(posts);
      posts
  }

  /** `typeof tag === 'string' ? [tag] : tag`. */
  function ActiveTags(tag: TagParam): (active: Option<seq<string>>)
    ensures active == None <==> tag.NoTag?
    ensures tag.OneTag? ==> active == Some([tag.tag])
    ensures tag.ManyTags? ==> active == Some(tag.tags)
  {
    match tag
    case NoTag => None
    case OneTag(t) => Some([t])
    case ManyTags(ts) => Some(ts)
  }

  /** `p.tags.some((t) => activeTags.includes(t))`. */
  predicate SharesTag(p: PostWithoutBody, active: seq<string>)
  {
    exists t :: t in p.tags && t in active
  }

  /** `activeTags?.length ? filteredPosts.filter(...) : filteredPosts`. */
  function TagFilter(posts: seq<PostWithoutBody>, active: Option<seq<string>>): (r: seq<PostWithoutBody>)
    ensures active == None || active == Some([]) ==> r == posts
    ensures forall p :: p in r <==> p in posts && (active.Some? && active.value != [] ==> SharesTag(p, active.value))
    ensures IsSubseq(r, posts)
  {
    if active.Some? && active.value != [] then
      var f := (p: PostWithoutBody) => SharesTag(p, active.value);
      FilterMembers(posts, f);
      FilterIsSubseq(posts, f);
      Filter(posts, f)
    else
      SubseqReflexive(posts);
      posts
  }

  /** The post passes both filters of `q`. */
  predicate Passes(p: PostWithoutBody, q: Query)
  {
    && (q.search.Some? && q.search.value != "" ==> MatchesSearch(p, q.search.value))
    && (var active := ActiveTags(q.tag); active.Some? && active.value != [] ==> SharesTag(p, active.value))
  }

  /** The search step, then the tag step. */
  function FilterPosts(posts: seq<PostWithoutBody>, q: Query): (r: seq<PostWithoutBody>)
    ensures forall p :: p in r <==> p in posts && Passes(p, q)
    ensures IsSubseq(r, posts)
  {
    var searched := SearchFilter(posts, q.search);
    var r := TagFilter(searched, ActiveTags(q.tag));
    SubseqTransitive(r, searched, posts);
    r
  }

  /** More posts than this and the page offers a "Load More Posts" button. */
  const LoadMoreThreshold := 15

  /** What the page renders. */
  datatype View = View(
    searchDefault: Option<string>,
    chips: seq<string>,
    cards: seq<PostWithoutBody>,
    noPostsMessage: bool,
    loadMoreButton: bool
  )

  /** `BlogsPage({ searchParams })` for the loaded posts `all`. */
  function Render(all: seq<Post>, q: Query): View
  {
    var posts := SortedPosts.SortedPosts(all, None);
    var cards := FilterPosts(posts, q);
    View(q.search, UniqueTags(posts), cards, |cards| == 0, |posts| > LoadMoreThreshold)
  }

  /** The chips offer every tag of every loaded post, once each, whatever the query. */
  lemma ChipsAreAllTags(all: seq<Post>, q: Query, t: string)
    ensures NoDuplicates(Render(all, q).chips)
    ensures t in Render(all, q).chips <==> exists i :: 0 <= i < |all| && t in all[i].tags
  {
    var sorted := SortByDate(all);
    var posts := SortedPosts.SortedPosts(all, None);
    assert t in Render(all, q).chips <==> exists i :: 0 <= i < |posts| && t in posts[i].tags;
    SortByDatePermutes(all);
    if i :| 0 <= i < |posts| && t in posts[i].tags {
      assert WithBody(posts[i], sorted[i].body) == sorted[i];
      assert sorted[i] in multiset(all);
      var j :| 0 <= j < |all| && all[j] == sorted[i];
    }
    if j :| 0 <= j < |all| && t in all[j].tags {
      assert all[j] in multiset(sorted);
      var i :| 0 <= i < |sorted| && sorted[i] == all[j];
      assert WithBody(posts[i], sorted[i].body) == sorted[i];
    }
  }

  /** The chips do not depend on the query. */
  lemma ChipsIndependentOfQuery(all: seq<Post>, q1: Query, q2: Query)
    ensures Render(all, q1).chips == Render(all, q2).chips
  {
  }

  /** "No posts found" shows exactly when no loaded post passes the filters. */
  lemma NoPostsIffNoMatch(all: seq<Post>, q: Query)
    ensures Render(all, q).noPostsMessage <==> forall p :: p in SortedPosts.SortedPosts(all, None) ==> !Passes(p, q)
  {
    var cards := Render(all, q).cards;
    if cards != [] {
      assert cards[0] in cards;
    }
  }

  /** The load-more button depends on the number of loaded posts only, not on the filters. */
  lemma LoadMoreIgnoresFilter(all: seq<Post>, q: Query)
    ensures Render(all, q).loadMoreButton <==> |all| > LoadMoreThreshold
  {
  }

  predicate NewestFirst(s: seq<PostWithoutBody>)
  {
    forall i, j :: 0 <= i < j < |s| ==> s[i].publishedAt >= s[j].publishedAt
  }

  lemma {:induction false} SubseqNewestFirst(a: seq<PostWithoutBody>, b: seq<PostWithoutBody>)
    requires IsSubseq(a, b) && NewestFirst(b)
    ensures NewestFirst(a)
    decreases |b|
  {
    if a != [] {
      if a[0] == b[0] && IsSubseq(a[1..], b[1..]) {
        SubseqNewestFirst(a[1..], b[1..]);
        forall j | 0 < j < |a| ensures a[0].publishedAt >= a[j].publishedAt {
          assert a[j] == a[1..][j - 1];
          SubseqMembers(a[1..], b[1..], a[j]);
          var k :| 0 <= k < |b[1..]| && b[1..][k] == a[j];
          assert b[k + 1] == a[j];
        }
      } else {
        SubseqNewestFirst(a, b[1..]);
      }
    }
  }

  /** The cards keep the newest-first order: both filters preserve order. */
  lemma CardsNewestFirst(all: seq<Post>, q: Query)
    ensures NewestFirst(Render(all, q).cards)
  {
    var posts := SortedPosts.SortedPosts(all, None);
    SubseqNewestFirst(FilterPosts(posts, q), posts);
  }

  /**
   * The tags the page filters by are those the chips show highlighted, for the
   * query string the client edits.
   */
  lemma FilterTagsAreHighlightedChips(ps: seq<Param>)
    ensures var active := ActiveTags(FromQuery(ps).tag);
      forall t :: FilterTags.ChipHighlighted(FilterTags.ActiveTags(ps), t) <==> active.Some? && t in active.value
  {
    var tags := ValuesNamed(ps, FilterTags.TagName);
    if |tags| == 1 {
      assert tags == [tags[0]];
    }
  }
}
