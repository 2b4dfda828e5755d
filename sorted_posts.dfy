/**
 * `getSortedPosts(n?)` (lib/getSortedPosts.ts): sort the shared `allPosts` array
 * in place by descending publication date (a stable sort, so posts with equal
 * dates keep their order), take the first `n` (all of them when `n` is absent
 * or 0), and copy every field except `body`.
 */
module SortedPosts {
  import opened Wrappers
  import opened Sequences
  import opened Content

  /** `Omit<Post, 'body'>`. */
  datatype PostWithoutBody = PostWithoutBody(
    id: string,
    raw: RawDocument,
    author: string,
    bannerUrl: string,
    description: string,
    publishedAt: int,
    slug: string,
    tags: seq<string>,
    timeToRead: string,
    title: string,
    url: string,
    docType: string
  )

  /** The field-by-field copy made by the final `map`. */
  function WithoutBody(p: Post): PostWithoutBody
  {
    PostWithoutBody(p.id, p.raw, p.author, p.bannerUrl, p.description, p.publishedAt,
                    p.slug, p.tags, p.timeToRead, p.title, p.url, p.docType)
  }

  /** Puts a body back on a projected post. */
  function WithBody(q: PostWithoutBody, body: string): Post
  {
    Post(q.id, q.raw, q.author, q.bannerUrl, q.description, q.publishedAt,
         q.slug, q.tags, q.timeToRead, q.title, q.url, q.docType, body)
  }

  /** The projection loses nothing but the body. */
  lemma WithoutBodyKeepsFields(p: Post)
    ensures WithBody(WithoutBody(p), p.body) == p
  {
  }

  predicate SortedByDate(s: seq<Post>)
  {
    forall i, j :: 0 <= i < j < |s| ==> s[i].publishedAt >= s[j].publishedAt
  }

  /**
   * How many leading posts of `s` were published at the same time as `x` or
   * later: where a stable sort with `compareDesc` puts an element that comes
   * after all of `s` in the input.
   */
  function InsertionPoint(x: Post, s: seq<Post>): (j: nat)
    ensures j <= |s|
    ensures forall k :: 0 <= k < j ==> s[k].publishedAt >= x.publishedAt
    ensures j < |s| ==> s[j].publishedAt < x.publishedAt
    decreases |s|
  {
    if s == [] || s[0].publishedAt < x.publishedAt then 0
    else 1 + InsertionPoint(x, s[1..])
  }

  function Insert(x: Post, s: seq<Post>): seq<Post>
  {
    var j := InsertionPoint(x, s);
    s[..j] + [x] + s[j..]
  }

  lemma InsertPermutes(x: Post, s: seq<Post>)
    ensures multiset(Insert(x, s)) == multiset(s) + multiset{x}
  {
    var j := InsertionPoint(x, s);
    assert s == s[..j] + s[j..];
  }

  lemma InsertSorted(x: Post, s: seq<Post>)
    requires SortedByDate(s)
    ensures SortedByDate(Insert(x, s))
  {
    var j := InsertionPoint(x, s);
    var r := Insert(x, s);
    assert |r| == |s| + 1;
    assert forall k :: 0 <= k < |r| ==> r[k] == if k < j then s[k] else if k == j then x else s[k - 1];
    assert forall k :: j <= k < |s| ==> s[k].publishedAt < x.publishedAt by {
      forall k | j <= k < |s| ensures s[k].publishedAt < x.publishedAt {
        assert s[j].publishedAt >= s[k].publishedAt;
      }
    }
  }

  /** The stable descending-date order of `s`: each post is inserted after those before it. */
  function SortByDate(s: seq<Post>): (r: seq<Post>)
    ensures |r| == |s|
    decreases |s|
  {
    if s == [] then [] else Insert(s[|s| - 1], SortByDate(s[..|s| - 1]))
  }

  /** The sort only reorders: the result is a permutation of the input. */
  lemma {:induction false} SortByDatePermutes(s: seq<Post>)
    ensures multiset(SortByDate(s)) == multiset(s)
    decreases |s|
  {
    if s != [] {
      var init, x := s[..|s| - 1], s[|s| - 1];
      assert s == init + [x];
      SortByDatePermutes(init);
      InsertPermutes(x, SortByDate(init));
    }
  }

  /** The result is ordered by publication date, most recent first. */
  lemma {:induction false} SortByDateSorted(s: seq<Post>)
    ensures SortedByDate(SortByDate(s))
    decreases |s|
  {
    if s != [] {
      var init := s[..|s| - 1];
      SortByDateSorted(init);
      InsertSorted(s[|s| - 1], SortByDate(init));
    }
  }

  /** Sorting one more element of the input inserts it into the sorted prefix. */
  lemma SortByDateStep(s: seq<Post>, i: nat)
    requires i < |s|
    ensures SortByDate(s[..i + 1]) == Insert(s[i], SortByDate(s[..i]))
  {
    var t := s[..i + 1];
    assert t[..|t| - 1] == s[..i] && t[|t| - 1] == s[i];
  }

  /** The insertion point is the only index that splits `s` into newer-or-equal and older posts. */
  lemma {:induction false} InsertionPointUnique(x: Post, s: seq<Post>, j: nat)
    requires j <= |s|
    requires forall k :: 0 <= k < j ==> s[k].publishedAt >= x.publishedAt
    requires j < |s| ==> s[j].publishedAt < x.publishedAt
    ensures InsertionPoint(x, s) == j
    decreases j
  {
    if j > 0 {
      InsertionPointUnique(x, s[1..], j - 1);
    }
  }

  lemma InsertLast(x: Post, s: seq<Post>)
    requires forall k :: 0 <= k < |s| ==> s[k].publishedAt >= x.publishedAt
    ensures Insert(x, s) == s + [x]
  {
    InsertionPointUnique(x, s, |s|);
    assert s[..|s|] == s && s[|s|..] == [];
  }

  /** Sorting what is already in date order returns it unchanged. */
  lemma {:induction false} SortedIsFixpoint(s: seq<Post>)
    requires SortedByDate(s)
    ensures SortByDate(s) == s
    decreases |s|
  {
    if s != [] {
      var init, x := s[..|s| - 1], s[|s| - 1];
      SortedIsFixpoint(init);
      InsertLast(x, init);
      assert init + [x] == s;
    }
  }

  /** Sorting is idempotent. */
  lemma SortByDateIdempotent(s: seq<Post>)
    ensures SortByDate(SortByDate(s)) == SortByDate(s)
  {
    SortByDateSorted(s);
    SortedIsFixpoint(SortByDate(s));
  }

  function PublishedAt(d: int): Post -> bool
  {
    (p: Post) => p.publishedAt == d
  }

  /** Behind the insertion point of a sorted sequence every post is strictly older than `x`. */
  lemma OlderAfterInsertionPoint(x: Post, s: seq<Post>, d: int)
    requires SortedByDate(s) && x.publishedAt == d
    ensures Filter(s[InsertionPoint(x, s)..], PublishedAt(d)) == []
  {
    var j := InsertionPoint(x, s);
    forall y | y in s[j..] ensures !PublishedAt(d)(y) {
      var k :| j <= k < |s| && s[k] == y;
      assert s[j].publishedAt >= s[k].publishedAt;
    }
    FilterKeepsNone(s[j..], PublishedAt(d));
  }

  /** Filtering an insertion: the part before the insertion point, `x`, then the rest. */
  lemma FilterInsert(x: Post, s: seq<Post>, f: Post -> bool)
    ensures var j := InsertionPoint(x, s);
      && Filter(Insert(x, s), f) == Filter(s[..j], f) + (if f(x) then [x] else []) + Filter(s[j..], f)
      && Filter(s, f) == Filter(s[..j], f) + Filter(s[j..], f)
  {
    var j := InsertionPoint(x, s);
    assert s == s[..j] + s[j..];
    FilterConcat(s[..j], s[j..], f);
    FilterAround(s[..j], x, s[j..], f);
  }

  lemma InsertStable(x: Post, s: seq<Post>, d: int)
    requires SortedByDate(s)
    ensures Filter(Insert(x, s), PublishedAt(d))
         == Filter(s, PublishedAt(d)) + if x.publishedAt == d then [x] else []
  {
    var f := PublishedAt(d);
    var j := InsertionPoint(x, s);
    FilterInsert(x, s, f);
    var fb, fa := Filter(s[..j], f), Filter(s[j..], f);
    if x.publishedAt == d {
      OlderAfterInsertionPoint(x, s, d);
      assert fb + [x] + fa == (fb + fa) + [x] by {
        assert fa == [];
      }
    } else {
      assert fb + [] + fa == fb + fa;
    }
  }

  /** The sort is stable: posts published at the same time keep their relative order. */
  lemma {:induction false} SortByDateStable(s: seq<Post>, d: int)
    ensures Filter(SortByDate(s), PublishedAt(d)) == Filter(s, PublishedAt(d))
    decreases |s|
  {
    if s != [] {
      var init, x := s[..|s| - 1], s[|s| - 1];
      SortByDateStable(init, d);
      SortByDateSorted(init);
      InsertStable(x, SortByDate(init), d);
      assert init + [x] == s;
      FilterConcat(init, [x], PublishedAt(d));
    }
  }

  /**
   * `slice(0, n ? n : allPosts.length)`: an absent or zero `n` means the whole
   * length; a negative end counts back from the end; ends are clamped to the length.
   */
  function SliceEnd(len: nat, n: Option<int>): (e: nat)
    ensures e <= len
    ensures n == None || n == Some(0) ==> e == len
    ensures n.Some? && n.value > 0 ==> e == if n.value < len then n.value else len
    ensures n.Some? && n.value < 0 ==> e == if len + n.value > 0 then len + n.value else 0
  {
    var end := if n.Some? && n.value != 0 then n.value else len;
    if end < 0 then (if len + end > 0 then len + end else 0)
    else if end < len then end
    else len
  }

  /** `.slice(0, n ? n : length).map(...)` applied to the sorted posts. */
  function SliceAndProject(sorted: seq<Post>, n: Option<int>): (r: seq<PostWithoutBody>)
    ensures |r| == SliceEnd(|sorted|, n)
    ensures forall i :: 0 <= i < |r| ==> WithBody(r[i], sorted[i].body) == sorted[i]
  {
    seq(SliceEnd(|sorted|, n), i requires 0 <= i < SliceEnd(|sorted|, n) => WithoutBody(sorted[i]))
  }

  /** What `getSortedPosts(n)` returns for the posts `all`, in whatever order they were loaded. */
  function SortedPosts(all: seq<Post>, n: Option<int>): (r: seq<PostWithoutBody>)
    ensures |r| == SliceEnd(|all|, n)
    ensures forall i, j :: 0 <= i < j < |r| ==> r[i].publishedAt >= r[j].publishedAt
    ensures forall i :: 0 <= i < |r| ==> WithBody(r[i], SortByDate(all)[i].body) == SortByDate(all)[i]
  {
    SortByDateSorted(all);
    SliceAndProject(SortByDate(all), n)
  }

  /**
   * Calling `getSortedPosts` again on the array the first call sorted gives the
   * same posts: the array is already in order and the sort is stable.
   */
  lemma SecondCallSameResult(all: seq<Post>, n: Option<int>)
    ensures SortedPosts(SortByDate(all), n) == SortedPosts(all, n)
  {
    SortByDateIdempotent(all);
  }

  /**
   * `allPosts.sort(compareDesc on publishedAt)`: reorders the shared array in place.
   * An insertion sort stands for the engine's sort; any stable sort gives this order.
   */
  method SortInPlace(a: array<Post>)
    modifies a
    ensures a[..] == SortByDate(old(a[..]))
  {
    ghost var input := a[..];
    var i := 0;
    while i < a.Length
      invariant 0 <= i <= a.Length
      invariant a[..i] == SortByDate(input[..i])
      invariant a[i..] == input[i..]
    {
      ghost var before := a[..];
      assert before[..i] == SortByDate(input[..i]) && before[i] == input[i];
      SortByDateSorted(input[..i]);
      SortByDateStep(input, i);
      InsertInPlace(a, i);
      assert a[i + 1..] == before[i + 1..] == input[i + 1..];
      i := i + 1;
    }
    assert input[..a.Length] == input;
  }

  /**
   * The shifting loop of one insertion pass: moves the posts of the date-ordered
   * prefix `a[..i]` that are older than `x` one place to the right, and returns
   * the gap left for `x`; every post left of the gap is not older than `x`.
   */
  method ShiftOlder(a: array<Post>, i: nat, x: Post) returns (j: nat)
    requires i < a.Length && SortedByDate(a[..i])
    modifies a
    ensures j <= i
    ensures forall k :: 0 <= k < j ==> a[k] == old(a[k])
    ensures forall k :: j < k <= i ==> a[k] == old(a[k - 1])
    ensures forall k :: i < k < a.Length ==> a[k] == old(a[k])
    ensures forall k :: j <= k < i ==> old(a[k]).publishedAt < x.publishedAt
    ensures forall k :: 0 <= k < j ==> old(a[k]).publishedAt >= x.publishedAt
  {
    j := i;
    while j > 0 && a[j - 1].publishedAt < x.publishedAt
      invariant 0 <= j <= i
      invariant forall k :: 0 <= k < j ==> a[k] == old(a[k])
      invariant forall k :: j < k <= i ==> a[k] == old(a[k - 1])
      invariant forall k :: i < k < a.Length ==> a[k] == old(a[k])
      invariant forall k :: j <= k < i ==> old(a[k]).publishedAt < x.publishedAt
    {
      a[j] := a[j - 1];
      j := j - 1;
    }
    if j > 0 {
      assert old(a[..i])[j - 1] == old(a[j - 1]);
      assert forall k :: 0 <= k < j ==> old(a[..i])[k] == old(a[k]);
    }
  }

  /** One pass of the insertion sort: moves `a[i]` back into the date-ordered prefix `a[..i]`. */
  method InsertInPlace(a: array<Post>, i: nat)
    requires i < a.Length && SortedByDate(a[..i])
    modifies a
    ensures a[..i + 1] == Insert(old(a[i]), old(a[..i]))
    ensures a[i + 1..] == old(a[i + 1..])
  {
    var x := a[i];
    ghost var sorted := a[..i];
    var j := ShiftOlder(a, i, x);
    a[j] := x;
    InsertionPointUnique(x, sorted, j);
    Spliced(a[..i + 1], sorted, j, x);
    assert a[i + 1..] == old(a[i + 1..]) by {
      assert forall k :: i < k < a.Length ==> a[k] == old(a[k]);
    }
  }

  /** A sequence that agrees with `s` before `j`, holds `x` at `j` and `s` shifted after it. */
  lemma Spliced(r: seq<Post>, s: seq<Post>, j: nat, x: Post)
    requires j <= |s| && |r| == |s| + 1
    requires forall k :: 0 <= k < j ==> r[k] == s[k]
    requires r[j] == x
    requires forall k :: j < k < |r| ==> r[k] == s[k - 1]
    ensures r == s[..j] + [x] + s[j..]
  {
  }

  /** `getSortedPosts(n)`: sorts `allPosts` in place, then returns a body-less copy of its first posts. */
  method GetSortedPosts(allPosts: array<Post>, n: Option<int>) returns (r: seq<PostWithoutBody>)
    modifies allPosts
    ensures allPosts[..] == SortByDate(old(allPosts[..]))
    ensures r == SortedPosts(old(allPosts[..]), n)
  {
    SortInPlace(allPosts);
    r := SliceAndProject(allPosts[..], n);
  }
}
