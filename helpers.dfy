/**
 * `getUniqueTagsFromPosts` (lib/helpers.ts): every post's tags flattened into one
 * list, then passed through a `Set` and back to an array. A JavaScript `Set`
 * iterates in insertion order, so the result keeps each tag's first occurrence.
 */
module Helpers {
  import opened SortedPosts

  predicate NoDuplicates<T(==)>(s: seq<T>)
  {
    forall i, j :: 0 <= i < j < |s| ==> s[i] != s[j]
  }

  /** The index of the first occurrence of `x` in `s`. */
  function FirstIndex<T(==)>(s: seq<T>, x: T): (i: nat)
    requires x in s
    ensures i < |s| && s[i] == x
    ensures forall k :: 0 <= k < i ==> s[k] != x
    decreases |s|
  {
    if s[0] == x then 0 else 1 + FirstIndex(s[1..], x)
  }

  /** `r` lists the distinct elements of `s` in the order they first appear there. */
  predicate InFirstOccurrenceOrder<T(==,!new)>(r: seq<T>, s: seq<T>)
  {
    (forall x :: x in r ==> x in s)
    && forall i, j :: 0 <= i < j < |r| ==> FirstIndex(s, r[i]) < FirstIndex(s, r[j])
  }

  /** `[].concat(...lists)`: `Array.prototype.flat` one level deep. */
  function Flatten<T>(lists: seq<seq<T>>): seq<T>
    decreases |lists|
  {
    if lists == [] then [] else Flatten(lists[..|lists| - 1]) + lists[|lists| - 1]
  }

  lemma {:induction false} FlattenMembers<T>(lists: seq<seq<T>>, x: T)
    ensures x in Flatten(lists) <==> exists i :: 0 <= i < |lists| && x in lists[i]
    decreases |lists|
  {
    if lists != [] {
      var init := lists[..|lists| - 1];
      FlattenMembers(init, x);
      if exists i :: 0 <= i < |init| && x in init[i] {
        var i :| 0 <= i < |init| && x in init[i];
        assert lists[i] == init[i];
      }
      if i :| 0 <= i < |lists| && x in lists[i] {
        if i < |init| {
          assert init[i] == lists[i];
        }
      }
    }
  }

  /** Adding the elements of `s` one by one to an insertion-ordered set. */
  function Distinct<T(==,!new)>(s: seq<T>): (r: seq<T>)
    ensures NoDuplicates(r)
    ensures forall x :: x in r <==> x in s
    ensures |r| <= |s|
    decreases |s|
  {
    if s == [] then []
    else
      var d := Distinct(s[..|s| - 1]);
      assert forall x :: x in s <==> x in s[..|s| - 1] || x == s[|s| - 1] by {
        assert s == s[..|s| - 1] + [s[|s| - 1]];
      }
      if s[|s| - 1] in d then d else d + [s[|s| - 1]]
  }

  /** A first occurrence inside a prefix is the first occurrence in the whole sequence. */
  lemma {:induction false} FirstIndexInPrefix<T>(s: seq<T>, n: nat, x: T)
    requires n <= |s| && x in s[..n]
    ensures FirstIndex(s, x) == FirstIndex(s[..n], x)
  {
    var k := FirstIndex(s[..n], x);
    assert s[k] == x;
  }

  lemma {:induction false} DistinctOrder<T(!new)>(s: seq<T>)
    ensures InFirstOccurrenceOrder(Distinct(s), s)
    decreases |s|
  {
    if s != [] {
      var init, y := s[..|s| - 1], s[|s| - 1];
      var d := Distinct(init);
      DistinctOrder(init);
      assert s[..|s| - 1] == init;
      forall x | x in d ensures FirstIndex(s, x) == FirstIndex(init, x) {
        FirstIndexInPrefix(s, |s| - 1, x);
      }
      if y !in d {
        assert y !in init;
        var r := d + [y];
        assert forall x :: x in r ==> x in s;
        assert FirstIndex(s, y) == |s| - 1;
        forall i, j | 0 <= i < j < |r| ensures FirstIndex(s, r[i]) < FirstIndex(s, r[j]) {
          if j < |d| {
            assert r[i] == d[i] && r[j] == d[j];
          } else {
            assert r[i] == d[i] && r[j] == y;
          }
        }
      }
    }
  }

  /** `posts.map((post) => post.tags).flat()`. */
  function AllTags(posts: seq<PostWithoutBody>): seq<string>
  {
    Flatten(seq(|posts|, i requires 0 <= i < |posts| => posts[i].tags))
  }

  lemma AllTagsMembers(posts: seq<PostWithoutBody>, t: string)
    ensures t in AllTags(posts) <==> exists i :: 0 <= i < |posts| && t in posts[i].tags
  {
    var lists := seq(|posts|, i requires 0 <= i < |posts| => posts[i].tags);
    assert AllTags(posts) == Flatten(lists);
    FlattenMembers(lists, t);
    assert forall i :: 0 <= i < |posts| ==> lists[i] == posts[i].tags;
  }

  /** `getUniqueTagsFromPosts(posts)`. */
  function UniqueTags(posts: seq<PostWithoutBody>): (tags: seq<string>)
    ensures NoDuplicates(tags)
    ensures forall t :: t in tags <==> exists i :: 0 <= i < |posts| && t in posts[i].tags
    ensures InFirstOccurrenceOrder(tags, AllTags(posts))
    ensures |tags| <= |AllTags(posts)|
    ensures posts == [] ==> tags == []
  {
    forall t ensures t in AllTags(posts) <==> exists i :: 0 <= i < |posts| && t in posts[i].tags {
      AllTagsMembers(posts, t);
    }
    DistinctOrder(AllTags(posts));
    Distinct(AllTags(posts))
  }
}
