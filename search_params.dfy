/**
 * The query string as the `URLSearchParams` class of the WHATWG URL Standard
 * (section 6.2) sees it: an ordered list of name-value pairs. Only the
 * operations the blog's components call are modelled: `getAll`, `append`,
 * `set`, `delete(name)` and `delete(name, value)`.
 */
module SearchParams {
  import opened Sequences

  datatype Param = Param(name: string, value: string)

  /** `getAll(name)`: the values of the pairs named `name`, in list order. */
  function ValuesNamed(ps: seq<Param>, name: string): (vs: seq<string>)
    ensures |vs| <= |ps|
    ensures forall v :: v in vs <==> Param(name, v) in ps
    decreases |ps|
  {
    if ps == [] then []
    else
      assert ps == [ps[0]] + ps[1..];
      (if ps[0].name == name then [ps[0].value] else []) + ValuesNamed(ps[1..], name)
  }

  lemma {:induction false} ValuesNamedConcat(a: seq<Param>, b: seq<Param>, name: string)
    ensures ValuesNamed(a + b, name) == ValuesNamed(a, name) + ValuesNamed(b, name)
    decreases |a|
  {
    if a == [] {
      assert a + b == b;
    } else {
      assert (a + b)[1..] == a[1..] + b;
      ValuesNamedConcat(a[1..], b, name);
    }
  }

  /** A list without a pair named `name` has no values for it. */
  lemma {:induction false} ValuesNamedAbsent(ps: seq<Param>, name: string)
    requires forall k :: 0 <= k < |ps| ==> ps[k].name != name
    ensures ValuesNamed(ps, name) == []
    decreases |ps|
  {
    if ps != [] {
      ValuesNamedAbsent(ps[1..], name);
    }
  }

  function NameIsNot(name: string): Param -> bool
  {
    (p: Param) => p.name != name
  }

  function IsNotPair(name: string, value: string): Param -> bool
  {
    (p: Param) => p != Param(name, value)
  }

  /** `delete(name)`: removes every pair named `name`. */
  function WithoutName(ps: seq<Param>, name: string): (r: seq<Param>)
    ensures forall p :: p in r <==> p in ps && p.name != name
    ensures forall p :: multiset(r)[p] == if p.name == name then 0 else multiset(ps)[p]
    ensures IsSubseq(r, ps)
  {
    FilterMembers(ps, NameIsNot(name));
    FilterCounts(ps, NameIsNot(name));
    FilterIsSubseq(ps, NameIsNot(name));
    Filter(ps, NameIsNot(name))
  }

  /** `delete(name, value)`: removes every pair with this name and this value. */
  function WithoutPair(ps: seq<Param>, name: string, value: string): (r: seq<Param>)
    ensures forall p :: p in r <==> p in ps && p != Param(name, value)
    ensures forall p :: multiset(r)[p] == if p == Param(name, value) then 0 else multiset(ps)[p]
    ensures IsSubseq(r, ps)
  {
    FilterMembers(ps, IsNotPair(name, value));
    FilterCounts(ps, IsNotPair(name, value));
    FilterIsSubseq(ps, IsNotPair(name, value));
    Filter(ps, IsNotPair(name, value))
  }

  /** The position of the first pair named `name`, or `|ps|` when there is none. */
  function IndexOfName(ps: seq<Param>, name: string): (i: nat)
    ensures i <= |ps|
    ensures i < |ps| ==> ps[i].name == name
    ensures forall k :: 0 <= k < i ==> ps[k].name != name
    decreases |ps|
  {
    if ps == [] || ps[0].name == name then 0 else 1 + IndexOfName(ps[1..], name)
  }

  lemma NoValuesBeforeIndex(ps: seq<Param>, name: string)
    ensures ValuesNamed(ps[..IndexOfName(ps, name)], name) == []
  {
    ValuesNamedAbsent(ps[..IndexOfName(ps, name)], name);
  }

  /**
   * `set(name, value)`: when a pair named `name` exists, the first such pair
   * takes the new value and the others are removed; otherwise a pair is appended.
   * The contract says where the pair lands: in place of the first pair named
   * `name`, with everything before it untouched, or at the end.
   */
  function WithSet(ps: seq<Param>, name: string, value: string): (r: seq<Param>)
    ensures var i := IndexOfName(ps, name);
      && (i < |ps| ==> i < |r| && r[..i] == ps[..i] && r[i] == Param(name, value)
                       && IndexOfName(r, name) == i)
      && (i == |ps| ==> r == ps + [Param(name, value)] && IndexOfName(r, name) == i)
  {
    var i := IndexOfName(ps, name);
    if i < |ps| then
      var r := ps[..i] + [Param(name, value)] + WithoutName(ps[i + 1..], name);
      assert r[..i] == ps[..i] && r[i] == Param(name, value);
      IndexOfNameAt(r, name, i);
      r
    else
      var r := ps + [Param(name, value)];
      assert forall k :: 0 <= k < i ==> r[k] == ps[k];
      IndexOfNameAt(r, name, i);
      r
  }

  /** After `set`, `name` has exactly the one value. */
  lemma WithSetValues(ps: seq<Param>, name: string, value: string)
    ensures ValuesNamed(WithSet(ps, name, value), name) == [value]
  {
    var i := IndexOfName(ps, name);
    var p := Param(name, value);
    NoValuesBeforeIndex(ps, name);
    assert ValuesNamed([p], name) == [value] by {
      assert [p][1..] == [];
    }
    if i < |ps| {
      var before, after := ps[..i], WithoutName(ps[i + 1..], name);
      ValuesNamedConcat(before + [p], after, name);
      ValuesNamedConcat(before, [p], name);
      NoValuesLeft(ps[i + 1..], name);
      calc {
        ValuesNamed(WithSet(ps, name, value), name);
        ValuesNamed(before + [p] + after, name);
        ValuesNamed(before, name) + ValuesNamed([p], name) + ValuesNamed(after, name);
        [] + [value] + [];
      }
    } else {
      assert ps[..i] == ps;
      ValuesNamedConcat(ps, [p], name);
    }
  }

  /** `set` leaves every pair with another name where it was. */
  lemma WithSetOthers(ps: seq<Param>, name: string, value: string)
    ensures WithoutName(WithSet(ps, name, value), name) == WithoutName(ps, name)
  {
    var i := IndexOfName(ps, name);
    var p := Param(name, value);
    if i < |ps| {
      var before, after := ps[..i], ps[i + 1..];
      assert ps == before + [ps[i]] + after;
      WithoutNameAround(before, p, WithoutName(after, name), name);
      WithoutNameAround(before, ps[i], after, name);
      WithoutNameIdempotent(after, name);
    } else {
      WithoutNameAround(ps, p, [], name);
      assert ps + [p] + [] == ps + [p];
      WithoutNameAround(ps, p, [], name);
    }
  }

  /** The first pair named `name` is the one at `i` when none comes before it. */
  lemma {:induction false} IndexOfNameAt(ps: seq<Param>, name: string, i: nat)
    requires i < |ps| && ps[i].name == name
    requires forall k :: 0 <= k < i ==> ps[k].name != name
    ensures IndexOfName(ps, name) == i
    decreases i
  {
    if i > 0 {
      IndexOfNameAt(ps[1..], name, i - 1);
    }
  }

  lemma NoValuesLeft(ps: seq<Param>, name: string)
    ensures ValuesNamed(WithoutName(ps, name), name) == []
  {
    var r := WithoutName(ps, name);
    assert forall k :: 0 <= k < |r| ==> r[k] in r;
    ValuesNamedAbsent(r, name);
  }

  lemma WithoutNameAround(a: seq<Param>, p: Param, b: seq<Param>, name: string)
    requires p.name == name
    ensures WithoutName(a + [p] + b, name) == WithoutName(a, name) + WithoutName(b, name)
  {
    FilterAround(a, p, b, NameIsNot(name));
  }

  lemma WithoutNameIdempotent(ps: seq<Param>, name: string)
    ensures WithoutName(WithoutName(ps, name), name) == WithoutName(ps, name)
  {
    FilterIdempotent(ps, NameIsNot(name));
  }

  lemma WithoutNameCommute(ps: seq<Param>, a: string, b: string)
    ensures WithoutName(WithoutName(ps, a), b) == WithoutName(WithoutName(ps, b), a)
  {
    FilterCommute(ps, NameIsNot(a), NameIsNot(b));
  }

  /** Removing one name does not change the values of another. */
  lemma {:induction false} ValuesNamedWithoutOther(ps: seq<Param>, removed: string, name: string)
    requires removed != name
    ensures ValuesNamed(WithoutName(ps, removed), name) == ValuesNamed(ps, name)
    decreases |ps|
  {
    if ps != [] {
      ValuesNamedWithoutOther(ps[1..], removed, name);
      var p, rest := ps[0], ps[1..];
      var kept := if p.name != removed then [p] else [];
      assert WithoutName(ps, removed) == kept + WithoutName(rest, removed);
      ValuesNamedConcat(kept, WithoutName(rest, removed), name);
      assert [p][1..] == [];
    }
  }

  lemma WithoutPairIdempotent(ps: seq<Param>, name: string, value: string)
    ensures WithoutPair(WithoutPair(ps, name, value), name, value) == WithoutPair(ps, name, value)
  {
    FilterIdempotent(ps, IsNotPair(name, value));
  }

  /** Deleting a pair undoes appending it. */
  lemma WithoutPairAppended(ps: seq<Param>, name: string, value: string)
    ensures WithoutPair(ps + [Param(name, value)], name, value) == WithoutPair(ps, name, value)
  {
    FilterConcat(ps, [Param(name, value)], IsNotPair(name, value));
    FilterSingleton(Param(name, value), IsNotPair(name, value));
  }

  /** Deleting a pair that is not there changes nothing. */
  lemma WithoutAbsentPair(ps: seq<Param>, name: string, value: string)
    requires Param(name, value) !in ps
    ensures WithoutPair(ps, name, value) == ps
  {
    FilterKeepsAll(ps, IsNotPair(name, value));
  }

  /** A list that already has `value` as the only value of `name` is left unchanged by `set`. */
  lemma {:induction false} WithSetFixpoint(ps: seq<Param>, name: string, value: string)
    requires ValuesNamed(ps, name) == [value]
    ensures WithSet(ps, name, value) == ps
  {
    var i := IndexOfName(ps, name);
    assert Param(name, value) in ps;
    var before, after := ps[..i], ps[i + 1..];
    assert ps == before + [ps[i]] + after;
    NoValuesBeforeIndex(ps, name);
    ValuesNamedConcat(before + [ps[i]], after, name);
    ValuesNamedConcat(before, [ps[i]], name);
    assert ps[i] == Param(name, value);
    assert ValuesNamed(after, name) == [];
    assert forall q :: q in after ==> NameIsNot(name)(q);
    FilterKeepsAll(after, NameIsNot(name));
  }

  /** The `URLSearchParams` object a component builds and then edits in place. */
  class URLSearchParams {
    var list: seq<Param>

    /** `new URLSearchParams(init)`, with `init` already parsed into pairs. */
    constructor (init: seq<Param>)
      ensures list == init
    {
      list := init;
    }

    method Append(name: string, value: string)
      modifies this
      ensures list == old(list) + [Param(name, value)]
    {
      list := list + [Param(name, value)];
    }

    method Set(name: string, value: string)
      modifies this
      ensures list == WithSet(old(list), name, value)
    {
      list := WithSet(list, name, value);
    }

    method Delete(name: string)
      modifies this
      ensures list == WithoutName(old(list), name)
    {
      list := WithoutName(list, name);
    }

    /** The two-argument form `delete(name, value)`. */
    method DeleteValue(name: string, value: string)
      modifies this
      ensures list == WithoutPair(old(list), name, value)
    {
      list := WithoutPair(list, name, value);
    }
  }
}
