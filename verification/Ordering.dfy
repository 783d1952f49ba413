/** Listing a finite set in ascending order: what `order_by` on a unique key returns. */
module Ordering {
  predicate Distinct<T(==)>(xs: seq<T>) {
    forall i, j :: 0 <= i < j < |xs| ==> xs[i] != xs[j]
  }

  lemma {:induction false} LeastExists(s: set<nat>, m: nat)
    requires m in s
    ensures exists least :: least in s && forall x :: x in s ==> least <= x
    decreases m
  {
    if x :| x in s && x < m {
      LeastExists(s, x);
    } else {
      assert forall x :: x in s ==> m <= x;
    }
  }

  function Least(s: set<nat>): (m: nat)
    requires s != {}
    ensures m in s && forall x :: x in s ==> m <= x
  {
    assert exists least :: least in s && forall x :: x in s ==> least <= x by {
      var m :| m in s;
      LeastExists(s, m);
    }
    var m :| m in s && forall x :: x in s ==> m <= x;
    m
  }

  /** The members of `s` in ascending order. */
  function Ascend(s: set<nat>): (xs: seq<nat>)
    ensures forall i, j :: 0 <= i < j < |xs| ==> xs[i] < xs[j]
    ensures forall x :: x in xs <==> x in s
    ensures |xs| == |s|
    decreases |s|
  {
    if s == {} then [] else
      var m := Least(s);
      var rest := Ascend(s - {m});
      assert forall i :: 0 <= i < |rest| ==> rest[i] in rest;
      [m] + rest
  }

  lemma {:induction false} LeastByExists(ids: set<nat>, key: nat -> nat, id: nat)
    requires id in ids
    ensures exists least :: least in ids && forall x :: x in ids ==> key(least) <= key(x)
    decreases key(id)
  {
    if x :| x in ids && key(x) < key(id) {
      LeastByExists(ids, key, x);
    } else {
      assert forall x :: x in ids ==> key(id) <= key(x);
    }
  }

  ghost function LeastBy(ids: set<nat>, key: nat -> nat): (least: nat)
    requires ids != {}
    ensures least in ids && forall x :: x in ids ==> key(least) <= key(x)
  {
    var id :| id in ids;
    LeastByExists(ids, key, id);
    var least :| least in ids && forall x :: x in ids ==> key(least) <= key(x);
    least
  }

  /** `order_by` on a key that is unique among `ids`. */
  ghost function ArrangeBy(ids: set<nat>, key: nat -> nat): (xs: seq<nat>)
    requires forall x, y :: x in ids && y in ids && key(x) == key(y) ==> x == y
    ensures forall i, j :: 0 <= i < j < |xs| ==> key(xs[i]) < key(xs[j])
    ensures forall x :: x in xs <==> x in ids
    decreases |ids|
  {
    if ids == {} then [] else
      var least := LeastBy(ids, key);
      var rest := ArrangeBy(ids - {least}, key);
      assert forall i :: 0 <= i < |rest| ==> rest[i] in rest;
      [least] + rest
  }

  ghost predicate Sorted<T>(xs: seq<T>, less: (T, T) -> bool) {
    forall i, j :: 0 <= i < j < |xs| ==> less(xs[i], xs[j])
  }

  ghost predicate SameMembers<T(!new)>(xs: seq<T>, ys: seq<T>) {
    forall x :: x in xs <==> x in ys
  }

  lemma RestOfSorted<T(!new)>(xs: seq<T>, less: (T, T) -> bool)
    requires xs != [] && Sorted(xs, less) && forall x :: !less(x, x)
    ensures Sorted(xs[1..], less)
    ensures forall x :: x in xs[1..] <==> x in xs && x != xs[0]
  {
    forall x | x in xs && x != xs[0]
      ensures x in xs[1..]
    {
      var i :| 0 <= i < |xs| && xs[i] == x;
      assert xs[1..][i - 1] == x;
    }
    assert forall i :: 0 < i < |xs| ==> less(xs[0], xs[i]);
  }

  /** A strict order admits one sorted listing of the same members. */
  lemma {:induction false} SortedIsUnique<T(!new)>(xs: seq<T>, ys: seq<T>, less: (T, T) -> bool)
    requires Sorted(xs, less) && Sorted(ys, less) && SameMembers(xs, ys)
    requires forall x, y :: less(x, y) ==> !less(y, x)
    ensures xs == ys
    decreases |xs|
  {
    if ys != [] {
      assert ys[0] in ys;
      assert ys[0] in xs;
    }
    if xs != [] {
      assert xs[0] in xs;
      assert ys[0] in ys;
      assert forall i :: 0 < i < |ys| ==> less(ys[0], ys[i]);
      assert forall j :: 0 < j < |xs| ==> less(xs[0], xs[j]);
      RestOfSorted(xs, less);
      RestOfSorted(ys, less);
      SortedIsUnique(xs[1..], ys[1..], less);
    }
  }
}
