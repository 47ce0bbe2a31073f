/**
 Sorted enumerations of finite sets under a strict total order. A library sort
 of distinct items and an ordered index (a Redis sorted set, a `BTreeMap`) both
 yield the one ascending sequence that `Enumerate` names.
 */
module Ordering {

  ghost predicate StrictTotalOrder<T(!new)>(less: (T, T) -> bool) {
    && (forall a :: !less(a, a))
    && (forall a, b, c :: less(a, b) && less(b, c) ==> less(a, c))
    && (forall a, b :: a == b || less(a, b) || less(b, a))
  }

  ghost predicate Distinct<T>(s: seq<T>) {
    forall i, j :: 0 <= i < j < |s| ==> s[i] != s[j]
  }

  ghost predicate Ascending<T>(less: (T, T) -> bool, s: seq<T>) {
    forall i, j :: 0 <= i < j < |s| ==> less(s[i], s[j])
  }

  ghost predicate IsLeast<T>(less: (T, T) -> bool, m: T, items: set<T>) {
    m in items && forall x :: x in items && x != m ==> less(m, x)
  }

  lemma LeastExists<T(!new)>(less: (T, T) -> bool, items: set<T>) returns (m: T)
    requires StrictTotalOrder(less)
    requires items != {}
    ensures IsLeast(less, m, items)
    decreases items
  {
    var first :| first in items;
    var rest := items - {first};
    m := first;
    if rest != {} {
      var n := LeastExists(less, rest);
      if less(n, first) { m := n; }
      forall x | x in items && x != m ensures less(m, x) {
        assert x == first || x in rest;
      }
    } else {
      assert items == {first};
    }
  }

  /** The ascending sequence of the members of `items`. */
  function Enumerate<T(!new, ==)>(less: (T, T) -> bool, items: set<T>): (s: seq<T>)
    requires StrictTotalOrder(less)
    ensures Ascending(less, s)
    ensures forall x :: x in s <==> x in items
    ensures |s| == |items|
    decreases items
  {
    if items == {} then []
    else
      assert exists m :: IsLeast(less, m, items) by { var m := LeastExists(less, items); }
      var m :| m in items && forall x :: x in items && x != m ==> less(m, x);
      [m] + Enumerate(less, items - {m})
  }

  /** An ascending sequence is determined by its members. */
  lemma {:induction false} AscendingUnique<T(!new)>(less: (T, T) -> bool, p: seq<T>, q: seq<T>)
    requires StrictTotalOrder(less)
    requires Ascending(less, p) && Ascending(less, q)
    requires forall x :: x in p <==> x in q
    ensures p == q
  {
    assert p == [] <==> q == [] by {
      if q != [] { assert q[0] in q; }
      if p != [] { assert p[0] in p; }
    }
    if p != [] {
      assert p[0] in q;
      assert q[0] in p;
      assert p[0] == q[0];
      forall x ensures x in p[1..] <==> x in q[1..] {
        if x in p[1..] { assert x in p && less(p[0], x); }
        if x in q[1..] { assert x in q && less(q[0], x); }
      }
      AscendingUnique(less, p[1..], q[1..]);
      assert p == [p[0]] + p[1..] && q == [q[0]] + q[1..];
    }
  }

  /** Orders that agree everywhere enumerate alike. */
  lemma SameOrderSameEnumeration<T(!new)>(less: (T, T) -> bool, other: (T, T) -> bool, items: set<T>)
    requires StrictTotalOrder(less) && StrictTotalOrder(other)
    requires forall a, b :: less(a, b) == other(a, b)
    ensures Enumerate(less, items) == Enumerate(other, items)
  {
    AscendingUnique(less, Enumerate(less, items), Enumerate(other, items));
  }
}
