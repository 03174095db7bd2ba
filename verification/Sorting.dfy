/** Canonical ascending sequences: what `sort` followed by `dedup` yields. */
module Sorting {
  import opened Base

  function Elems<T>(s: seq<T>): set<T> {
    set x | x in s
  }

  predicate Distinct<T(==)>(s: seq<T>) {
    forall i, j :: 0 <= i < j < |s| ==> s[i] != s[j]
  }

  /** Inserts into an ascending sequence, dropping duplicates. */
  function Insert(s: seq<nat>, x: nat): (r: seq<nat>)
    requires Ascending(s)
    ensures Ascending(r) && forall y :: y in r <==> y == x || y in s
  {
    if s == [] then [x]
    else if s[|s| - 1] < x then s + [x]
    else if s[|s| - 1] == x then s
    else
      var t := Insert(s[..|s| - 1], x);
      assert forall y :: y in s <==> y in s[..|s| - 1] || y == s[|s| - 1];
      assert forall i :: 0 <= i < |t| ==> t[i] in t;
      t + [s[|s| - 1]]
  }

  function SortDedup(xs: seq<nat>): (r: seq<nat>)
    ensures Ascending(r) && Elems(r) == Elems(xs)
  {
    if xs == [] then []
    else
      assert forall y :: y in xs <==> y in xs[..|xs| - 1] || y == xs[|xs| - 1];
      var t := SortDedup(xs[..|xs| - 1]);
      assert forall y :: y in t <==> y in Elems(t);
      Insert(t, xs[|xs| - 1])
  }

  lemma MemberElems<T>(s: seq<T>, x: T)
    ensures x in s <==> x in Elems(s)
  {
  }

  /** An ascending sequence is determined by its elements, so canonical order is order-independent. */
  lemma {:induction false} AscendingUnique(a: seq<nat>, b: seq<nat>)
    requires Ascending(a) && Ascending(b) && Elems(a) == Elems(b)
    ensures a == b
    decreases |a|
  {
    DistinctSize(a);
    DistinctSize(b);
    if a != [] {
      assert a[0] in Elems(b) && b[0] in Elems(a);
      assert a[0] in b && b[0] in a;
      assert a[0] == b[0];
      forall x
        ensures x in Elems(a[1..]) <==> x in Elems(b[1..])
      {
        assert a == [a[0]] + a[1..] && b == [b[0]] + b[1..];
        assert x in Elems(a) <==> x in Elems(b);
      }
      AscendingUnique(a[1..], b[1..]);
    }
  }

  lemma SortOfAscending(a: seq<nat>)
    requires Ascending(a)
    ensures SortDedup(a) == a
  {
    AscendingUnique(SortDedup(a), a);
  }

  lemma {:induction false} DistinctSize<T>(s: seq<T>)
    requires Distinct(s)
    ensures |Elems(s)| == |s|
  {
    if s != [] {
      var t := s[..|s| - 1];
      DistinctSize(t);
      assert s == t + [s[|s| - 1]];
      assert Elems(s) == Elems(t) + {s[|s| - 1]};
    }
  }

  /** Lists a set in ascending order, as collecting hash-map keys and sorting them does. */
  method SortedKeys(s: set<nat>) returns (r: seq<nat>)
    ensures Ascending(r) && Elems(r) == s
  {
    r := [];
    var rest := s;
    while rest != {}
      invariant Ascending(r) && Elems(r) + rest == s
      decreases rest
    {
      var x :| x in rest;
      r := Insert(r, x);
      rest := rest - {x};
    }
  }
}
