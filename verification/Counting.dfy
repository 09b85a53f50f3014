/** Sequences without duplicates, and finite counting arguments. */
module Counting {

  ghost predicate Distinct<T>(xs: seq<T>) {
    forall i, j :: 0 <= i < j < |xs| ==> xs[i] != xs[j]
  }

  /** Insertion into an ordered set: appended unless it is there. */
  function AddNew<T(==)>(xs: seq<T>, x: T): (r: seq<T>) {
    if x in xs then xs else xs + [x]
  }

  function ToSet<T(!new)>(xs: seq<T>): (r: set<T>)
    ensures forall x :: x in r <==> x in xs
    ensures |r| <= |xs|
  {
    if xs == [] then {} else ToSet(xs[..|xs| - 1]) + {xs[|xs| - 1]}
  }

  lemma {:induction false} DistinctSize<T(!new)>(xs: seq<T>)
    requires Distinct(xs)
    ensures |ToSet(xs)| == |xs|
  {
    if xs != [] {
      DistinctSize(xs[..|xs| - 1]);
    }
  }

  /** The numbers below n. */
  function Upto(n: nat): (r: set<nat>)
    ensures forall x: nat :: x in r <==> x < n
    ensures |r| == n
  {
    if n == 0 then {} else Upto(n - 1) + {n - 1}
  }

  lemma SubsetOfSameSize<T>(a: set<T>, b: set<T>)
    requires a <= b && |a| >= |b|
    ensures a == b
  {
    assert |b - a| == |b| - |a|;
    assert b - a == {};
  }

  /** n different numbers below n are all numbers below n. */
  lemma Pigeonhole(xs: seq<nat>, n: nat, a: nat)
    requires Distinct(xs) && |xs| == n && (forall x :: x in xs ==> x < n) && a < n
    ensures a in xs
  {
    DistinctSize(xs);
    SubsetOfSameSize(ToSet(xs), Upto(n));
    assert a in Upto(n);
  }
}
