/** Pigeonhole facts about positions and finite sets. */
module Counting {

  function Upto(n: nat): (s: set<nat>)
    ensures |s| == n && forall i: int :: i in s <==> 0 <= i < n
  {
    if n == 0 then {} else Upto(n - 1) + {n - 1}
  }

  ghost predicate Distinct<T>(xs: seq<T>) {
    forall i, j :: 0 <= i < j < |xs| ==> xs[i] != xs[j]
  }

  function Elements<T(!new)>(xs: seq<T>): (s: set<T>)
    ensures forall x :: x in s <==> x in xs
    ensures |s| <= |xs|
  {
    if xs == [] then {} else Elements(xs[..|xs| - 1]) + {xs[|xs| - 1]}
  }

  lemma DistinctInit<T(!new)>(xs: seq<T>)
    requires xs != []
    ensures Distinct(xs) <==> Distinct(xs[..|xs| - 1]) && xs[|xs| - 1] !in xs[..|xs| - 1]
  {
    var init, last := xs[..|xs| - 1], xs[|xs| - 1];
    if last in init {
      var i :| 0 <= i < |init| && init[i] == last;
      assert xs[i] == xs[|xs| - 1];
    }
    if !Distinct(init) {
      var i, j :| 0 <= i < j < |init| && init[i] == init[j];
      assert xs[i] == xs[j];
    }
    if Distinct(init) && last !in init {
      forall i, j | 0 <= i < j < |xs| ensures xs[i] != xs[j] {
        assert xs[i] == init[i] && (j < |init| ==> xs[j] == init[j]);
      }
    }
  }

  lemma {:induction false} DistinctCount<T(!new)>(xs: seq<T>)
    ensures |Elements(xs)| == |xs| <==> Distinct(xs)
  {
    if xs != [] {
      DistinctCount(xs[..|xs| - 1]);
      DistinctInit(xs);
      hide Distinct;
    }
  }

  lemma SubsetSize<T>(a: set<T>, b: set<T>)
    requires a <= b
    ensures |a| <= |b|
  {
    assert |b - a| == |b| - |a|;
  }

  lemma SubsetSameSize<T>(a: set<T>, b: set<T>)
    requires a <= b && |a| == |b|
    ensures a == b
  {
    assert |b - a| == |b| - |a|;
  }

  /** `n` distinct positions below `n` are all of them. */
  lemma Covers(order: seq<nat>, n: nat)
    requires |order| == n && Distinct(order)
    requires forall k :: 0 <= k < n ==> order[k] < n
    ensures forall i :: 0 <= i < n ==> i in order
  {
    DistinctCount(order);
    SubsetSameSize(Elements(order), Upto(n));
  }

  lemma OnlyElement(at: seq<nat>, x: nat)
    requires x in at
    requires forall k :: 0 <= k < |at| ==> at[k] == x
    requires forall j, k :: 0 <= j < k < |at| ==> at[j] < at[k]
    ensures at == [x]
  {
    var first, last := at[0], at[|at| - 1];
  }
}
