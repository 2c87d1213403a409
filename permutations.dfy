/** Tours as permutations of the city indices 0..n-1, and the counting facts about them. */
module Permutations {

  /** The city indices 0..n-1 as a set. */
  function Indices(n: nat): (r: set<int>)
    ensures forall i :: i in r <==> 0 <= i < n
  {
    if n == 0 then {} else Indices(n - 1) + {n - 1}
  }

  /** The values that occur in `s`. */
  function Elems(s: seq<int>): set<int> {
    set x | x in s
  }

  predicate Distinct(s: seq<int>) {
    forall i, j :: 0 <= i < j < |s| ==> s[i] != s[j]
  }

  /** `t` has length n and addresses only cities 0..n-1. */
  predicate InRange(t: seq<int>, n: nat) {
    |t| == n && forall i :: 0 <= i < |t| ==> 0 <= t[i] < n
  }

  /** `t` is a tour: every city index 0..n-1 exactly once. */
  predicate IsPermutation(t: seq<int>, n: nat) {
    InRange(t, n) && Distinct(t)
  }

  lemma {:induction false} IndicesCard(n: nat)
    ensures |Indices(n)| == n
  {
    if n > 0 {
      IndicesCard(n - 1);
    }
  }

  /** A sequence without repetitions has as many distinct values as elements. */
  lemma {:induction false} DistinctCard(s: seq<int>)
    requires Distinct(s)
    ensures |Elems(s)| == |s|
  {
    if s != [] {
      var init := s[..|s| - 1];
      assert Distinct(init);
      DistinctCard(init);
      assert Elems(s) == Elems(init) + {s[|s| - 1]};
      assert s[|s| - 1] !in Elems(init);
    }
  }

  /** Removing a subset removes exactly its elements from the count. */
  lemma DifferenceCard(a: set<int>, b: set<int>)
    requires b <= a
    ensures |a - b| == |a| - |b|
  {
    assert a == (a - b) + b;
    assert (a - b) * b == {};
  }

  /** A tour uses every city index: its values are exactly 0..n-1 (pigeonhole). */
  lemma PermutationElems(t: seq<int>, n: nat)
    requires IsPermutation(t, n)
    ensures Elems(t) == Indices(n)
  {
    DistinctCard(t);
    IndicesCard(n);
    assert Elems(t) <= Indices(n);
    DifferenceCard(Indices(n), Elems(t));
    assert Indices(n) - Elems(t) == {};
  }

  /** The neighbour move of the annealing solver: a copy of `tour` with positions i and j exchanged. */
  function SwapCities(tour: seq<int>, i: nat, j: nat): (r: seq<int>)
    requires i < |tour| && j < |tour|
    ensures |r| == |tour|
    ensures r[i] == tour[j] && r[j] == tour[i]
    ensures forall k :: 0 <= k < |tour| && k != i && k != j ==> r[k] == tour[k]
  {
    tour[i := tour[j]][j := tour[i]]
  }

  /** Exchanging two positions keeps the same values with the same multiplicities. */
  lemma SwapCitiesMultiset(tour: seq<int>, i: nat, j: nat)
    requires i < |tour| && j < |tour|
    ensures multiset(SwapCities(tour, i, j)) == multiset(tour)
  {
  }

  /** Exchanging two positions turns a tour into a tour. */
  lemma SwapCitiesIsPermutation(tour: seq<int>, n: nat, i: nat, j: nat)
    requires IsPermutation(tour, n) && i < n && j < n
    ensures IsPermutation(SwapCities(tour, i, j), n)
  {
    var r := SwapCities(tour, i, j);
    forall p, q | 0 <= p < q < n ensures r[p] != r[q] {
      var p' := if p == i then j else if p == j then i else p;
      var q' := if q == i then j else if q == j then i else q;
      assert r[p] == tour[p'] && r[q] == tour[q'] && p' != q';
    }
  }
}
