/** The tour evaluator: the length of a closed tour is the sum of its n edges, the last one
    leading from the final city back to the first. */
module TourEvaluator {
  import opened CityField
  import opened Permutations

  /** Sum of a sequence, accumulated from the front as a running total would be. */
  function Sum(s: seq<real>): real {
    if s == [] then 0.0 else Sum(s[..|s| - 1]) + s[|s| - 1]
  }

  function Reversed<T>(s: seq<T>): seq<T> {
    seq(|s|, i requires 0 <= i < |s| => s[|s| - 1 - i])
  }

  /** `s` rotated left by k places: position i holds s[(i + k) mod |s|]. */
  function Rotated<T>(s: seq<T>, k: nat): seq<T>
    requires k <= |s|
  {
    s[k..] + s[..k]
  }

  /** The position after i on a closed tour of n positions: the last position is followed by the
      first. */
  function Successor(i: nat, n: nat): nat
    requires i < n
  {
    if i + 1 < n then i + 1 else 0
  }

  /** The weight of the edge leaving position i of the closed tour. */
  function EdgeLength(cities: seq<City>, w: Weight, tour: seq<int>, i: nat): real
    requires InRange(tour, |cities|) && i < |tour|
  {
    w(cities[tour[i]], cities[tour[Successor(i, |tour|)]])
  }

  /** The n edges of the closed tour, in tour order. */
  function Edges(cities: seq<City>, w: Weight, tour: seq<int>): seq<real>
    requires InRange(tour, |cities|)
  {
    seq(|tour|, i requires 0 <= i < |tour| => EdgeLength(cities, w, tour, i))
  }

  /** Total length of the closed tour. */
  function TourLength(cities: seq<City>, w: Weight, tour: seq<int>): (length: real)
    requires InRange(tour, |cities|)
    ensures NonNegative(w) ==> length >= 0.0
  {
    var edges := Edges(cities, w, tour);
    assert NonNegative(w) ==> Sum(edges) >= 0.0 by {
      if NonNegative(w) {
        SumNonNegative(edges);
      }
    }
    Sum(edges)
  }

  /** The running-total loop of the evaluator. */
  method TotalDistance(cities: seq<City>, w: Weight, tour: seq<int>) returns (distance: real)
    requires InRange(tour, |cities|)
    ensures distance == TourLength(cities, w, tour)
  {
    ghost var edges := Edges(cities, w, tour);
    var n := |cities|;
    distance := 0.0;
    for i := 0 to n
      invariant distance == Sum(edges[..i])
    {
      assert edges[..i + 1][..i] == edges[..i];
      NextPosition(i, n);
      distance := distance + w(cities[tour[i]], cities[tour[(i + 1) % n]]);
    }
    assert edges[..n] == edges;
  }

  lemma {:induction false} SumConcat(a: seq<real>, b: seq<real>)
    ensures Sum(a + b) == Sum(a) + Sum(b)
  {
    if b == [] {
      assert a + b == a;
    } else {
      var b' := b[..|b| - 1];
      assert (a + b)[..|a + b| - 1] == a + b';
      SumConcat(a, b');
    }
  }

  lemma {:induction false} SumNonNegative(s: seq<real>)
    requires forall i :: 0 <= i < |s| ==> s[i] >= 0.0
    ensures Sum(s) >= 0.0
  {
    if s != [] {
      SumNonNegative(s[..|s| - 1]);
    }
  }

  lemma {:induction false} SumReversed(s: seq<real>)
    ensures Sum(Reversed(s)) == Sum(s)
  {
    if s != [] {
      var init := s[..|s| - 1];
      assert Reversed(s) == [s[|s| - 1]] + Reversed(init);
      SumReversed(init);
      SumConcat([s[|s| - 1]], Reversed(init));
      assert [s[|s| - 1]][..0] == [];
    }
  }

  lemma RotatedAt<T>(s: seq<T>, k: nat, i: nat)
    requires k <= |s| && i < |s|
    ensures Rotated(s, k)[i] == if i + k < |s| then s[i + k] else s[i + k - |s|]
  {
  }

  /** The evaluator's `(i + 1) % n` is the successor position. */
  lemma NextPosition(i: nat, n: nat)
    requires i < n
    ensures (i + 1) % n == Successor(i, n)
  {
    if i + 1 == n {
      assert n % n == 0;
    }
  }

  lemma EdgeRotatedAt(cities: seq<City>, w: Weight, tour: seq<int>, k: nat, i: nat)
    requires k <= |tour| && i < |tour| && InRange(tour, |cities|) && InRange(Rotated(tour, k), |cities|)
    ensures EdgeLength(cities, w, Rotated(tour, k), i)
         == EdgeLength(cities, w, tour, if i + k < |tour| then i + k else i + k - |tour|)
  {
    RotatedAt(tour, k, i);
    RotatedAt(tour, k, Successor(i, |tour|));
  }

  /** The edges of a rotated tour are the rotated edges. */
  lemma EdgesRotated(cities: seq<City>, w: Weight, tour: seq<int>, k: nat)
    requires InRange(tour, |cities|) && k <= |tour|
    ensures InRange(Rotated(tour, k), |cities|)
    ensures Edges(cities, w, Rotated(tour, k)) == Rotated(Edges(cities, w, tour), k)
  {
    var n := |tour|;
    var r := Rotated(tour, k);
    forall i | 0 <= i < n ensures 0 <= r[i] < |cities| {
      RotatedAt(tour, k, i);
    }
    var e, re := Edges(cities, w, tour), Edges(cities, w, r);
    forall i | 0 <= i < n ensures re[i] == Rotated(e, k)[i] {
      RotatedAt(e, k, i);
      EdgeRotatedAt(cities, w, tour, k, i);
    }
  }

  /** Tour length does not depend on which city the closed tour starts from. */
  lemma TourLengthRotation(cities: seq<City>, w: Weight, tour: seq<int>, k: nat)
    requires InRange(tour, |cities|) && k <= |tour|
    ensures InRange(Rotated(tour, k), |cities|)
    ensures TourLength(cities, w, Rotated(tour, k)) == TourLength(cities, w, tour)
  {
    EdgesRotated(cities, w, tour, k);
    var e := Edges(cities, w, tour);
    SumConcat(e[k..], e[..k]);
    SumConcat(e[..k], e[k..]);
    assert e[..k] + e[k..] == e;
  }

  /** Rotating a tour yields a tour. */
  lemma RotatedIsPermutation(tour: seq<int>, n: nat, k: nat)
    requires IsPermutation(tour, n) && k <= n
    ensures IsPermutation(Rotated(tour, k), n)
  {
    var r := Rotated(tour, k);
    forall p, q | 0 <= p < q < n ensures r[p] != r[q] {
      RotatedAt(tour, k, p);
      RotatedAt(tour, k, q);
    }
  }

  lemma EdgeReversedAt(cities: seq<City>, w: Weight, tour: seq<int>, i: nat)
    requires InRange(tour, |cities|) && InRange(Reversed(tour), |cities|) && i < |tour| && Symmetric(w)
    ensures EdgeLength(cities, w, Reversed(tour), i)
         == EdgeLength(cities, w, tour, if i < |tour| - 1 then |tour| - 2 - i else |tour| - 1)
  {
    var n := |tour|;
    if i < n - 1 {
      assert w(cities[tour[n - 1 - i]], cities[tour[n - 2 - i]])
          == w(cities[tour[n - 2 - i]], cities[tour[n - 1 - i]]);
    } else {
      assert w(cities[tour[0]], cities[tour[n - 1]]) == w(cities[tour[n - 1]], cities[tour[0]]);
    }
  }

  /** With a symmetric weight, the edges of the reversed tour are the first n-1 edges reversed,
      followed by the closing edge. */
  lemma EdgesReversed(cities: seq<City>, w: Weight, tour: seq<int>)
    requires InRange(tour, |cities|) && |tour| > 0 && Symmetric(w)
    ensures InRange(Reversed(tour), |cities|)
    ensures Edges(cities, w, Reversed(tour))
         == Reversed(Edges(cities, w, tour)[..|tour| - 1]) + [Edges(cities, w, tour)[|tour| - 1]]
  {
    var n := |tour|;
    var e := Edges(cities, w, tour);
    var re := Edges(cities, w, Reversed(tour));
    var expected := Reversed(e[..n - 1]) + [e[n - 1]];
    forall i | 0 <= i < n ensures re[i] == expected[i] {
      EdgeReversedAt(cities, w, tour, i);
    }
  }

  /** With a symmetric weight, travelling the tour backwards gives the same length. */
  lemma TourLengthReversal(cities: seq<City>, w: Weight, tour: seq<int>)
    requires InRange(tour, |cities|) && Symmetric(w)
    ensures InRange(Reversed(tour), |cities|)
    ensures TourLength(cities, w, Reversed(tour)) == TourLength(cities, w, tour)
  {
    if tour != [] {
      EdgesReversed(cities, w, tour);
      var e := Edges(cities, w, tour);
      var n := |tour|;
      SumConcat(Reversed(e[..n - 1]), [e[n - 1]]);
      SumReversed(e[..n - 1]);
      assert [e[n - 1]][..0] == [];
    } else {
      assert Reversed(tour) == [];
    }
  }

  /** With a non-negative weight, every tour has non-negative length. */
  lemma TourLengthNonNegative(cities: seq<City>, w: Weight, tour: seq<int>)
    requires InRange(tour, |cities|) && NonNegative(w)
    ensures TourLength(cities, w, tour) >= 0.0
  {
    SumNonNegative(Edges(cities, w, tour));
  }
}
