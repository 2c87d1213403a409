/** The tour operators of the genetic solver: order-preserving ("OX") crossover and swap mutation. */
module TourOperators {
  import opened Permutations

  /** Probability of recombining two parents rather than copying the first. */
  const CrossoverRate: real := 0.8
  /** Probability that a child receives one swap. */
  const MutationRate: real := 0.05

  /** The genes of `donor` that are not in `kept`, in the donor's order. */
  function Remaining(donor: seq<int>, kept: set<int>): (r: seq<int>)
    ensures |r| <= |donor|
  {
    if donor == [] then []
    else
      var init, gene := donor[..|donor| - 1], donor[|donor| - 1];
      if gene in kept then Remaining(init, kept) else Remaining(init, kept) + [gene]
  }

  /** The filter keeps exactly the donor's genes outside `kept`. */
  lemma {:induction false} RemainingMembers(donor: seq<int>, kept: set<int>)
    ensures forall x :: x in Remaining(donor, kept) <==> x in donor && x !in kept
  {
    if donor != [] {
      var init := donor[..|donor| - 1];
      RemainingMembers(init, kept);
      assert donor == init + [donor[|donor| - 1]];
    }
  }

  lemma {:induction false} RemainingDistinct(donor: seq<int>, kept: set<int>)
    requires Distinct(donor)
    ensures Distinct(Remaining(donor, kept))
  {
    if donor != [] {
      var init := donor[..|donor| - 1];
      RemainingDistinct(init, kept);
      RemainingMembers(init, kept);
      assert donor[|donor| - 1] !in init;
    }
  }

  /** Filtering a prefix of the donor gives a prefix of the filtered donor. */
  lemma {:induction false} RemainingPrefix(donor: seq<int>, kept: set<int>, j: nat)
    requires j <= |donor|
    ensures Remaining(donor[..j], kept) <= Remaining(donor, kept)
    decreases |donor|
  {
    if j < |donor| {
      var init := donor[..|donor| - 1];
      assert init[..j] == donor[..j];
      RemainingPrefix(init, kept, j);
    } else {
      assert donor[..j] == donor;
    }
  }

  /** The second parent supplies exactly as many new genes as there are slots outside the slice. */
  lemma RemainingCount(parent1: seq<int>, parent2: seq<int>, s: nat, e: nat)
    requires IsPermutation(parent1, |parent1|) && IsPermutation(parent2, |parent1|)
    requires s <= e < |parent1|
    ensures |Remaining(parent2, Elems(parent1[s..e + 1]))| == |parent1| - (e - s + 1)
  {
    var n := |parent1|;
    var slice := parent1[s..e + 1];
    var kept := Elems(slice);
    var rest := Remaining(parent2, kept);
    assert Distinct(slice);
    DistinctCard(slice);
    PermutationElems(parent2, n);
    assert kept <= Indices(n);
    RemainingDistinct(parent2, kept);
    RemainingMembers(parent2, kept);
    DistinctCard(rest);
    assert Elems(rest) == Indices(n) - kept;
    DifferenceCard(Indices(n), kept);
    IndicesCard(n);
  }

  /** Rank of a free position i among the free positions, counted cyclically from e+1. */
  function SlotRank(i: nat, e: nat, n: nat): nat
    requires i < n && e < n
  {
    if i > e then i - e - 1 else i + n - e - 1
  }

  /** The k-th free position, counted cyclically from e+1. */
  function Slot(k: nat, e: nat, n: nat): nat
    requires e < n && k <= n
  {
    if e + 1 + k < n then e + 1 + k else e + 1 + k - n
  }

  lemma Wrap(x: int, n: int)
    requires 0 <= x < 2 * n
    ensures x % n == if x < n then x else x - n
  {
    if x >= n {
      assert x == 1 * n + (x - n);
    }
  }

  /** Slot and SlotRank are inverse bijections between the ranks below n - (e - s + 1) and the
      positions outside [s, e]. */
  lemma SlotOutsideSlice(k: nat, s: nat, e: nat, n: nat)
    requires s <= e < n && k < n - (e - s + 1)
    ensures Slot(k, e, n) < n && !(s <= Slot(k, e, n) <= e)
    ensures SlotRank(Slot(k, e, n), e, n) == k
  {
  }

  lemma RankOutsideSlice(i: nat, s: nat, e: nat, n: nat)
    requires s <= e < n && i < n && !(s <= i <= e)
    ensures SlotRank(i, e, n) < n - (e - s + 1)
    ensures Slot(SlotRank(i, e, n), e, n) == i
  {
  }

  /** The child once the slice [s, e] of `parent1` is in place and the genes `placed` have been
      written cyclically from position e+1; every other position still holds -1. */
  function Fill(parent1: seq<int>, placed: seq<int>, s: nat, e: nat): seq<int>
    requires s <= e < |parent1|
  {
    seq(|parent1|, i requires 0 <= i < |parent1| =>
      if s <= i <= e then parent1[i]
      else if SlotRank(i, e, |parent1|) < |placed| then placed[SlotRank(i, e, |parent1|)]
      else -1)
  }

  /** The order-preserving crossover child: parent1's slice [s, e] kept in place, the rest of the
      positions filled, cyclically from e+1, with parent2's other genes in parent2's order. */
  function OrderCrossover(parent1: seq<int>, parent2: seq<int>, s: nat, e: nat): (child: seq<int>)
    requires s < e < |parent1|
    ensures |child| == |parent1|
    ensures forall i :: s <= i <= e ==> child[i] == parent1[i]
  {
    Fill(parent1, Remaining(parent2, Elems(parent1[s..e + 1])), s, e)
  }

  /** Writing one more gene into the next free slot. */
  lemma FillStep(parent1: seq<int>, placed: seq<int>, gene: int, s: nat, e: nat)
    requires s <= e < |parent1| && |placed| < |parent1| - (e - s + 1)
    ensures Slot(|placed|, e, |parent1|) < |parent1|
    ensures Fill(parent1, placed + [gene], s, e)
         == Fill(parent1, placed, s, e)[Slot(|placed|, e, |parent1|) := gene]
  {
    var n := |parent1|;
    var pos := Slot(|placed|, e, n);
    SlotOutsideSlice(|placed|, s, e, n);
    var after, before := Fill(parent1, placed + [gene], s, e), Fill(parent1, placed, s, e);
    forall i | 0 <= i < n ensures after[i] == before[pos := gene][i] {
      if !(s <= i <= e) {
        RankOutsideSlice(i, s, e, n);
      }
    }
  }

  /** While parent2 is scanned, its next gene is already in the child exactly when it belongs to
      parent1's slice: the genes placed so far come from earlier, different positions of parent2. */
  lemma GeneInChild(parent1: seq<int>, parent2: seq<int>, s: nat, e: nat, j: nat)
    requires IsPermutation(parent1, |parent1|) && IsPermutation(parent2, |parent1|)
    requires s <= e < |parent1| && j < |parent1|
    ensures parent2[j] in Fill(parent1, Remaining(parent2[..j], Elems(parent1[s..e + 1])), s, e)
        <==> parent2[j] in Elems(parent1[s..e + 1])
  {
    var n := |parent1|;
    var kept := Elems(parent1[s..e + 1]);
    var placed := Remaining(parent2[..j], kept);
    var child := Fill(parent1, placed, s, e);
    var gene := parent2[j];
    if gene in kept {
      var m :| 0 <= m < e + 1 - s && parent1[s..e + 1][m] == gene;
      assert child[s + m] == gene;
    } else {
      forall m | 0 <= m < j ensures parent2[..j][m] != gene {
        assert parent2[..j][m] == parent2[m];
      }
      RemainingMembers(parent2[..j], kept);
      assert gene !in placed;
      forall i | 0 <= i < n ensures child[i] != gene {
        if s <= i <= e {
          assert parent1[s..e + 1][i - s] == parent1[i];
        } else if SlotRank(i, e, n) < |placed| {
          assert placed[SlotRank(i, e, n)] in placed;
        }
      }
    }
  }

  lemma SlotNext(k: nat, e: nat, n: nat)
    requires e < n && k + 1 < n
    ensures (Slot(k, e, n) + 1) % n == Slot(k + 1, e, n)
  {
    Wrap(Slot(k, e, n) + 1, n);
  }

  /** Scanning one more gene of the donor: a gene of `kept` is skipped, any other is appended. */
  lemma RemainingStep(donor: seq<int>, kept: set<int>, j: nat)
    requires j < |donor|
    ensures Remaining(donor[..j + 1], kept)
         == if donor[j] in kept then Remaining(donor[..j], kept) else Remaining(donor[..j], kept) + [donor[j]]
  {
    assert donor[..j + 1][..j] == donor[..j];
  }

  /** While parent2 is scanned, a gene outside parent1's slice always finds a free slot: the genes
      placed so far are fewer than the free positions. */
  lemma FreeSlotLeft(parent1: seq<int>, parent2: seq<int>, s: nat, e: nat, j: nat)
    requires IsPermutation(parent1, |parent1|) && IsPermutation(parent2, |parent1|)
    requires s < e < |parent1| && j < |parent1|
    requires parent2[j] !in Elems(parent1[s..e + 1])
    ensures |Remaining(parent2[..j], Elems(parent1[s..e + 1]))| < |parent1| - (e - s + 1)
  {
    var kept := Elems(parent1[s..e + 1]);
    var placed, next := Remaining(parent2[..j], kept), Remaining(parent2[..j + 1], kept);
    RemainingStep(parent2, kept, j);
    assert |next| == |placed| + 1;
    RemainingPrefix(parent2, kept, j + 1);
    assert |next| <= |Remaining(parent2, kept)|;
    RemainingCount(parent1, parent2, s, e);
  }

  /** Any other scanned gene goes to the cursor, which then moves on to the next free slot. */
  lemma ScanPlace(parent1: seq<int>, parent2: seq<int>, kept: set<int>, s: nat, e: nat, j: nat)
    requires s <= e < |parent1| && j < |parent2| && parent2[j] !in kept
    requires |Remaining(parent2[..j], kept)| < |parent1| - (e - s + 1)
    ensures var placed, next := Remaining(parent2[..j], kept), Remaining(parent2[..j + 1], kept);
      && Slot(|placed|, e, |parent1|) < |parent1|
      && Fill(parent1, next, s, e) == Fill(parent1, placed, s, e)[Slot(|placed|, e, |parent1|) := parent2[j]]
      && |next| == |placed| + 1
  {
    RemainingStep(parent2, kept, j);
    FillStep(parent1, Remaining(parent2[..j], kept), parent2[j], s, e);
  }

  /** One gene of parent2 scanned: it is already in the child exactly when it belongs to parent1's
      slice; such a gene is skipped, and any other is written at the cursor, which moves on to the
      next free slot. */
  lemma ScanStep(parent1: seq<int>, parent2: seq<int>, s: nat, e: nat, j: nat)
    requires IsPermutation(parent1, |parent1|) && IsPermutation(parent2, |parent1|)
    requires s < e < |parent1| && j < |parent1|
    ensures var kept := Elems(parent1[s..e + 1]);
      var placed, next := Remaining(parent2[..j], kept), Remaining(parent2[..j + 1], kept);
      && (parent2[j] in Fill(parent1, placed, s, e) <==> parent2[j] in kept)
      && (parent2[j] in kept ==> next == placed)
      && (parent2[j] !in kept ==>
            && Slot(|placed|, e, |parent1|) < |parent1|
            && Fill(parent1, next, s, e) == Fill(parent1, placed, s, e)[Slot(|placed|, e, |parent1|) := parent2[j]]
            && (Slot(|placed|, e, |parent1|) + 1) % |parent1| == Slot(|next|, e, |parent1|))
  {
    var kept := Elems(parent1[s..e + 1]);
    GeneInChild(parent1, parent2, s, e, j);
    RemainingStep(parent2, kept, j);
    if parent2[j] !in kept {
      FreeSlotLeft(parent1, parent2, s, e, j);
      ScanPlace(parent1, parent2, kept, s, e, j);
      SlotNext(|Remaining(parent2[..j], kept)|, e, |parent1|);
    }
  }

  /** Position by position: the slice of parent1, then parent2's remaining genes in order. */
  lemma OrderCrossoverShape(parent1: seq<int>, parent2: seq<int>, s: nat, e: nat)
    requires IsPermutation(parent1, |parent1|) && IsPermutation(parent2, |parent1|)
    requires s < e < |parent1|
    ensures |OrderCrossover(parent1, parent2, s, e)| == |parent1|
    ensures forall i :: s <= i <= e ==> OrderCrossover(parent1, parent2, s, e)[i] == parent1[i]
    ensures |Remaining(parent2, Elems(parent1[s..e + 1]))| == |parent1| - (e - s + 1)
    ensures forall k :: 0 <= k < |parent1| - (e - s + 1) ==>
      Slot(k, e, |parent1|) < |parent1| &&
      OrderCrossover(parent1, parent2, s, e)[Slot(k, e, |parent1|)]
        == Remaining(parent2, Elems(parent1[s..e + 1]))[k]
  {
    var n := |parent1|;
    RemainingCount(parent1, parent2, s, e);
    forall k | 0 <= k < n - (e - s + 1)
      ensures Slot(k, e, n) < n &&
        OrderCrossover(parent1, parent2, s, e)[Slot(k, e, n)]
          == Remaining(parent2, Elems(parent1[s..e + 1]))[k]
    {
      SlotOutsideSlice(k, s, e, n);
    }
  }

  /** Crossover of two tours is a tour. */
  lemma OrderCrossoverIsPermutation(parent1: seq<int>, parent2: seq<int>, s: nat, e: nat)
    requires IsPermutation(parent1, |parent1|) && IsPermutation(parent2, |parent1|)
    requires s < e < |parent1|
    ensures IsPermutation(OrderCrossover(parent1, parent2, s, e), |parent1|)
  {
    var n := |parent1|;
    var kept := Elems(parent1[s..e + 1]);
    var rest := Remaining(parent2, kept);
    var child := OrderCrossover(parent1, parent2, s, e);
    RemainingCount(parent1, parent2, s, e);
    RemainingDistinct(parent2, kept);
    RemainingMembers(parent2, kept);
    PermutationElems(parent2, n);
    forall i | 0 <= i < n
      ensures if s <= i <= e then child[i] == parent1[i] && child[i] in kept
              else SlotRank(i, e, n) < |rest| && child[i] == rest[SlotRank(i, e, n)]
    {
      if s <= i <= e {
        assert parent1[s..e + 1][i - s] == parent1[i];
      } else {
        RankOutsideSlice(i, s, e, n);
      }
    }
    forall i | 0 <= i < n ensures 0 <= child[i] < n {
      if !(s <= i <= e) {
        assert rest[SlotRank(i, e, n)] in rest;
      }
    }
    forall p, q | 0 <= p < q < n ensures child[p] != child[q] {
      if !(s <= p <= e) && !(s <= q <= e) {
        RankOutsideSlice(p, s, e, n);
        RankOutsideSlice(q, s, e, n);
      } else if !(s <= p <= e) {
        assert rest[SlotRank(p, e, n)] in rest;
      } else if !(s <= q <= e) {
        assert rest[SlotRank(q, e, n)] in rest;
      }
    }
  }

  /** A worked crossover: with cut points 1 and 3, the slice [1, 2, 3] stays in place and parent2's
      other genes 4 and 0 fill positions 4 and then 0. */
  lemma OrderCrossoverExample()
    ensures OrderCrossover([0, 1, 2, 3, 4], [4, 3, 2, 1, 0], 1, 3) == [0, 1, 2, 3, 4]
  {
    var p1 := [0, 1, 2, 3, 4];
    assert Elems(p1[1..4]) == {1, 2, 3} by {
      assert p1[1..4] == [1, 2, 3];
    }
    RemainingExample();
  }

  /** Scanning [4, 3, 2, 1, 0] past the slice {1, 2, 3} leaves 4 and then 0. */
  lemma RemainingExample()
    ensures Remaining([4, 3, 2, 1, 0], {1, 2, 3}) == [4, 0]
  {
    var p2, kept := [4, 3, 2, 1, 0], {1, 2, 3};
    assert Remaining(p2[..1], kept) == [4] by {
      RemainingStep(p2, kept, 0);
      assert p2[..0] == [];
    }
    assert Remaining(p2[..2], kept) == [4] by {
      RemainingStep(p2, kept, 1);
    }
    assert Remaining(p2[..3], kept) == [4] by {
      RemainingStep(p2, kept, 2);
    }
    assert Remaining(p2[..4], kept) == [4] by {
      RemainingStep(p2, kept, 3);
    }
    RemainingStep(p2, kept, 4);
    assert p2[..5] == p2;
  }

  /** The child before parent2 is scanned: parent1's slice [s, e] in place, -1 everywhere else. */
  method StartChild(parent1: seq<int>, s: nat, e: nat) returns (a: array<int>)
    requires s <= e < |parent1|
    ensures fresh(a)
    ensures a[..] == Fill(parent1, [], s, e)
  {
    a := new int[|parent1|](_ => -1);
    forall i | s <= i <= e {
      a[i] := parent1[i];
    }
    forall i | 0 <= i < |parent1| ensures a[i] == Fill(parent1, [], s, e)[i] {
      if !(s <= i <= e) {
        RankOutsideSlice(i, s, e, |parent1|);
      }
    }
  }

  /** Crossover of two parents. When `draw` exceeds the crossover rate the child is a copy of
      parent1; otherwise the child array starts as all -1, receives parent1's slice
      [start, end], and parent2 is scanned in order, each gene not yet in the child being written
      at a cursor that starts at end+1 and wraps around. */
  method Crossover(parent1: seq<int>, parent2: seq<int>, draw: real, start: nat, end: nat)
    returns (child: seq<int>)
    requires IsPermutation(parent1, |parent1|) && IsPermutation(parent2, |parent1|)
    requires draw <= CrossoverRate ==> start < end < |parent1|
    ensures draw > CrossoverRate ==> child == parent1
    ensures draw <= CrossoverRate ==> child == OrderCrossover(parent1, parent2, start, end)
    ensures IsPermutation(child, |parent1|)
  {
    if draw > CrossoverRate {
      return parent1;
    }
    var n := |parent1|;
    var a := StartChild(parent1, start, end);
    ghost var kept := Elems(parent1[start..end + 1]);
    assert parent2[..0] == [];
    Wrap(end + 1, n);
    var pos := (end + 1) % n;
    ghost var placed := Remaining(parent2[..0], kept);
    for j := 0 to n
      invariant placed == Remaining(parent2[..j], kept)
      invariant pos == Slot(|placed|, end, n)
      invariant a[..] == Fill(parent1, placed, start, end)
    {
      var gene := parent2[j];
      ScanStep(parent1, parent2, start, end, j);
      if gene !in a[..] {
        a[pos] := gene;
        pos := (pos + 1) % n;
      }
      placed := Remaining(parent2[..j + 1], kept);
    }
    assert parent2[..n] == parent2;
    child := a[..];
    OrderCrossoverIsPermutation(parent1, parent2, start, end);
  }

  /** Mutation of a child in place: when `draw` is below the mutation rate the cities at
      positions idx1 and idx2 are exchanged; otherwise the child is left as it is. */
  method Mutate(individual: array<int>, draw: real, idx1: nat, idx2: nat)
    requires draw < MutationRate ==> idx1 < individual.Length && idx2 < individual.Length
    modifies individual
    ensures draw < MutationRate ==> individual[..] == SwapCities(old(individual[..]), idx1, idx2)
    ensures draw >= MutationRate ==> individual[..] == old(individual[..])
    ensures multiset(individual[..]) == multiset(old(individual[..]))
  {
    if draw < MutationRate {
      SwapCitiesMultiset(individual[..], idx1, idx2);
      individual[idx1], individual[idx2] := individual[idx2], individual[idx1];
    }
  }
}
