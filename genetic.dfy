/** The genetic solver: tournament selection, one generation of offspring, and the generational
    loop that keeps the best tour evaluated so far. The random choices of a run are inputs. */
module GeneticSolver {
  import opened CityField
  import opened Permutations
  import opened TourEvaluator
  import opened TourOperators
  import opened SearchOutcome

  const PopulationSize: nat := 100
  const Generations: nat := 500
  const TournamentSize: nat := 5

  /** Every member of `tours` is a tour of n cities. */
  predicate AllTours(tours: seq<seq<int>>, n: nat) {
    forall k :: 0 <= k < |tours| ==> IsPermutation(tours[k], n)
  }

  predicate IsPopulation(population: seq<seq<int>>, n: nat) {
    |population| == PopulationSize && AllTours(population, n)
  }

  /** The positions drawn for one tournament: TournamentSize distinct positions of a population
      of `size` members (sampling without replacement). */
  predicate IsTournament(sample: seq<int>, size: nat) {
    |sample| == TournamentSize && Distinct(sample)
    && forall i :: 0 <= i < |sample| ==> 0 <= sample[i] < size
  }

  /** The random choices made while producing one child. */
  datatype ChildDraws = ChildDraws(
    tournament1: seq<int>, tournament2: seq<int>,  // the two tournaments
    crossoverDraw: real, cutStart: nat, cutEnd: nat,  // the crossover coin and the sorted cut points
    mutationDraw: real, swap1: nat, swap2: nat)       // the mutation coin and the two swap positions

  /** The draws a random source can produce for one child: cut points are two distinct positions
      in increasing order and swap positions two distinct positions, each needed only when its
      coin fires. */
  predicate ValidChildDraws(d: ChildDraws, n: nat, size: nat) {
    && IsTournament(d.tournament1, size) && IsTournament(d.tournament2, size)
    && (d.crossoverDraw <= CrossoverRate ==> d.cutStart < d.cutEnd < n)
    && (d.mutationDraw < MutationRate ==> d.swap1 < n && d.swap2 < n && d.swap1 != d.swap2)
  }

  /** Draws for a whole generation: one record per child. */
  predicate ValidGenerationDraws(draws: seq<ChildDraws>, n: nat) {
    |draws| == PopulationSize && forall k :: 0 <= k < |draws| ==> ValidChildDraws(draws[k], n, PopulationSize)
  }

  /** i is the position of the first smallest value of xs. */
  predicate IsFirstMin(xs: seq<real>, i: int) {
    && 0 <= i < |xs|
    && (forall j :: 0 <= j < |xs| ==> xs[i] <= xs[j])
    && (forall j :: 0 <= j < i ==> xs[j] > xs[i])
  }

  /** Position of the first smallest value: a scan that replaces its candidate only on a strictly
      smaller value ends there. */
  function FirstMinIndex(xs: seq<real>): (k: nat)
    requires |xs| > 0
    ensures IsFirstMin(xs, k)
  {
    if |xs| == 1 then 0
    else
      var k := FirstMinIndex(xs[..|xs| - 1]);
      if xs[|xs| - 1] < xs[k] then |xs| - 1 else k
  }

  /** There is only one first smallest value. */
  lemma FirstMinUnique(xs: seq<real>, i: int)
    requires IsFirstMin(xs, i)
    ensures i == FirstMinIndex(xs)
  {
    assert xs[i] == xs[FirstMinIndex(xs)];
  }

  /** The lengths of a list of tours. */
  function Lengths(cities: seq<City>, w: Weight, tours: seq<seq<int>>): seq<real>
    requires AllTours(tours, |cities|)
  {
    seq(|tours|, k requires 0 <= k < |tours| => TourLength(cities, w, tours[k]))
  }

  lemma LengthsAppend(cities: seq<City>, w: Weight, tours: seq<seq<int>>, t: seq<int>)
    requires AllTours(tours, |cities|) && IsPermutation(t, |cities|)
    ensures AllTours(tours + [t], |cities|)
    ensures Lengths(cities, w, tours + [t]) == Lengths(cities, w, tours) + [TourLength(cities, w, t)]
  {
  }

  /** The shortest of the sampled tours; on a tie, the one sampled first. */
  function TournamentSelection(cities: seq<City>, w: Weight, population: seq<seq<int>>, sample: seq<int>)
    : (winner: seq<int>)
    requires AllTours(population, |cities|) && IsTournament(sample, |population|)
    ensures IsPermutation(winner, |cities|)
    ensures exists i ::
      && 0 <= i < |sample|
      && winner == population[sample[i]]
      && (forall j :: 0 <= j < i ==> TourLength(cities, w, population[sample[j]]) > TourLength(cities, w, winner))
    ensures forall j :: 0 <= j < |sample| ==>
      TourLength(cities, w, winner) <= TourLength(cities, w, population[sample[j]])
  {
    var lengths := seq(|sample|, i requires 0 <= i < |sample| => TourLength(cities, w, population[sample[i]]));
    var k := FirstMinIndex(lengths);
    assert forall j :: 0 <= j < |sample| ==> lengths[j] == TourLength(cities, w, population[sample[j]]);
    assert forall j :: 0 <= j < k ==> TourLength(cities, w, population[sample[j]]) > lengths[k];
    population[sample[k]]
  }

  /** The child produced from one set of draws: two tournaments, crossover or a copy of the first
      parent, then at most one swap. */
  function Offspring(cities: seq<City>, w: Weight, population: seq<seq<int>>, d: ChildDraws): (child: seq<int>)
    requires AllTours(population, |cities|) && ValidChildDraws(d, |cities|, |population|)
    ensures IsPermutation(child, |cities|)
  {
    var parent1 := TournamentSelection(cities, w, population, d.tournament1);
    var parent2 := TournamentSelection(cities, w, population, d.tournament2);
    var crossed :=
      if d.crossoverDraw > CrossoverRate then parent1
      else OrderCrossover(parent1, parent2, d.cutStart, d.cutEnd);
    assert IsPermutation(crossed, |cities|) by {
      if d.crossoverDraw <= CrossoverRate {
        OrderCrossoverIsPermutation(parent1, parent2, d.cutStart, d.cutEnd);
      }
    }
    if d.mutationDraw < MutationRate then
      SwapCitiesIsPermutation(crossed, |cities|, d.swap1, d.swap2);
      SwapCities(crossed, d.swap1, d.swap2)
    else crossed
  }

  /** The next generation: one child per draw record, in order. */
  function NextPopulation(cities: seq<City>, w: Weight, population: seq<seq<int>>, draws: seq<ChildDraws>)
    : (next: seq<seq<int>>)
    requires AllTours(population, |cities|)
    requires forall k :: 0 <= k < |draws| ==> ValidChildDraws(draws[k], |cities|, |population|)
    ensures |next| == |draws| && AllTours(next, |cities|)
  {
    seq(|draws|, k requires 0 <= k < |draws| => Offspring(cities, w, population, draws[k]))
  }

  /** One pass of the generation loop body: two tournaments, crossover, then the mutation applied
      in place to the child. */
  method Breed(cities: seq<City>, w: Weight, population: seq<seq<int>>, d: ChildDraws)
    returns (individual: seq<int>)
    requires AllTours(population, |cities|) && ValidChildDraws(d, |cities|, |population|)
    ensures individual == Offspring(cities, w, population, d)
    ensures IsPermutation(individual, |cities|)
  {
    var parent1 := TournamentSelection(cities, w, population, d.tournament1);
    var parent2 := TournamentSelection(cities, w, population, d.tournament2);
    var child := Crossover(parent1, parent2, d.crossoverDraw, d.cutStart, d.cutEnd);
    var buffer := new int[|child|](i requires 0 <= i < |child| => child[i]);
    assert buffer[..] == child;
    Mutate(buffer, d.mutationDraw, d.swap1, d.swap2);
    individual := buffer[..];
  }

  /** One more draw record adds its child at the end of the next generation. */
  lemma NextPopulationStep(cities: seq<City>, w: Weight, population: seq<seq<int>>, draws: seq<ChildDraws>, k: nat)
    requires AllTours(population, |cities|) && k < |draws|
    requires forall i :: 0 <= i < |draws| ==> ValidChildDraws(draws[i], |cities|, |population|)
    ensures NextPopulation(cities, w, population, draws[..k + 1])
         == NextPopulation(cities, w, population, draws[..k]) + [Offspring(cities, w, population, draws[k])]
  {
    var longer := NextPopulation(cities, w, population, draws[..k + 1]);
    var shorter := NextPopulation(cities, w, population, draws[..k]);
    forall i | 0 <= i <= k
      ensures longer[i] == (shorter + [Offspring(cities, w, population, draws[k])])[i]
    {
      if i < k {
        assert longer[i] == shorter[i];
      }
    }
  }

  /** One generation: PopulationSize children, appended to the new population in order. */
  method EvolvePopulation(cities: seq<City>, w: Weight, population: seq<seq<int>>, draws: seq<ChildDraws>)
    returns (newPopulation: seq<seq<int>>)
    requires IsPopulation(population, |cities|) && ValidGenerationDraws(draws, |cities|)
    ensures newPopulation == NextPopulation(cities, w, population, draws)
    ensures IsPopulation(newPopulation, |cities|)
  {
    newPopulation := [];
    for k := 0 to PopulationSize
      invariant newPopulation == NextPopulation(cities, w, population, draws[..k])
    {
      var individual := Breed(cities, w, population, draws[k]);
      NextPopulationStep(cities, w, population, draws, k);
      newPopulation := newPopulation + [individual];
    }
    assert draws[..PopulationSize] == draws;
  }

  /** Draws for a whole run: one generation's draws per generation. */
  predicate ValidRunDraws(draws: seq<seq<ChildDraws>>, n: nat) {
    forall g :: 0 <= g < |draws| ==> ValidGenerationDraws(draws[g], n)
  }

  /** The populations of the first `count` generations: entry g is the population built in
      generation g, from the population before it and that generation's draws. */
  ghost function Lineage(cities: seq<City>, w: Weight, initial: seq<seq<int>>, draws: seq<seq<ChildDraws>>,
                         count: nat): (populations: seq<seq<seq<int>>>)
    requires IsPopulation(initial, |cities|) && ValidRunDraws(draws, |cities|) && count <= |draws|
    ensures |populations| == count
    ensures forall g :: 0 <= g < count ==> IsPopulation(populations[g], |cities|)
  {
    if count == 0 then []
    else
      var earlier := Lineage(cities, w, initial, draws, count - 1);
      var parent := if count == 1 then initial else earlier[count - 2];
      earlier + [NextPopulation(cities, w, parent, draws[count - 1])]
  }

  lemma LineageStep(cities: seq<City>, w: Weight, initial: seq<seq<int>>, draws: seq<seq<ChildDraws>>, count: nat)
    requires IsPopulation(initial, |cities|) && ValidRunDraws(draws, |cities|) && count < |draws|
    ensures var earlier := Lineage(cities, w, initial, draws, count);
      Lineage(cities, w, initial, draws, count + 1)
      == earlier + [NextPopulation(cities, w, if count == 0 then initial else earlier[count - 1], draws[count])]
  {
  }

  /** All tours of the given populations, in the order they are evaluated. */
  function Flatten(populations: seq<seq<seq<int>>>, n: nat): (tours: seq<seq<int>>)
    requires forall g :: 0 <= g < |populations| ==> AllTours(populations[g], n)
    ensures AllTours(tours, n)
  {
    if populations == [] then []
    else
      var earlier, last := Flatten(populations[..|populations| - 1], n), populations[|populations| - 1];
      assert AllTours(earlier + last, n) by {
        assert AllTours(last, n);
        forall k | 0 <= k < |earlier + last| ensures IsPermutation((earlier + last)[k], n) {
          if k < |earlier| {
            assert (earlier + last)[k] == earlier[k];
          } else {
            assert (earlier + last)[k] == last[k - |earlier|];
          }
        }
      }
      earlier + last
  }

  lemma FlattenAppend(populations: seq<seq<seq<int>>>, population: seq<seq<int>>, n: nat)
    requires forall g :: 0 <= g < |populations| ==> AllTours(populations[g], n)
    requires AllTours(population, n)
    ensures forall g :: 0 <= g < |populations + [population]| ==> AllTours((populations + [population])[g], n)
    ensures Flatten(populations + [population], n) == Flatten(populations, n) + population
  {
    assert (populations + [population])[..|populations|] == populations;
  }

  /** The shortest length in a non-empty list of lengths. */
  function BestLength(lengths: seq<real>): real
    requires |lengths| > 0
  {
    lengths[FirstMinIndex(lengths)]
  }

  /** The best-so-far record after the tours `seen`, of lengths `lengths`, have been evaluated:
      nothing before the first evaluation, afterwards the first shortest tour seen (at position
      `bestIndex`) and its length. */
  ghost predicate KeepsBest(lengths: seq<real>, seen: seq<seq<int>>, found: bool, best: seq<int>,
                            bestDistance: real, bestIndex: int) {
    && |lengths| == |seen|
    && (found <==> |seen| > 0)
    && (found ==> IsFirstMin(lengths, bestIndex) && best == seen[bestIndex] && bestDistance == lengths[bestIndex])
  }

  /** A tour that is the first evaluated, or strictly shorter than the best so far, becomes the best. */
  lemma KeepsBestImproved(lengths: seq<real>, seen: seq<seq<int>>, found: bool, best: seq<int>,
                          bestDistance: real, bestIndex: int, t: seq<int>, d: real)
    requires KeepsBest(lengths, seen, found, best, bestDistance, bestIndex)
    requires !found || d < bestDistance
    ensures KeepsBest(lengths + [d], seen + [t], true, t, d, |seen|)
  {
    var xs := lengths + [d];
    forall j | 0 <= j < |seen| ensures xs[j] > d {
      assert xs[j] == lengths[j];
    }
  }

  /** A tour no shorter than the best so far leaves the best in place: on a tie the earlier tour stays. */
  lemma KeepsBestKept(lengths: seq<real>, seen: seq<seq<int>>, best: seq<int>,
                      bestDistance: real, bestIndex: int, t: seq<int>, d: real)
    requires KeepsBest(lengths, seen, true, best, bestDistance, bestIndex)
    requires d >= bestDistance
    ensures KeepsBest(lengths + [d], seen + [t], true, best, bestDistance, bestIndex)
  {
    var xs := lengths + [d];
    forall j | 0 <= j < |xs| ensures xs[bestIndex] <= xs[j] {
      assert xs[bestIndex] == lengths[bestIndex];
    }
  }

  /** The evaluation pass of one generation: every individual is measured and replaces the best
      so far when nothing was found yet or it is strictly shorter. */
  method EvaluatePopulation(cities: seq<City>, w: Weight, population: seq<seq<int>>, ghost seen: seq<seq<int>>,
                            found: bool, bestSolution: seq<int>, bestDistance: real, ghost bestIndex: int)
    returns (found': bool, bestSolution': seq<int>, bestDistance': real, ghost bestIndex': int)
    requires AllTours(seen, |cities|) && AllTours(population, |cities|)
    requires KeepsBest(Lengths(cities, w, seen), seen, found, bestSolution, bestDistance, bestIndex)
    ensures AllTours(seen + population, |cities|)
    ensures KeepsBest(Lengths(cities, w, seen + population), seen + population,
                      found', bestSolution', bestDistance', bestIndex')
    ensures found ==> bestDistance' <= bestDistance
  {
    found', bestSolution', bestDistance', bestIndex' := found, bestSolution, bestDistance, bestIndex;
    ghost var evaluated := seen;
    ghost var lengths := Lengths(cities, w, seen);
    for k := 0 to |population|
      invariant evaluated == seen + population[..k]
      invariant AllTours(evaluated, |cities|)
      invariant lengths == Lengths(cities, w, evaluated)
      invariant KeepsBest(lengths, evaluated, found', bestSolution', bestDistance', bestIndex')
      invariant found ==> found' && bestDistance' <= bestDistance
    {
      var individual := population[k];
      var distance := TotalDistance(cities, w, individual);
      LengthsAppend(cities, w, evaluated, individual);
      if !found' || distance < bestDistance' {
        KeepsBestImproved(lengths, evaluated, found', bestSolution', bestDistance', bestIndex', individual, distance);
        bestDistance' := distance;
        bestSolution' := individual;
        bestIndex' := |evaluated|;
        found' := true;
      } else {
        KeepsBestKept(lengths, evaluated, bestSolution', bestDistance', bestIndex', individual, distance);
      }
      evaluated := evaluated + [individual];
      lengths := lengths + [distance];
      assert population[..k + 1] == population[..k] + [individual];
    }
    assert population[..|population|] == population;
  }

  /** The population the generation `count` starts from. */
  ghost function Parent(cities: seq<City>, w: Weight, initial: seq<seq<int>>, draws: seq<seq<ChildDraws>>,
                        count: nat): (population: seq<seq<int>>)
    requires IsPopulation(initial, |cities|) && ValidRunDraws(draws, |cities|) && count <= |draws|
    ensures IsPopulation(population, |cities|)
  {
    if count == 0 then initial else Lineage(cities, w, initial, draws, count)[count - 1]
  }

  /** Every tour evaluated in the first `count` generations, in evaluation order. */
  ghost function Evaluated(cities: seq<City>, w: Weight, initial: seq<seq<int>>, draws: seq<seq<ChildDraws>>,
                           count: nat): (tours: seq<seq<int>>)
    requires IsPopulation(initial, |cities|) && ValidRunDraws(draws, |cities|) && count <= |draws|
    ensures AllTours(tours, |cities|)
  {
    Flatten(Lineage(cities, w, initial, draws, count), |cities|)
  }

  /** The best-so-far length recorded after each of the first `count` generations: the shortest
      length among all tours evaluated up to and including that generation. */
  ghost function BestTrace(cities: seq<City>, w: Weight, initial: seq<seq<int>>, draws: seq<seq<ChildDraws>>,
                           count: nat): (trace: seq<real>)
    requires IsPopulation(initial, |cities|) && ValidRunDraws(draws, |cities|) && count <= |draws|
    ensures |trace| == count
  {
    seq(count, g requires 0 <= g < count =>
      BestLength(Lengths(cities, w, Evaluated(cities, w, initial, draws, g + 1))))
  }

  /** The loop state after `count` generations: the population of the last generation (the
      initial one before the first) and the best-so-far record over every tour evaluated. */
  ghost predicate RunState(cities: seq<City>, w: Weight, initial: seq<seq<int>>, draws: seq<seq<ChildDraws>>,
                           count: nat, population: seq<seq<int>>,
                           found: bool, bestSolution: seq<int>, bestDistance: real, bestIndex: int)
    requires IsPopulation(initial, |cities|) && ValidRunDraws(draws, |cities|) && count <= |draws|
  {
    && population == Parent(cities, w, initial, draws, count)
    && (found <==> count > 0)
    && KeepsBest(Lengths(cities, w, Evaluated(cities, w, initial, draws, count)),
                 Evaluated(cities, w, initial, draws, count), found, bestSolution, bestDistance, bestIndex)
  }

  /** The progress record after `count` generations: one best-so-far entry per generation, never
      increasing, the last one being the current best length. */
  ghost predicate RunProgress(cities: seq<City>, w: Weight, initial: seq<seq<int>>, draws: seq<seq<ChildDraws>>,
                              count: nat, progress: seq<real>, bestDistance: real)
    requires IsPopulation(initial, |cities|) && ValidRunDraws(draws, |cities|) && count <= |draws|
  {
    && progress == BestTrace(cities, w, initial, draws, count)
    && NonIncreasing(progress)
    && (count > 0 ==> progress[count - 1] == bestDistance)
  }

  lemma ProgressStep(cities: seq<City>, w: Weight, initial: seq<seq<int>>, draws: seq<seq<ChildDraws>>,
                     count: nat, progress: seq<real>, bestDistance: real, bestDistance': real)
    requires IsPopulation(initial, |cities|) && ValidRunDraws(draws, |cities|) && count < |draws|
    requires RunProgress(cities, w, initial, draws, count, progress, bestDistance)
    requires bestDistance' == BestLength(Lengths(cities, w, Evaluated(cities, w, initial, draws, count + 1)))
    requires count > 0 ==> bestDistance' <= bestDistance
    ensures RunProgress(cities, w, initial, draws, count + 1, progress + [bestDistance'], bestDistance')
  {
    BestTraceStep(cities, w, initial, draws, count);
    NonIncreasingAppend(progress, bestDistance');
  }

  /** Generation `count` of the run: the next population is bred from the current one, every new
      individual is evaluated against the best so far, and the best length is recorded. */
  method RunGeneration(cities: seq<City>, w: Weight, ghost initial: seq<seq<int>>, draws: seq<seq<ChildDraws>>,
                       count: nat, population: seq<seq<int>>,
                       found: bool, bestSolution: seq<int>, bestDistance: real, ghost bestIndex: int,
                       progress: seq<real>)
    returns (population': seq<seq<int>>, found': bool, bestSolution': seq<int>, bestDistance': real,
             ghost bestIndex': int, progress': seq<real>)
    requires IsPopulation(initial, |cities|) && ValidRunDraws(draws, |cities|) && count < |draws|
    requires RunState(cities, w, initial, draws, count, population, found, bestSolution, bestDistance, bestIndex)
    requires RunProgress(cities, w, initial, draws, count, progress, bestDistance)
    ensures RunState(cities, w, initial, draws, count + 1, population', found', bestSolution', bestDistance', bestIndex')
    ensures RunProgress(cities, w, initial, draws, count + 1, progress', bestDistance')
  {
    var n := |cities|;
    ghost var populations := Lineage(cities, w, initial, draws, count);
    LineageStep(cities, w, initial, draws, count);
    population' := EvolvePopulation(cities, w, population, draws[count]);
    assert populations + [population'] == Lineage(cities, w, initial, draws, count + 1);
    FlattenAppend(populations, population', n);
    found', bestSolution', bestDistance', bestIndex' :=
      EvaluatePopulation(cities, w, population', Evaluated(cities, w, initial, draws, count),
                         found, bestSolution, bestDistance, bestIndex);
    FirstMinUnique(Lengths(cities, w, Evaluated(cities, w, initial, draws, count + 1)), bestIndex');
    ProgressStep(cities, w, initial, draws, count, progress, bestDistance, bestDistance');
    progress' := progress + [bestDistance'];
  }

  lemma BestTraceStep(cities: seq<City>, w: Weight, initial: seq<seq<int>>, draws: seq<seq<ChildDraws>>,
                      count: nat)
    requires IsPopulation(initial, |cities|) && ValidRunDraws(draws, |cities|) && count < |draws|
    ensures BestTrace(cities, w, initial, draws, count + 1)
         == BestTrace(cities, w, initial, draws, count)
            + [BestLength(Lengths(cities, w, Evaluated(cities, w, initial, draws, count + 1)))]
  {
    var longer := BestTrace(cities, w, initial, draws, count + 1);
    var shorter := BestTrace(cities, w, initial, draws, count);
    var last := BestLength(Lengths(cities, w, Evaluated(cities, w, initial, draws, count + 1)));
    forall g | 0 <= g <= count ensures longer[g] == (shorter + [last])[g] {
      if g < count {
        assert longer[g] == shorter[g];
      }
    }
  }

  /** What a run returns: the first shortest of all tours evaluated in the run and its length, and
      one best-so-far entry per generation, which never increases and ends at the returned length. */
  ghost predicate GeneticResult(cities: seq<City>, w: Weight, initial: seq<seq<int>>, draws: seq<seq<ChildDraws>>,
                                bestTour: seq<int>, bestDistance: real, progress: seq<real>)
    requires IsPopulation(initial, |cities|) && ValidRunDraws(draws, |cities|) && |draws| == Generations
  {
    var evaluated := Evaluated(cities, w, initial, draws, Generations);
    && progress == BestTrace(cities, w, initial, draws, Generations)
    && NonIncreasing(progress)
    && |evaluated| > 0
    && bestTour == evaluated[FirstMinIndex(Lengths(cities, w, evaluated))]
    && IsPermutation(bestTour, |cities|)
    && bestDistance == TourLength(cities, w, bestTour)
    && bestDistance == progress[Generations - 1]
  }

  /** Before the first generation nothing has been evaluated and nothing recorded. */
  lemma StartLoopState(cities: seq<City>, w: Weight, initial: seq<seq<int>>, draws: seq<seq<ChildDraws>>)
    requires IsPopulation(initial, |cities|) && ValidRunDraws(draws, |cities|)
    ensures RunState(cities, w, initial, draws, 0, initial, false, [], 0.0, 0)
    ensures RunProgress(cities, w, initial, draws, 0, [], 0.0)
  {
    assert Evaluated(cities, w, initial, draws, 0) == [];
  }

  /** After the last generation, the loop state is the run's result. */
  lemma FinalState(cities: seq<City>, w: Weight, initial: seq<seq<int>>, draws: seq<seq<ChildDraws>>,
                   population: seq<seq<int>>, bestSolution: seq<int>, bestDistance: real, bestIndex: int,
                   progress: seq<real>)
    requires IsPopulation(initial, |cities|) && ValidRunDraws(draws, |cities|) && |draws| == Generations
    requires RunState(cities, w, initial, draws, Generations, population, true, bestSolution, bestDistance, bestIndex)
    requires RunProgress(cities, w, initial, draws, Generations, progress, bestDistance)
    ensures GeneticResult(cities, w, initial, draws, bestSolution, bestDistance, progress)
  {
    var evaluated := Evaluated(cities, w, initial, draws, Generations);
    FirstMinUnique(Lengths(cities, w, evaluated), bestIndex);
  }

  /** The generational loop. `best_distance` starts at +infinity, which `found` stands for: until
      the first tour is evaluated, any distance improves on it. */
  method RunGeneticAlgorithm(cities: seq<City>, w: Weight, initial: seq<seq<int>>, draws: seq<seq<ChildDraws>>)
    returns (outcome: Outcome)
    requires |cities| > 0 ==>
      IsPopulation(initial, |cities|) && |draws| == Generations && ValidRunDraws(draws, |cities|)
    ensures outcome.NoCities? <==> |cities| == 0
    ensures outcome.Solved? ==>
      GeneticResult(cities, w, initial, draws, outcome.bestTour, outcome.bestDistance, outcome.progress)
  {
    if |cities| == 0 {
      return NoCities;
    }
    var population := initial;
    var bestDistance: real := 0.0;
    var bestSolution: seq<int> := [];
    var found := false;
    var progress: seq<real> := [];
    ghost var bestIndex := 0;
    StartLoopState(cities, w, initial, draws);
    for generation := 0 to Generations
      invariant RunState(cities, w, initial, draws, generation, population, found, bestSolution, bestDistance, bestIndex)
      invariant RunProgress(cities, w, initial, draws, generation, progress, bestDistance)
    {
      population, found, bestSolution, bestDistance, bestIndex, progress :=
        RunGeneration(cities, w, initial, draws, generation, population, found, bestSolution, bestDistance, bestIndex,
                      progress);
    }
    FinalState(cities, w, initial, draws, population, bestSolution, bestDistance, bestIndex, progress);
    return Solved(bestSolution, bestDistance, progress);
  }
}
