/** The annealing solver: a random walk over tours by swap moves, accepting every move that does
    not lengthen the current tour and others by a Metropolis coin, while the temperature cools
    geometrically. The walk is specified for any objective `cost` and neighbour `move`; the
    solver instantiates them with the tour length and the swap of two positions. The random
    choices of a run are inputs. */
module AnnealingSolver {
  import opened CityField
  import opened Permutations
  import opened TourEvaluator
  import opened SearchOutcome

  const InitialTemperature: real := 10000.0
  const FinalTemperature: real := 0.00000001

  /** The random choices of one iteration: the two positions the neighbour move swaps, and the
      outcome of the comparison `random() < exp(-delta / temperature)` for a longer move. */
  datatype StepDraw = StepDraw(swap1: nat, swap2: nat, metropolis: bool)

  /** The positions are two distinct positions of the tour (sampling without replacement). */
  predicate ValidStepDraw(d: StepDraw, n: nat) {
    d.swap1 < n && d.swap2 < n && d.swap1 != d.swap2
  }

  /** Every iteration's draws are valid. */
  ghost predicate ValidDraws(draws: nat -> StepDraw, n: nat) {
    forall i: nat :: ValidStepDraw(draws(i), n)
  }

  /** The variables the loop carries from one iteration to the next. */
  datatype SearchState = SearchState(current: seq<int>, currentDistance: real, best: seq<int>, bestDistance: real)

  /** Each recorded distance is its tour's cost, and the best is no costlier than the current
      tour. */
  predicate Consistent(cost: seq<int> -> real, st: SearchState) {
    && st.currentDistance == cost(st.current)
    && st.bestDistance == cost(st.best)
    && st.bestDistance <= st.currentDistance
  }

  /** The Metropolis test for a move changing the cost by `delta`. When delta <= 0 the threshold
      exp(-delta / temperature) is at least 1 and exceeds every value random() returns; for a
      longer move the outcome is the drawn coin. */
  function MetropolisPasses(delta: real, coin: bool): (accept: bool)
    ensures delta <= 0.0 ==> accept
    ensures delta > 0.0 ==> (accept <==> coin)
  {
    delta <= 0.0 || coin
  }

  /** A neighbour move: the candidate tour built from the current tour and two drawn positions. */
  type Move = (seq<int>, nat, nat) -> seq<int>

  /** One iteration: build the candidate by the move, accept it when it is shorter or passes the
      Metropolis test, and keep the best tour seen. */
  function Step(cost: seq<int> -> real, move: Move, st: SearchState, d: StepDraw): (next: SearchState)
    requires Consistent(cost, st)
    ensures Consistent(cost, next)
    ensures var candidate := move(st.current, d.swap1, d.swap2);
      var delta := cost(candidate) - st.currentDistance;
      && (delta < 0.0 ==> next.current == candidate)
      && (MetropolisPasses(delta, d.metropolis) ==> next.current == candidate)
      && (!MetropolisPasses(delta, d.metropolis) ==> next == st)
    ensures next.bestDistance <= st.bestDistance
    ensures next.currentDistance < st.bestDistance ==> next.best == next.current
    ensures next.currentDistance >= st.bestDistance ==> next.best == st.best
  {
    var candidate := move(st.current, d.swap1, d.swap2);
    var distance := cost(candidate);
    var delta := distance - st.currentDistance;
    if delta < 0.0 || MetropolisPasses(delta, d.metropolis) then
      if distance < st.bestDistance then SearchState(candidate, distance, candidate, distance)
      else SearchState(candidate, distance, st.best, st.bestDistance)
    else st
  }

  /** The state before the first iteration: the initial tour is both current and best. */
  function StartState(cost: seq<int> -> real, initial: seq<int>): (st: SearchState)
    ensures Consistent(cost, st)
    ensures st.current == initial && st.best == initial
  {
    SearchState(initial, cost(initial), initial, cost(initial))
  }

  /** The state after k iterations. */
  ghost function Anneal(cost: seq<int> -> real, move: Move, initial: seq<int>, draws: nat -> StepDraw, k: nat)
    : (st: SearchState)
    ensures Consistent(cost, st)
  {
    if k == 0 then StartState(cost, initial)
    else Step(cost, move, Anneal(cost, move, initial, draws, k - 1), draws(k - 1))
  }

  /** The best-so-far cost recorded after each of the first k iterations. */
  ghost function AnnealTrace(cost: seq<int> -> real, move: Move, initial: seq<int>, draws: nat -> StepDraw, k: nat)
    : (trace: seq<real>)
    ensures |trace| == k
  {
    if k == 0 then [] else AnnealTrace(cost, move, initial, draws, k - 1) + [Anneal(cost, move, initial, draws, k).bestDistance]
  }

  /** The temperature during iteration i: the initial temperature cooled i times by the cooling
      rate 0.995 (written out as a literal wherever it multiplies, which keeps the arithmetic
      linear for the verifier). */
  function Temperature(i: nat): (t: real)
    ensures t > 0.0
  {
    if i == 0 then InitialTemperature else Temperature(i - 1) * 0.995
  }

  lemma TemperatureStep(i: nat)
    ensures Temperature(i + 1) == Temperature(i) * 0.995
  {
  }

  /** Each of the first k iterations ran above the final temperature. */
  ghost predicate AboveFinal(k: nat) {
    forall i: nat :: i < k ==> Temperature(i) > FinalTemperature
  }

  lemma AboveFinalStep(k: nat)
    requires AboveFinal(k) && Temperature(k) > FinalTemperature
    ensures AboveFinal(k + 1)
  {
  }

  /** The solver's neighbour move: a copy of the tour with the two drawn positions exchanged
      (positions outside the tour, which valid draws never give, leave it as it is). */
  const SwapMove: Move := (t: seq<int>, i: nat, j: nat) => if i < |t| && j < |t| then SwapCities(t, i, j) else t

  /** Under the swap move and valid draws, both tours of every state of the walk are tours. */
  lemma {:induction false} AnnealTours(cost: seq<int> -> real, initial: seq<int>, draws: nat -> StepDraw,
                                       n: nat, k: nat)
    requires IsPermutation(initial, n) && ValidDraws(draws, n)
    ensures IsPermutation(Anneal(cost, SwapMove, initial, draws, k).current, n)
    ensures IsPermutation(Anneal(cost, SwapMove, initial, draws, k).best, n)
  {
    if k > 0 {
      var p := k - 1;
      AnnealTours(cost, initial, draws, n, p);
      AnnealStep(cost, SwapMove, initial, draws, p);
      StepTours(cost, Anneal(cost, SwapMove, initial, draws, p), draws(p), n);
    }
  }

  /** A swap step on tours yields tours. */
  lemma StepTours(cost: seq<int> -> real, st: SearchState, d: StepDraw, n: nat)
    requires Consistent(cost, st) && IsPermutation(st.current, n) && IsPermutation(st.best, n)
    requires ValidStepDraw(d, n)
    ensures IsPermutation(Step(cost, SwapMove, st, d).current, n)
    ensures IsPermutation(Step(cost, SwapMove, st, d).best, n)
  {
    SwapCitiesIsPermutation(st.current, n, d.swap1, d.swap2);
  }

  lemma AnnealStep(cost: seq<int> -> real, move: Move, initial: seq<int>, draws: nat -> StepDraw, k: nat)
    ensures Anneal(cost, move, initial, draws, k + 1) == Step(cost, move, Anneal(cost, move, initial, draws, k), draws(k))
  {
  }

  lemma AnnealStepBest(cost: seq<int> -> real, move: Move, initial: seq<int>, draws: nat -> StepDraw, k: nat)
    ensures Anneal(cost, move, initial, draws, k + 1).bestDistance <= Anneal(cost, move, initial, draws, k).bestDistance
  {
  }

  /** The best cost never increases along the walk. */
  lemma {:induction false} AnnealBestMonotone(cost: seq<int> -> real, move: Move, initial: seq<int>,
                                              draws: nat -> StepDraw, i: nat, j: nat)
    requires i <= j
    ensures Anneal(cost, move, initial, draws, j).bestDistance <= Anneal(cost, move, initial, draws, i).bestDistance
    decreases j - i
  {
    if i < j {
      AnnealStepBest(cost, move, initial, draws, i);
      AnnealBestMonotone(cost, move, initial, draws, i + 1, j);
    }
  }

  /** The best cost is at most the cost of every tour the walk has been at. */
  lemma AnnealBestBelowVisited(cost: seq<int> -> real, move: Move, initial: seq<int>, draws: nat -> StepDraw,
                               i: nat, j: nat)
    requires i <= j
    ensures Anneal(cost, move, initial, draws, j).bestDistance <= cost(Anneal(cost, move, initial, draws, i).current)
  {
    AnnealBestMonotone(cost, move, initial, draws, i, j);
  }

  lemma AnnealStepChoice(cost: seq<int> -> real, move: Move, initial: seq<int>, draws: nat -> StepDraw, k: nat)
    ensures var next := Anneal(cost, move, initial, draws, k + 1);
      next.best == Anneal(cost, move, initial, draws, k).best || next.best == next.current
  {
  }

  /** The best tour is one the walk has been at. */
  lemma {:induction false} AnnealBestVisited(cost: seq<int> -> real, move: Move, initial: seq<int>,
                                             draws: nat -> StepDraw, j: nat)
    ensures exists i :: 0 <= i <= j && Anneal(cost, move, initial, draws, j).best == Anneal(cost, move, initial, draws, i).current
  {
    var st := Anneal(cost, move, initial, draws, j);
    if j == 0 || st.best == st.current {
      assert st.best == Anneal(cost, move, initial, draws, j).current;
    } else {
      var p := j - 1;
      AnnealStepChoice(cost, move, initial, draws, p);
      AnnealBestVisited(cost, move, initial, draws, p);
      var i :| 0 <= i <= p && Anneal(cost, move, initial, draws, p).best == Anneal(cost, move, initial, draws, i).current;
      assert st.best == Anneal(cost, move, initial, draws, i).current;
    }
  }

  /** Entry i of the trace is the best cost after iteration i + 1. */
  lemma {:induction false} AnnealTraceAt(cost: seq<int> -> real, move: Move, initial: seq<int>,
                                         draws: nat -> StepDraw, k: nat, i: nat)
    requires i < k
    ensures AnnealTrace(cost, move, initial, draws, k)[i] == Anneal(cost, move, initial, draws, i + 1).bestDistance
  {
    var prefix := AnnealTrace(cost, move, initial, draws, k - 1);
    assert AnnealTrace(cost, move, initial, draws, k) == prefix + [Anneal(cost, move, initial, draws, k).bestDistance];
    if i < k - 1 {
      AnnealTraceAt(cost, move, initial, draws, k - 1, i);
    } else {
      assert i + 1 == k;
    }
  }

  lemma AnnealTraceStep(cost: seq<int> -> real, move: Move, initial: seq<int>, draws: nat -> StepDraw, k: nat)
    ensures AnnealTrace(cost, move, initial, draws, k + 1)
         == AnnealTrace(cost, move, initial, draws, k) + [Anneal(cost, move, initial, draws, k + 1).bestDistance]
  {
  }

  /** The recorded progress never increases. */
  lemma {:induction false} AnnealTraceNonIncreasing(cost: seq<int> -> real, move: Move, initial: seq<int>,
                                                    draws: nat -> StepDraw, k: nat)
    ensures NonIncreasing(AnnealTrace(cost, move, initial, draws, k))
  {
    if k > 0 {
      var p := k - 1;
      var trace := AnnealTrace(cost, move, initial, draws, p);
      var last := Anneal(cost, move, initial, draws, p + 1).bestDistance;
      AnnealTraceNonIncreasing(cost, move, initial, draws, p);
      if p > 0 {
        AnnealTraceAt(cost, move, initial, draws, p, p - 1);
      }
      AnnealStepBest(cost, move, initial, draws, p);
      NonIncreasingAppend(trace, last);
      AnnealTraceStep(cost, move, initial, draws, p);
    }
  }

  /** Whole iterations left before the temperature reaches the final temperature: while it is
      above the final temperature, each cooling step lowers it by more than
      (1 - 0.995) * FinalTemperature. */
  function StepsLeft(temperature: real): int {
    ((temperature - FinalTemperature) / ((1.0 - 0.995) * FinalTemperature)).Floor
  }

  lemma CoolingShortens(temperature: real)
    requires temperature > FinalTemperature
    ensures 0 <= StepsLeft(temperature)
    ensures StepsLeft(temperature * 0.995) < StepsLeft(temperature)
  {
    var c := (1.0 - 0.995) * FinalTemperature;
    var x := (temperature - FinalTemperature) / c;
    var y := (temperature * 0.995 - FinalTemperature) / c;
    assert x - y == temperature / FinalTemperature;
    assert y <= x - 1.0;
  }

  /** The objective the solver anneals: the length of the closed tour (a sequence that is not a
      tour never reaches it). */
  function TourCost(cities: seq<City>, w: Weight): (cost: seq<int> -> real)
    ensures forall t :: InRange(t, |cities|) ==> cost(t) == TourLength(cities, w, t)
  {
    t => if InRange(t, |cities|) then TourLength(cities, w, t) else 0.0
  }

  /** What a finished run reports: the walk cooled for exactly |progress| iterations, progress
      holds the best length after each of them, and the best tour is the walk's best state: a
      tour no longer than the initial tour or any tour the walk has been at. */
  ghost predicate AnnealResult(cities: seq<City>, w: Weight, initial: seq<int>, draws: nat -> StepDraw,
                               bestTour: seq<int>, bestDistance: real, progress: seq<real>)
  {
    var k := |progress|;
    var cost := TourCost(cities, w);
    && AboveFinal(k)
    && Temperature(k) <= FinalTemperature
    && progress == AnnealTrace(cost, SwapMove, initial, draws, k)
    && NonIncreasing(progress)
    && bestTour == Anneal(cost, SwapMove, initial, draws, k).best
    && bestDistance == Anneal(cost, SwapMove, initial, draws, k).bestDistance
    && IsPermutation(bestTour, |cities|)
    && bestDistance == TourLength(cities, w, bestTour)
    && (InRange(initial, |cities|) ==> bestDistance <= TourLength(cities, w, initial))
  }

  /** The loop's state after |progress| iterations: the search state of the walk, the recorded
      best lengths, the temperature cooled |progress| times, and every finished iteration having
      run above the final temperature. */
  ghost predicate LoopState(cities: seq<City>, w: Weight, initial: seq<int>, draws: nat -> StepDraw,
                            st: SearchState, progress: seq<real>, temperature: real)
  {
    && st == Anneal(TourCost(cities, w), SwapMove, initial, draws, |progress|)
    && progress == AnnealTrace(TourCost(cities, w), SwapMove, initial, draws, |progress|)
    && temperature == Temperature(|progress|)
    && AboveFinal(|progress|)
  }

  /** Inside the loop the current tour is a tour and the search state is consistent. */
  lemma LoopTour(cities: seq<City>, w: Weight, initial: seq<int>, draws: nat -> StepDraw,
                 st: SearchState, progress: seq<real>, temperature: real)
    requires IsPermutation(initial, |cities|) && ValidDraws(draws, |cities|)
    requires LoopState(cities, w, initial, draws, st, progress, temperature)
    ensures IsPermutation(st.current, |cities|)
    ensures Consistent(TourCost(cities, w), st)
  {
    AnnealTours(TourCost(cities, w), initial, draws, |cities|, |progress|);
  }

  /** One iteration above the final temperature advances the loop state by one Step and one
      cooling, and leaves fewer iterations to go. */
  lemma LoopStep(cities: seq<City>, w: Weight, initial: seq<int>, draws: nat -> StepDraw,
                 st: SearchState, progress: seq<real>, temperature: real, next: SearchState)
    requires LoopState(cities, w, initial, draws, st, progress, temperature)
    requires temperature > FinalTemperature
    requires next == Step(TourCost(cities, w), SwapMove, st, draws(|progress|))
    ensures LoopState(cities, w, initial, draws, next, progress + [next.bestDistance], temperature * 0.995)
    ensures 0 <= StepsLeft(temperature)
    ensures StepsLeft(temperature * 0.995) < StepsLeft(temperature)
  {
    AnnealTraceStep(TourCost(cities, w), SwapMove, initial, draws, |progress|);
    AnnealStep(TourCost(cities, w), SwapMove, initial, draws, |progress|);
    TemperatureStep(|progress|);
    AboveFinalStep(|progress|);
    CoolingShortens(temperature);
  }

  lemma LoopDone(cities: seq<City>, w: Weight, initial: seq<int>, draws: nat -> StepDraw,
                 st: SearchState, progress: seq<real>, temperature: real)
    requires IsPermutation(initial, |cities|) && ValidDraws(draws, |cities|)
    requires LoopState(cities, w, initial, draws, st, progress, temperature)
    requires temperature <= FinalTemperature
    ensures AnnealResult(cities, w, initial, draws, st.best, st.bestDistance, progress)
  {
    var cost := TourCost(cities, w);
    AnnealTraceNonIncreasing(cost, SwapMove, initial, draws, |progress|);
    AnnealBestBelowVisited(cost, SwapMove, initial, draws, 0, |progress|);
    AnnealTours(cost, initial, draws, |cities|, |progress|);
  }

  /** Before the first iteration the initial tour is current and best, nothing is recorded and
      the temperature is the initial one. */
  lemma LoopStart(cities: seq<City>, w: Weight, initial: seq<int>, draws: nat -> StepDraw)
    requires IsPermutation(initial, |cities|)
    ensures var d := TourLength(cities, w, initial);
      LoopState(cities, w, initial, draws, SearchState(initial, d, initial, d), [], InitialTemperature)
  {
  }

  /** On a tour and valid positions, the solver's move is the swap and its cost the tour length. */
  lemma SwapMoveCost(cities: seq<City>, w: Weight, tour: seq<int>, d: StepDraw)
    requires IsPermutation(tour, |cities|) && ValidStepDraw(d, |cities|)
    ensures SwapMove(tour, d.swap1, d.swap2) == SwapCities(tour, d.swap1, d.swap2)
    ensures IsPermutation(SwapCities(tour, d.swap1, d.swap2), |cities|)
    ensures TourCost(cities, w)(SwapCities(tour, d.swap1, d.swap2)) == TourLength(cities, w, SwapCities(tour, d.swap1, d.swap2))
  {
    SwapCitiesIsPermutation(tour, |cities|, d.swap1, d.swap2);
  }

  /** One iteration of the annealing loop on the solver's variables: it computes Step. */
  method AnnealIteration(cities: seq<City>, w: Weight, current: seq<int>, currentDistance: real,
                    best: seq<int>, bestDistance: real, d: StepDraw)
    returns (current': seq<int>, currentDistance': real, best': seq<int>, bestDistance': real)
    requires IsPermutation(current, |cities|) && ValidStepDraw(d, |cities|)
    requires Consistent(TourCost(cities, w), SearchState(current, currentDistance, best, bestDistance))
    ensures SearchState(current', currentDistance', best', bestDistance')
         == Step(TourCost(cities, w), SwapMove, SearchState(current, currentDistance, best, bestDistance), d)
  {
    SwapMoveCost(cities, w, current, d);
    current', currentDistance', best', bestDistance' := current, currentDistance, best, bestDistance;
    var newSolution := SwapCities(current, d.swap1, d.swap2);
    var newDistance := TotalDistance(cities, w, newSolution);
    var delta := newDistance - currentDistance;
    if delta < 0.0 || MetropolisPasses(delta, d.metropolis) {
      current' := newSolution;
      currentDistance' := newDistance;
      if currentDistance' < bestDistance {
        best' := current';
        bestDistance' := currentDistance';
      }
    }
  }

  /** The annealing run: from the initial tour, propose a swap of two positions, accept it when it
      is shorter or passes the Metropolis test, keep the best tour seen, record the best length
      and cool, until the temperature is no longer above the final temperature. */
  method SimulatedAnnealing(cities: seq<City>, w: Weight, initial: seq<int>, draws: nat -> StepDraw)
    returns (outcome: Outcome)
    requires |cities| > 0 ==> IsPermutation(initial, |cities|) && ValidDraws(draws, |cities|)
    ensures outcome.NoCities? <==> |cities| == 0
    ensures outcome.Solved? ==>
      AnnealResult(cities, w, initial, draws, outcome.bestTour, outcome.bestDistance, outcome.progress)
  {
    if |cities| == 0 {
      return NoCities;
    }
    var current := initial;
    var currentDistance := TotalDistance(cities, w, current);
    var best := current;
    var bestDistance := currentDistance;
    var progress: seq<real> := [];
    var temperature := InitialTemperature;
    LoopStart(cities, w, initial, draws);
    while temperature > FinalTemperature
      invariant LoopState(cities, w, initial, draws, SearchState(current, currentDistance, best, bestDistance), progress, temperature)
      decreases StepsLeft(temperature)
    {
      ghost var st := SearchState(current, currentDistance, best, bestDistance);
      LoopTour(cities, w, initial, draws, st, progress, temperature);
      current, currentDistance, best, bestDistance :=
        AnnealIteration(cities, w, current, currentDistance, best, bestDistance, draws(|progress|));
      LoopStep(cities, w, initial, draws, st, progress, temperature,
               SearchState(current, currentDistance, best, bestDistance));
      progress := progress + [bestDistance];
      temperature := temperature * 0.995;
    }
    LoopDone(cities, w, initial, draws, SearchState(current, currentDistance, best, bestDistance), progress, temperature);
    return Solved(best, bestDistance, progress);
  }
}
