# Travelling salesman optimisation engine

This project models the optimisation core of a small travelling-salesman application
(`z1c_127150.py`) and proves properties of it. The application places cities on a grid and
searches for a short closed tour through all of them with two independent solvers:

- a **genetic algorithm**:
  - tournament selection of parents;
  - order-preserving ("OX") crossover;
  - at most one swap mutation per child;
  - a generational loop that keeps the best tour evaluated so far.
- **simulated annealing**:
  - a walk over tours by swapping two positions;
  - the Metropolis acceptance rule;
  - geometric cooling from 10000 down to 1e-8 by a factor of 0.995 per iteration;
  - keeps the best tour seen.

Both solvers record one best-so-far length per iteration (the progress trace).

Modules:

- `CityField` (`cities.dfy`): cities with integer coordinates and edge weights. The squared
  Euclidean distance and its metric facts live here.
- `Permutations` (`permutations.dfy`):
  - tours as permutations of the city indices 0..n-1, and the counting facts about them;
  - the swap of two positions (`swap_cities`).
- `TourEvaluator` (`evaluator.dfy`):
  - the closed-tour length, and the running-total loop that computes it;
  - its invariance under rotation and reversal, and its non-negativity.
- `TourOperators` (`operators.dfy`): crossover and mutation. Crossover keeps the source's
  in-place fill of a child array; mutation swaps two cells of an array in place.
- `SearchOutcome` (`outcome.dfy`): the result of a run, and non-increasing traces.
- `GeneticSolver` (`genetic.dfy`):
  - tournament selection, breeding one child, and one generation;
  - the evaluation pass and the generational loop.
- `AnnealingSolver` (`annealing.dfy`): the annealing step and the cooling loop.
  - The walk is specified once, for any objective `cost` and neighbour `move`, by `Step`,
    `Anneal` and `AnnealTrace`.
  - The solver method instantiates them with the tour length and the swap move.

Each loop of the source is a method whose contract ties its result to a specification
function. The properties the source relies on are proved about those functions. The random
choices of a run are parameters:

- per child: the tournament samples, the crossover coin and cut points, and the mutation coin
  and positions;
- per annealing iteration: the two swap positions and the outcome of the Metropolis
  comparison.

Validity predicates state what `random.sample` can return: distinct positions, and sorted cut
points.

## Model

| member | source | states |
|---|---|---|
| CityField.SquaredDistance | z1c_127150.py:53-54 | the quantity under the square root is non-negative, and zero exactly when the two cities coincide |
| CityField.SquaredDistanceSymmetric | z1c_127150.py:53-54 | the distance from a to b equals the distance from b to a |
| CityField.EuclideanWeightIsSymmetricNonNegative | z1c_127150.py:53-54 | any weight that is the non-negative square root of the squared distance, as `calculate_distance` is, is symmetric, non-negative and zero from a city to itself, so the tour-length results apply to the distance the solvers sum |
| CityField.SquareRootUnique | z1c_127150.py:54 | the non-negative square root is unique, so the distance is determined by the squared distance |
| CityField.SquaredEuclideanIsSymmetricNonNegative | z1c_127150.py:53-54 | the Euclidean-style weight is symmetric and non-negative, so the reversal and non-negativity results for tour length apply to it |
| TourEvaluator.TourLength | z1c_127150.py:75-79 | defines the length of a closed tour as the sum of its n edges, the last from the final city back to the first; with a non-negative weight it is non-negative |
| TourEvaluator.TotalDistance | z1c_127150.py:75-79 | the running total over i in 0..n-1 of the weight between tour[i] and tour[(i+1) % n] equals TourLength, the sum of the n edges of the closed tour including the edge from the last city back to the first |
| TourEvaluator.NextPosition | z1c_127150.py:78 | (i + 1) % n is the position after i on the closed tour: i + 1, or 0 after the last position |
| TourEvaluator.TourLengthRotation | z1c_127150.py:75-79 | the length of a closed tour does not depend on the city it starts from |
| TourEvaluator.TourLengthReversal | z1c_127150.py:75-79 | with a symmetric weight, travelling the tour backwards gives the same length |
| TourEvaluator.TourLengthNonNegative | z1c_127150.py:75-79 | with a non-negative weight, every tour has non-negative length |
| TourEvaluator.RotatedIsPermutation | z1c_127150.py:75-79 | a rotated tour is still a tour, so the rotation result compares two tours |
| Permutations.SwapCities | z1c_127150.py:188-192 | the copy has the same length, positions i and j exchanged, and every other position unchanged |
| Permutations.SwapCitiesMultiset | z1c_127150.py:188-192 | exchanging two positions keeps every city with its multiplicity |
| Permutations.SwapCitiesIsPermutation | z1c_127150.py:188-192 | exchanging two positions of a tour gives a tour |
| TourOperators.Remaining | z1c_127150.py:107-110 | defines the genes parent2 contributes: its genes outside parent1's slice, in parent2's order; there are at most as many as parent2 has |
| TourOperators.OrderCrossover | z1c_127150.py:101-110 | defines the crossover child: parent1's slice [start, end] in place, the other positions filled cyclically from end+1 with Remaining; the child has n positions and keeps the slice |
| TourOperators.Crossover | z1c_127150.py:97-112 | when the coin exceeds the crossover rate the child is parent1; otherwise the array fill equals OrderCrossover; either way the child is a tour |
| TourOperators.OrderCrossoverShape | z1c_127150.py:101-110 | the child keeps parent1's slice [start, end] in place; the free positions, taken cyclically from end+1, hold parent2's genes outside the slice in parent2's order, and there are exactly as many such genes as free positions |
| TourOperators.OrderCrossoverIsPermutation | z1c_127150.py:97-112 | the crossover of two tours is a tour, for every pair of cut points |
| TourOperators.OrderCrossoverExample | z1c_127150.py:101-112 | parents [0,1,2,3,4] and [4,3,2,1,0] with cut points 1 and 3 give the child [0,1,2,3,4] |
| TourOperators.RemainingExample | z1c_127150.py:107-110 | scanning [4,3,2,1,0] past the slice {1,2,3} leaves 4 and then 0 |
| TourOperators.ScanStep | z1c_127150.py:107-110 | a scanned gene of parent2 is already in the child exactly when it is in parent1's slice; otherwise it is written at the cursor, which moves to the next free position |
| TourOperators.GeneInChild | z1c_127150.py:108 | the membership test on the partly filled child is the same as membership in parent1's slice |
| TourOperators.FreeSlotLeft | z1c_127150.py:107-110 | a gene outside the slice always finds a free position, so the cursor never overwrites the slice or an earlier gene |
| TourOperators.RemainingMembers | z1c_127150.py:107-110 | the genes parent2 contributes are exactly its genes outside parent1's slice |
| TourOperators.RemainingDistinct | z1c_127150.py:107-110 | parent2 contributes each gene at most once |
| TourOperators.RemainingCount | z1c_127150.py:104-110 | parent2 contributes n - (end - start + 1) genes, one per free position |
| TourOperators.FillStep | z1c_127150.py:109-110 | writing one more gene changes exactly the next free position |
| TourOperators.StartChild | z1c_127150.py:102-104 | a new array holding parent1's slice in place and -1 everywhere else |
| TourOperators.Mutate | z1c_127150.py:115-118 | below the mutation rate, the cells idx1 and idx2 are exchanged and nothing else changes; otherwise the array is untouched; either way it holds the same cities |
| GeneticSolver.FirstMinIndex | z1c_127150.py:94 | the position of the first smallest value: no later value is smaller, and every earlier value is strictly larger |
| GeneticSolver.FirstMinUnique | z1c_127150.py:94 | only one position is the first smallest |
| GeneticSolver.TournamentSelection | z1c_127150.py:91-94 | the winner is one of the sampled tours and no longer than any of them; every tour sampled before it is strictly longer (Python's `min` keeps the first of equal keys); the winner is a tour |
| GeneticSolver.Offspring | z1c_127150.py:124-127 | the child of one set of draws is a tour |
| GeneticSolver.Breed | z1c_127150.py:124-128 | selection, crossover and in-place mutation produce Offspring, a tour |
| GeneticSolver.NextPopulation | z1c_127150.py:121-129 | one child per draw record, all of them tours |
| GeneticSolver.NextPopulationStep | z1c_127150.py:123-128 | each pass appends its child after the earlier children |
| GeneticSolver.EvolvePopulation | z1c_127150.py:121-129 | the new population is NextPopulation: PopulationSize tours, bred in order |
| GeneticSolver.Flatten | z1c_127150.py:142-145 | the tours of all generations, in evaluation order, are tours |
| GeneticSolver.KeepsBestImproved | z1c_127150.py:146-148 | the first tour evaluated, or one strictly shorter than the best so far, becomes the first shortest |
| GeneticSolver.KeepsBestKept | z1c_127150.py:146 | a tour no shorter than the best so far leaves it in place, so on a tie the earlier tour stays |
| GeneticSolver.EvaluatePopulation | z1c_127150.py:144-148 | after the pass, the best is the first shortest of all tours evaluated so far and its length; the best length has not grown |
| GeneticSolver.BestTrace | z1c_127150.py:142-150 | defines `genetic_progress`: after generation g, the shortest length over every tour evaluated in generations 0..g; one entry per generation |
| GeneticSolver.BestTraceStep | z1c_127150.py:150 | each generation appends the best length over every tour evaluated up to it |
| GeneticSolver.ProgressStep | z1c_127150.py:150 | appending that length keeps the progress trace non-increasing and ending at the current best |
| GeneticSolver.RunGeneration | z1c_127150.py:142-150 | one generation advances the population, the best record and the progress trace by exactly one generation |
| GeneticSolver.StartLoopState | z1c_127150.py:137-140 | before the first generation nothing is evaluated and nothing recorded |
| GeneticSolver.FinalState | z1c_127150.py:142-150 | after the last generation, the loop state is the run's result |
| GeneticSolver.RunGeneticAlgorithm | z1c_127150.py:132-150 | no cities gives no result; otherwise the returned tour is the first shortest of all tours evaluated in the 500 generations, with its length; the progress trace has one entry per generation, never increases, and ends at that length |
| SearchOutcome.NonIncreasingAppend | z1c_127150.py:150 | recording a value no larger than the last keeps a trace non-increasing |
| AnnealingSolver.MetropolisPasses | z1c_127150.py:218 | the acceptance test `random() < exp(-delta / temperature)`: a move that does not lengthen the tour (delta <= 0, where the threshold is at least 1) always passes; a longer move passes exactly when the drawn comparison succeeds |
| AnnealingSolver.StartState | z1c_127150.py:201-206 | the initial tour is both current and best, each distance its cost |
| AnnealingSolver.Anneal | z1c_127150.py:212-224 | defines the search state after k iterations: k Steps from StartState with the draws of iterations 0..k-1; every such state is consistent (distances are costs, best no costlier than current) |
| AnnealingSolver.AnnealTrace | z1c_127150.py:226 | defines `sa_progress` after k iterations: the best length after each of them, k entries |
| AnnealingSolver.Step | z1c_127150.py:213-224 | a shorter candidate is always accepted; a candidate passing the Metropolis test becomes current; a rejected one leaves the state unchanged; the best length never increases; best becomes current exactly when current beats it; distances stay the costs of their tours |
| AnnealingSolver.AnnealBestMonotone | z1c_127150.py:222-224 | along the walk the best length never increases |
| AnnealingSolver.AnnealBestBelowVisited | z1c_127150.py:222-224 | the best length is at most the length of every tour the walk has been at, the initial tour included |
| AnnealingSolver.AnnealBestVisited | z1c_127150.py:222-224 | the best tour is a tour the walk has been at |
| AnnealingSolver.AnnealTraceAt | z1c_127150.py:226 | entry i of the progress trace is the best length after iteration i + 1 |
| AnnealingSolver.AnnealTraceNonIncreasing | z1c_127150.py:226 | the progress trace never increases |
| AnnealingSolver.AnnealTours | z1c_127150.py:201-224 | with valid draws, the current and the best are tours at every iteration |
| AnnealingSolver.StepTours | z1c_127150.py:213-224 | one swap step on tours yields tours |
| AnnealingSolver.Temperature | z1c_127150.py:209-228 | the temperature stays strictly positive, so the division in the Metropolis test is defined |
| AnnealingSolver.CoolingShortens | z1c_127150.py:212-228 | above the final temperature, one cooling step lowers a non-negative bound on the remaining iterations, so the loop ends |
| AnnealingSolver.TourCost | z1c_127150.py:214 | on tours, the annealed objective is the tour length |
| AnnealingSolver.SwapMoveCost | z1c_127150.py:213-214 | on a tour and valid positions, the move is the swap, gives a tour, and its cost is its length |
| AnnealingSolver.AnnealIteration | z1c_127150.py:213-224 | one loop iteration on the solver's variables computes Step |
| AnnealingSolver.LoopTour | z1c_127150.py:212-224 | inside the loop the current tour is a tour and the recorded distances are the tours' lengths |
| AnnealingSolver.LoopStep | z1c_127150.py:212-228 | one iteration advances the walk by one Step, appends its best length, cools once, and leaves fewer iterations to go |
| AnnealingSolver.LoopDone | z1c_127150.py:212-228 | when the loop stops, its state is the run's result |
| AnnealingSolver.SimulatedAnnealing | z1c_127150.py:196-228 | no cities gives no result. Otherwise the loop runs exactly while the temperature is above 1e-8, and the progress trace has one entry per iteration, never increasing. The returned tour is the walk's best state: a tour whose length is returned with it and is no longer than the initial tour or any tour visited |

## Left out

- The user interface is not modelled: the window, canvas drawing, plotting, the buttons and the
  console messages (including the every-100-generations message).
- `generate_cities` is not modelled. The cities are a parameter, and the module-level
  variables (`cities`, `NUM_CITIES`, the two progress lists) become parameters and results;
  `NUM_CITIES` is the number of cities.
- The `random` module is not modelled. Every draw is a parameter.
- `initialize_population` and the initial shuffle of annealing are not modelled. The initial
  population and the initial tour are parameters, and must be tours.
- `math.sqrt` is not computed. The edge weight is a parameter; `SquaredDistance` models the
  exact integer quantity under the root, and `EuclideanWeight` characterises the distance as its
  non-negative square root. The length results hold for any weight, or for any symmetric or
  non-negative one, which that distance is.
- Floating-point arithmetic is not modelled: lengths and temperatures are exact reals.
  - A float run may round sums differently.
  - A float run may stop the cooling loop one iteration earlier or later than the exact one.
- `math.exp` is not modelled. The comparison `random() < exp(-delta / temperature)` is a drawn
  boolean, used only when delta > 0; for delta <= 0 the model accepts, as the source does.
- One city is not modelled for annealing: every iteration calls `random.sample(range(1), 2)`,
  which raises, and no valid annealing draws exist for one city. For the genetic solver, the
  valid draws for one city are exactly the runs in which no crossover or mutation coin fires,
  which are the runs that do not raise; those runs are modelled.
- The intended design raises an error on fewer than four cities and on an invalid tour. The
  code only refuses an empty field (`NoCities`) and never checks tours; the
  model follows the code and requires tours as inputs.
- Aliasing of the best solution with population members is not modelled: tours are values.
  The source never changes a list after it becomes the best solution.
