/** What a solver run hands back to its caller. */
module SearchOutcome {

  /** A run either stops at once because no cities have been generated, or returns the best tour
      it found, that tour's length and the best-so-far length recorded after every iteration. */
  datatype Outcome =
    | NoCities
    | Solved(bestTour: seq<int>, bestDistance: real, progress: seq<real>)

  /** Each entry of the trace is at most the one before it. */
  predicate NonIncreasing(trace: seq<real>) {
    forall i, j :: 0 <= i <= j < |trace| ==> trace[j] <= trace[i]
  }

  /** Recording a value no larger than the last one keeps a trace non-increasing. */
  lemma NonIncreasingAppend(trace: seq<real>, x: real)
    requires NonIncreasing(trace)
    requires |trace| > 0 ==> x <= trace[|trace| - 1]
    ensures NonIncreasing(trace + [x])
  {
    var longer := trace + [x];
    forall i, j | 0 <= i <= j < |longer| ensures longer[j] <= longer[i] {
      if j == |trace| && i < j {
        assert longer[i] == trace[i] && trace[|trace| - 1] <= trace[i];
      }
    }
  }
}
