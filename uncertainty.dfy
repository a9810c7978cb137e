/**
  The utility table of a decision under uncertainty, shared by the
  Savage/Laplace criteria (SEM10/tpr-3/main.go) and the Wald/MaxiMax/Hurwicz
  criteria (SEM10/tpr-2/main.go). Both programs declare the same
  `UncertainDecisionSystem` record.

  The Go map from an alternative's name to its outcomes becomes a table of
  rows indexed by the alternative's position: `outcomes[i][j]` is the utility
  of alternative `alternatives[i]` in state j. Utilities are reals.
*/
module Uncertainty {
  import opened Sorting

  datatype DecisionSystem = DecisionSystem(
    alternatives: seq<string>,
    statesCount: nat,
    maxScore: nat,
    outcomes: seq<seq<real>>)
  {
    /** One row per alternative and one value per state in every row. */
    predicate Rectangular() {
      && |outcomes| == |alternatives|
      && forall i :: 0 <= i < |outcomes| ==> |outcomes[i]| == statesCount
    }

    /** A rectangular table whose alternatives have distinct names. */
    predicate Valid() {
      Rectangular() && Distinct(alternatives)
    }

    /**
      What input collection guarantees: at least one state, a positive
      score bound, and every utility in [1, maxScore].
    */
    predicate InRange() {
      && statesCount >= 1
      && maxScore >= 1
      && forall i, j :: 0 <= i < |outcomes| && 0 <= j < |outcomes[i]| ==>
           1.0 <= outcomes[i][j] <= maxScore as real
    }
  }
}
