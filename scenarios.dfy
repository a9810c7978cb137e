/**
  Two worked examples: three alternatives ranked by two experts, and a
  two-by-two utility table.
*/
module Scenarios {
  import opened Pareto
  import opened Uncertainty
  import opened SavageLaplace
  import opened WaldHurwicz

  /** Ranks E1: (A=1, B=2, C=3), E2: (A=1, B=3, C=2): A dominates B and C, the Pareto set is {A}. */
  lemma ParetoExample()
    ensures var r := [[1, 2, 3], [1, 3, 2]];
      && Dominates(r, 3, 0, 1) && Dominates(r, 3, 0, 2)
      && !Dominates(r, 3, 1, 2) && !Dominates(r, 3, 2, 1)
      && Undominated(r, 3, 0) && !Undominated(r, 3, 1) && !Undominated(r, 3, 2)
  {
    var r := [[1, 2, 3], [1, 3, 2]];
    assert r[0][0] < r[0][1] && r[0][0] < r[0][2];
    assert Dominates(r, 3, 0, 1) && Dominates(r, 3, 0, 2);
    WorseForOneExpertVetoes(r, 3, 1, 2, 1);
    WorseForOneExpertVetoes(r, 3, 2, 1, 0);
    WorseForOneExpertVetoes(r, 3, 1, 0, 0);
    WorseForOneExpertVetoes(r, 3, 2, 0, 0);
    DominanceIrreflexive(r, 3, 0);
  }

  lemma MaxOfTwo(x: real, y: real)
    requires 0.0 <= x && 0.0 <= y
    ensures MaxFromZero([x, y]) == if x < y then y else x
  {
    assert [x][..0] == [];
    assert MaxFromZero([x]) == x;
    assert [x, y][..1] == [x];
  }

  lemma SumOfTwo(x: real, y: real)
    ensures Sum([x, y]) == x + y
  {
    assert [x][..0] == [];
    assert Sum([x]) == x;
    assert [x, y][..1] == [x];
  }

  /** Utilities A = [10, 2], B = [6, 6]: Savage, Laplace and Hurwicz (alpha 0.5) all tie. */
  lemma CriteriaExample()
    ensures var u := DecisionSystem(["A", "B"], 2, 10, [[10.0, 2.0], [6.0, 6.0]]);
      && ColumnMaxima(u) == [10.0, 6.0]
      && SavageScore(u, 0) == 4.0 && SavageScore(u, 1) == 4.0
      && LaplaceScore(u, 0) == 6.0 && LaplaceScore(u, 1) == 6.0
      && HurwiczBlend(0.5, 10.0, 2.0) == 6.0 && HurwiczBlend(0.5, 6.0, 6.0) == 6.0
  {
    var u := DecisionSystem(["A", "B"], 2, 10, [[10.0, 2.0], [6.0, 6.0]]);
    MaxOfTwo(10.0, 6.0);
    MaxOfTwo(2.0, 6.0);
    MaxOfTwo(0.0, 4.0);
    MaxOfTwo(4.0, 0.0);
    assert Column(u.outcomes, 0) == [10.0, 6.0];
    assert Column(u.outcomes, 1) == [2.0, 6.0];
    assert ColumnMaxima(u) == [10.0, 6.0];
    assert Regrets([10.0, 6.0], [10.0, 2.0]) == [0.0, 4.0];
    assert Regrets([10.0, 6.0], [6.0, 6.0]) == [4.0, 0.0];
    SumOfTwo(10.0, 2.0);
    SumOfTwo(6.0, 6.0);
  }
}
