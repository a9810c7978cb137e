/**
  The Savage (minimax regret) and Laplace (equal likelihood) criteria and the
  ranking of their scores (SEM10/tpr-3/main.go).
*/
module SavageLaplace {
  import opened Sorting
  import opened Uncertainty

  // ---------------------------------------------------------------------
  // Savage
  // ---------------------------------------------------------------------

  /** The running maximum of `s` started at 0, as both Savage loops compute it. */
  function MaxFromZero(s: seq<real>): real {
    if |s| == 0 then 0.0
    else
      var prefix := MaxFromZero(s[..|s| - 1]);
      if s[|s| - 1] > prefix then s[|s| - 1] else prefix
  }

  /**
    The running maximum is the least value that is at least 0 and at least
    every element: it is at least both, and it is 0 or one of the elements.
  */
  lemma {:induction false} MaxFromZeroIsMaximum(s: seq<real>)
    ensures 0.0 <= MaxFromZero(s)
    ensures forall k :: 0 <= k < |s| ==> s[k] <= MaxFromZero(s)
    ensures MaxFromZero(s) == 0.0 || exists k :: 0 <= k < |s| && s[k] == MaxFromZero(s)
  {
    if |s| > 0 {
      var init := s[..|s| - 1];
      MaxFromZeroIsMaximum(init);
      assert forall k :: 0 <= k < |init| ==> init[k] == s[k];
    }
  }

  /** One more element advances the running maximum as the loops do. */
  lemma MaxFromZeroStep(s: seq<real>, k: nat)
    requires k < |s|
    ensures MaxFromZero(s[..k + 1])
         == if s[k] > MaxFromZero(s[..k]) then s[k] else MaxFromZero(s[..k])
  {
    assert s[..k + 1][..k] == s[..k];
  }

  function Column(rows: seq<seq<real>>, j: nat): seq<real>
    requires forall a :: 0 <= a < |rows| ==> j < |rows[a]|
  {
    seq(|rows|, a requires 0 <= a < |rows| => rows[a][j])
  }

  /**
    `maxOutcomes`: for each state, the largest utility any alternative gets
    in it, counting from 0.
  */
  function ColumnMaxima(u: DecisionSystem): (m: seq<real>)
    requires u.Rectangular()
    ensures |m| == u.statesCount
  {
    seq(u.statesCount, j requires 0 <= j < u.statesCount => MaxFromZero(Column(u.outcomes, j)))
  }

  /**
    Each state's maximum is at least 0 and at least every alternative's
    utility in that state, and it is 0 or one of those utilities.
  */
  lemma ColumnMaximaBound(u: DecisionSystem)
    requires u.Rectangular()
    ensures forall j :: 0 <= j < u.statesCount ==> 0.0 <= ColumnMaxima(u)[j]
    ensures forall j, a :: 0 <= j < u.statesCount && 0 <= a < |u.outcomes| ==>
      u.outcomes[a][j] <= ColumnMaxima(u)[j]
    ensures forall j :: 0 <= j < u.statesCount ==>
      ColumnMaxima(u)[j] == 0.0
      || exists a :: 0 <= a < |u.outcomes| && u.outcomes[a][j] == ColumnMaxima(u)[j]
  {
    forall j | 0 <= j < u.statesCount {
      MaxFromZeroIsMaximum(Column(u.outcomes, j));
    }
    forall j, a | 0 <= j < u.statesCount && 0 <= a < |u.outcomes|
      ensures Column(u.outcomes, j)[a] == u.outcomes[a][j]
    {
    }
  }

  /** With utilities of at least 1, the running maximum is the column maximum. */
  lemma ColumnMaximumAttained(u: DecisionSystem, j: nat)
    requires u.Rectangular() && u.InRange() && j < u.statesCount && |u.alternatives| > 0
    ensures exists a :: 0 <= a < |u.outcomes| && ColumnMaxima(u)[j] == u.outcomes[a][j]
  {
    ColumnMaximaBound(u);
    assert 1.0 <= u.outcomes[0][j] <= ColumnMaxima(u)[j];
  }

  function Regrets(maxima: seq<real>, row: seq<real>): seq<real>
    requires |row| <= |maxima|
  {
    seq(|row|, j requires 0 <= j < |row| => maxima[j] - row[j])
  }

  /** The Savage score of alternative i: its largest regret, counting from 0. */
  function SavageScore(u: DecisionSystem, i: nat): real
    requires u.Rectangular() && i < |u.alternatives|
  {
    MaxFromZero(Regrets(ColumnMaxima(u), u.outcomes[i]))
  }

  /**
    The score is at least 0 and at least every regret of the alternative,
    and it is 0 or one of those regrets: max(0, max over j of M_j - U(i, j)).
  */
  lemma SavageScoreIsMaxRegret(u: DecisionSystem, i: nat)
    requires u.Rectangular() && i < |u.alternatives|
    ensures 0.0 <= SavageScore(u, i)
    ensures forall j :: 0 <= j < u.statesCount ==>
      ColumnMaxima(u)[j] - u.outcomes[i][j] <= SavageScore(u, i)
    ensures SavageScore(u, i) == 0.0
      || exists j :: 0 <= j < u.statesCount && SavageScore(u, i) == ColumnMaxima(u)[j] - u.outcomes[i][j]
  {
    var maxima := ColumnMaxima(u);
    MaxFromZeroIsMaximum(Regrets(maxima, u.outcomes[i]));
    forall j | 0 <= j < u.statesCount
      ensures Regrets(maxima, u.outcomes[i])[j] == maxima[j] - u.outcomes[i][j]
    {
    }
  }

  /** An alternative that is best in every state has no regret. */
  lemma BestEverywhereHasNoRegret(u: DecisionSystem, i: nat)
    requires u.Rectangular() && i < |u.alternatives|
    requires forall j, a :: 0 <= j < u.statesCount && 0 <= a < |u.outcomes| ==>
      u.outcomes[a][j] <= u.outcomes[i][j]
    requires forall j :: 0 <= j < u.statesCount ==> 0.0 <= u.outcomes[i][j]
    ensures SavageScore(u, i) == 0.0
  {
    var m := ColumnMaxima(u);
    ColumnMaximaBound(u);
    forall j | 0 <= j < u.statesCount ensures m[j] == u.outcomes[i][j] {
      assert u.outcomes[i][j] <= m[j];
    }
    SavageScoreIsMaxRegret(u, i);
  }

  /**
    Savage's criterion: one score per alternative, each the alternative's
    largest regret.
  */
  method CalculateSavage(u: DecisionSystem) returns (savage: map<string, real>)
    requires u.Valid()
    ensures forall x :: x in savage <==> x in u.alternatives
    ensures forall i :: 0 <= i < |u.alternatives| ==> savage[u.alternatives[i]] == SavageScore(u, i)
  {
    var n := |u.alternatives|;
    var maxOutcomes := seq(u.statesCount, _ => 0.0);
    for j := 0 to u.statesCount
      invariant |maxOutcomes| == u.statesCount
      invariant forall k :: 0 <= k < j ==> maxOutcomes[k] == ColumnMaxima(u)[k]
    {
      ghost var column := Column(u.outcomes, j);
      var maxVal := 0.0;
      for a := 0 to n
        invariant maxVal == MaxFromZero(column[..a])
      {
        MaxFromZeroStep(column, a);
        var val := u.outcomes[a][j];
        if val > maxVal {
          maxVal := val;
        }
      }
      assert column[..n] == column;
      maxOutcomes := maxOutcomes[j := maxVal];
    }
    assert maxOutcomes == ColumnMaxima(u);

    savage := map[];
    for i := 0 to n
      invariant forall x :: x in savage <==> exists p :: 0 <= p < i && u.alternatives[p] == x
      invariant forall p :: 0 <= p < i ==> savage[u.alternatives[p]] == SavageScore(u, p)
    {
      var row := u.outcomes[i];
      ghost var regrets := Regrets(maxOutcomes, row);
      var maxRegret := 0.0;
      for j := 0 to |row|
        invariant maxRegret == MaxFromZero(regrets[..j])
      {
        MaxFromZeroStep(regrets, j);
        var regret := maxOutcomes[j] - row[j];
        if regret > maxRegret {
          maxRegret := regret;
        }
      }
      assert regrets[..|row|] == regrets;
      assert maxRegret == SavageScore(u, i);
      savage := savage[u.alternatives[i] := maxRegret];
    }
  }

  // ---------------------------------------------------------------------
  // Laplace
  // ---------------------------------------------------------------------

  function Sum(s: seq<real>): real {
    if |s| == 0 then 0.0 else Sum(s[..|s| - 1]) + s[|s| - 1]
  }

  lemma SumStep(s: seq<real>, k: nat)
    requires k < |s|
    ensures Sum(s[..k + 1]) == Sum(s[..k]) + s[k]
  {
    assert s[..k + 1][..k] == s[..k];
  }

  /** Bounds on the elements bound the sum. */
  lemma {:induction false} SumBounds(s: seq<real>, lo: real, hi: real)
    requires forall k :: 0 <= k < |s| ==> lo <= s[k] <= hi
    ensures lo * (|s| as real) <= Sum(s) <= hi * (|s| as real)
  {
    if |s| > 0 {
      SumBounds(s[..|s| - 1], lo, hi);
    }
  }

  /**
    The Laplace score: the sum of the alternative's row divided by the state
    count, which is the mean utility over equally likely states when the row
    is full. A missing row is an empty one.
  */
  function LaplaceScore(u: DecisionSystem, i: nat): real
    requires |u.outcomes| == |u.alternatives| && u.statesCount >= 1 && i < |u.alternatives|
  {
    Sum(u.outcomes[i]) / (u.statesCount as real)
  }

  /** The mean lies within any bounds of the row, in particular its minimum and maximum. */
  lemma LaplaceWithinRowBounds(u: DecisionSystem, i: nat, lo: real, hi: real)
    requires u.Rectangular() && u.statesCount >= 1 && i < |u.alternatives|
    requires forall j :: 0 <= j < u.statesCount ==> lo <= u.outcomes[i][j] <= hi
    ensures lo <= LaplaceScore(u, i) <= hi
  {
    var n := u.statesCount as real;
    SumBounds(u.outcomes[i], lo, hi);
    var mean := LaplaceScore(u, i);
    assert mean * n == Sum(u.outcomes[i]);
  }

  /** A row with the same utility c in every state scores c. */
  lemma LaplaceOfConstantRow(u: DecisionSystem, i: nat, c: real)
    requires u.Rectangular() && u.statesCount >= 1 && i < |u.alternatives|
    requires forall j :: 0 <= j < u.statesCount ==> u.outcomes[i][j] == c
    ensures LaplaceScore(u, i) == c
  {
    LaplaceWithinRowBounds(u, i, c, c);
  }

  /** An alternative without outcomes scores 0. */
  lemma LaplaceOfMissingRow(u: DecisionSystem, i: nat)
    requires |u.outcomes| == |u.alternatives| && u.statesCount >= 1 && i < |u.alternatives|
    requires u.outcomes[i] == []
    ensures LaplaceScore(u, i) == 0.0
  {
  }

  /**
    Laplace's criterion: one score per alternative. Rows need not be full;
    each row's own values are summed.
  */
  method CalculateLaplace(u: DecisionSystem) returns (laplace: map<string, real>)
    requires |u.outcomes| == |u.alternatives| && Distinct(u.alternatives)
    requires u.statesCount >= 1
    ensures forall x :: x in laplace <==> x in u.alternatives
    ensures forall i :: 0 <= i < |u.alternatives| ==> laplace[u.alternatives[i]] == LaplaceScore(u, i)
  {
    var n := |u.alternatives|;
    laplace := map[];
    for i := 0 to n
      invariant forall x :: x in laplace <==> x in u.alternatives[..i]
      invariant forall p :: 0 <= p < i ==> laplace[u.alternatives[p]] == LaplaceScore(u, p)
    {
      var row := u.outcomes[i];
      var sum := 0.0;
      for j := 0 to |row|
        invariant sum == Sum(row[..j])
      {
        SumStep(row, j);
        sum := sum + row[j];
      }
      assert row[..|row|] == row;
      var avg := sum / (u.statesCount as real);
      laplace := laplace[u.alternatives[i] := avg];
    }
    assert u.alternatives[..n] == u.alternatives;
  }

  // ---------------------------------------------------------------------
  // Ranking
  // ---------------------------------------------------------------------

  datatype AltValue = AltValue(alt: string, value: real)

  /** The (name, score) entries of a score map. */
  ghost function Entries(data: map<string, real>): set<AltValue> {
    set k | k in data :: AltValue(k, data[k])
  }

  /** Ordered by value: ascending, or descending when `ascending` is false. */
  predicate Ranked(r: seq<AltValue>, ascending: bool) {
    forall p, q :: 0 <= p < q < |r| ==>
      if ascending then r[p].value <= r[q].value else r[q].value <= r[p].value
  }

  /**
    The entries of a score map, each exactly once, ordered by value. The map
    is read in no particular order, and equal values may come out in either
    order.
  */
  method SortAltValues(data: map<string, real>, ascending: bool) returns (r: seq<AltValue>)
    ensures multiset(r) == multiset(Entries(data))
    ensures Ranked(r, ascending)
  {
    var arr: seq<AltValue> := [];
    var rest := data.Keys;
    while rest != {}
      invariant rest <= data.Keys
      invariant multiset(arr) == multiset(set k | k in data && k !in rest :: AltValue(k, data[k]))
      decreases |rest|
    {
      var k :| k in rest;
      ghost var before := set k' | k' in data && k' !in rest :: AltValue(k', data[k']);
      ghost var after := set k' | k' in data && k' !in rest - {k} :: AltValue(k', data[k']);
      assert after == before + {AltValue(k, data[k])};
      assert AltValue(k, data[k]) !in before;
      arr := arr + [AltValue(k, data[k])];
      rest := rest - {k};
    }
    assert (set k | k in data && k !in rest :: AltValue(k, data[k])) == Entries(data);

    var a := new AltValue[|arr|](k requires 0 <= k < |arr| => arr[k]);
    assert a[..] == arr;
    var leq := if ascending
      then (x: AltValue, y: AltValue) => x.value <= y.value
      else (x: AltValue, y: AltValue) => y.value <= x.value;
    InsertionSort(a, leq);
    r := a[..];
  }
}
