/**
  The Wald (maximin), MaxiMax and Hurwicz criteria and the ranking by one of
  them (SEM10/tpr-2/main.go).
*/
module WaldHurwicz {
  import opened Sorting
  import opened Uncertainty

  /** The three scores of one alternative. */
  datatype Alternative = Alternative(name: string, wald: real, maxmax: real, hurwicz: real)

  /** Go's zero value of `Alternative`. */
  const Blank := Alternative("", 0.0, 0.0, 0.0)

  predicate IsMinimum(v: real, s: seq<real>) {
    && (exists k :: 0 <= k < |s| && s[k] == v)
    && (forall k :: 0 <= k < |s| ==> v <= s[k])
  }

  predicate IsMaximum(v: real, s: seq<real>) {
    && (exists k :: 0 <= k < |s| && s[k] == v)
    && (forall k :: 0 <= k < |s| ==> s[k] <= v)
  }

  /**
    Hurwicz's blend of the best and the worst outcome with optimism
    coefficient alpha. The ends of the coefficient's range give back the
    worst and the best outcome.
  */
  function HurwiczBlend(alpha: real, maxVal: real, minVal: real): (h: real)
    ensures alpha == 0.0 ==> h == minVal
    ensures alpha == 1.0 ==> h == maxVal
  {
    alpha * maxVal + (1.0 - alpha) * minVal
  }

  /** For alpha in [0, 1] the blend lies between the worst and the best outcome. */
  lemma HurwiczBetween(alpha: real, maxVal: real, minVal: real)
    requires 0.0 <= alpha <= 1.0 && minVal <= maxVal
    ensures minVal <= HurwiczBlend(alpha, maxVal, minVal) <= maxVal
  {
    var spread := maxVal - minVal;
    ProductNonNegative(alpha, spread);
    ProductNonNegative(1.0 - alpha, spread);
    assert HurwiczBlend(alpha, maxVal, minVal) == minVal + alpha * spread;
    assert HurwiczBlend(alpha, maxVal, minVal) == maxVal - (1.0 - alpha) * spread;
  }

  lemma ProductNonNegative(x: real, y: real)
    requires 0.0 <= x && 0.0 <= y
    ensures 0.0 <= x * y
  {
  }

  /**
    The three criteria for every alternative, at the alternative's own
    index. An alternative without outcomes is skipped and keeps the zero
    value.
  */
  method CalculateCriteria(u: DecisionSystem, alpha: real) returns (alts: seq<Alternative>)
    requires |u.outcomes| == |u.alternatives|
    requires 0.0 <= alpha <= 1.0
    ensures |alts| == |u.alternatives|
    ensures forall i :: 0 <= i < |alts| && u.outcomes[i] == [] ==> alts[i] == Blank
    ensures forall i :: 0 <= i < |alts| && u.outcomes[i] != [] ==>
      && alts[i].name == u.alternatives[i]
      && IsMinimum(alts[i].wald, u.outcomes[i])
      && IsMaximum(alts[i].maxmax, u.outcomes[i])
      && alts[i].hurwicz == HurwiczBlend(alpha, alts[i].maxmax, alts[i].wald)
      && alts[i].wald <= alts[i].hurwicz <= alts[i].maxmax
  {
    alts := seq(|u.alternatives|, _ => Blank);
    for i := 0 to |u.alternatives|
      invariant |alts| == |u.alternatives|
      invariant forall p :: i <= p < |alts| ==> alts[p] == Blank
      invariant forall p :: 0 <= p < i && u.outcomes[p] == [] ==> alts[p] == Blank
      invariant forall p :: 0 <= p < i && u.outcomes[p] != [] ==>
        && alts[p].name == u.alternatives[p]
        && IsMinimum(alts[p].wald, u.outcomes[p])
        && IsMaximum(alts[p].maxmax, u.outcomes[p])
        && alts[p].hurwicz == HurwiczBlend(alpha, alts[p].maxmax, alts[p].wald)
        && alts[p].wald <= alts[p].hurwicz <= alts[p].maxmax
    {
      var data := u.outcomes[i];
      if |data| == 0 {
        continue;
      }
      var minVal, maxVal := data[0], data[0];
      for k := 0 to |data|
        invariant exists m :: 0 <= m < |data| && data[m] == minVal
        invariant exists m :: 0 <= m < |data| && data[m] == maxVal
        invariant forall m :: 0 <= m < k ==> minVal <= data[m] <= maxVal
        invariant minVal <= data[0] <= maxVal
      {
        var v := data[k];
        if v < minVal {
          minVal := v;
        }
        if v > maxVal {
          maxVal := v;
        }
      }
      var hurwicz := HurwiczBlend(alpha, maxVal, minVal);
      HurwiczBetween(alpha, maxVal, minVal);
      alts := alts[i := Alternative(u.alternatives[i], minVal, maxVal, hurwicz)];
    }
  }

  /** The criterion a ranking orders by; stands for the Go value function. */
  datatype Criterion = Wald | MaxiMax | Hurwicz

  function Value(a: Alternative, c: Criterion): real {
    match c
    case Wald => a.wald
    case MaxiMax => a.maxmax
    case Hurwicz => a.hurwicz
  }

  /** `ByCriterion.Less`: x goes before y when its value is larger. */
  predicate Less(x: Alternative, y: Alternative, c: Criterion) {
    Value(x, c) > Value(y, c)
  }

  /**
    `sort.Sort(ByCriterion{alts, value})`: reorders the shared slice in
    place so that the values do not increase along it.
  */
  method SortByCriterion(alts: array<Alternative>, c: Criterion)
    modifies alts
    ensures multiset(alts[..]) == old(multiset(alts[..]))
    ensures forall p, q :: 0 <= p < q < alts.Length ==> Value(alts[q], c) <= Value(alts[p], c)
  {
    InsertionSort(alts, (x, y) => !Less(y, x, c));
  }
}
