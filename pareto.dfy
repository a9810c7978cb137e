/**
  Group ranking with Pareto dominance (SEM10/tpr-4/main.go).

  Every expert gives every alternative a rank, 1 being best. Alternative a1
  dominates a2 when no expert ranks a1 worse (a higher number) than a2 and at
  least one expert ranks it strictly better. The Pareto set is the
  alternatives that nobody dominates, in alphabetical order.

  The Go maps keyed by names become tables indexed by position:
  `rankings[e][a]` is expert e's rank for alternative a and
  `dominance[a1][a2]` says whether a1 dominates a2. Names are distinct, so a
  position and a name identify the same alternative.
*/
module Pareto {
  import opened Sorting

  /** One rank per (expert, alternative) pair, for n alternatives. */
  predicate Complete(rankings: seq<seq<int>>, n: nat) {
    forall e :: 0 <= e < |rankings| ==> |rankings[e]| == n
  }

  /** Not worse for any expert and strictly better for some expert. */
  predicate Dominates(rankings: seq<seq<int>>, n: nat, a1: nat, a2: nat)
    requires Complete(rankings, n) && a1 < n && a2 < n
  {
    && (forall e :: 0 <= e < |rankings| ==> rankings[e][a1] <= rankings[e][a2])
    && (exists e :: 0 <= e < |rankings| && rankings[e][a1] < rankings[e][a2])
  }

  /** No alternative dominates a. */
  predicate Undominated(rankings: seq<seq<int>>, n: nat, a: nat)
    requires Complete(rankings, n) && a < n
  {
    forall b :: 0 <= b < n ==> !Dominates(rankings, n, b, a)
  }

  // ---------------------------------------------------------------------
  // The dominance relation
  // ---------------------------------------------------------------------

  lemma DominanceIrreflexive(rankings: seq<seq<int>>, n: nat, a: nat)
    requires Complete(rankings, n) && a < n
    ensures !Dominates(rankings, n, a, a)
  {
  }

  /** One expert who ranks a1 worse is enough to veto dominance. */
  lemma WorseForOneExpertVetoes(rankings: seq<seq<int>>, n: nat, a1: nat, a2: nat, e: nat)
    requires Complete(rankings, n) && a1 < n && a2 < n
    requires e < |rankings| && rankings[e][a1] > rankings[e][a2]
    ensures !Dominates(rankings, n, a1, a2)
  {
  }

  lemma DominanceAntisymmetric(rankings: seq<seq<int>>, n: nat, a: nat, b: nat)
    requires Complete(rankings, n) && a < n && b < n
    ensures !(Dominates(rankings, n, a, b) && Dominates(rankings, n, b, a))
  {
  }

  /** With no experts, or when every expert ties a and b, neither dominates. */
  lemma TiedAlternativesIncomparable(rankings: seq<seq<int>>, n: nat, a: nat, b: nat)
    requires Complete(rankings, n) && a < n && b < n
    requires forall e :: 0 <= e < |rankings| ==> rankings[e][a] == rankings[e][b]
    ensures !Dominates(rankings, n, a, b) && !Dominates(rankings, n, b, a)
  {
  }

  lemma DominanceTransitive(rankings: seq<seq<int>>, n: nat, a: nat, b: nat, c: nat)
    requires Complete(rankings, n) && a < n && b < n && c < n
    requires Dominates(rankings, n, a, b) && Dominates(rankings, n, b, c)
    ensures Dominates(rankings, n, a, c)
  {
    var e :| 0 <= e < |rankings| && rankings[e][a] < rankings[e][b];
    assert rankings[e][b] <= rankings[e][c];
  }

  ghost function Dominators(rankings: seq<seq<int>>, n: nat, a: nat): set<nat>
    requires Complete(rankings, n) && a < n
  {
    set b: nat | b < n && Dominates(rankings, n, b, a)
  }

  /**
    Every alternative is either in the Pareto set or dominated by a member of
    it; so the Pareto set of a non-empty list of alternatives is non-empty.
  */
  lemma {:induction false} UndominatedAbove(rankings: seq<seq<int>>, n: nat, a: nat)
    requires Complete(rankings, n) && a < n
    ensures exists m :: 0 <= m < n && Undominated(rankings, n, m)
                        && (m == a || Dominates(rankings, n, m, a))
    decreases |Dominators(rankings, n, a)|
  {
    if !Undominated(rankings, n, a) {
      var b :| 0 <= b < n && Dominates(rankings, n, b, a);
      forall c | c in Dominators(rankings, n, b)
        ensures c in Dominators(rankings, n, a)
      {
        DominanceTransitive(rankings, n, c, b, a);
      }
      DominanceIrreflexive(rankings, n, b);
      var above, aboveB := Dominators(rankings, n, a), Dominators(rankings, n, b);
      assert aboveB + {b} <= above;
      assert b !in aboveB;
      SubsetSize(aboveB + {b}, above);
      UndominatedAbove(rankings, n, b);
      var m :| 0 <= m < n && Undominated(rankings, n, m)
               && (m == b || Dominates(rankings, n, m, b));
      if m != b {
        DominanceTransitive(rankings, n, m, b, a);
      }
    }
  }

  lemma {:induction false} SubsetSize(small: set<nat>, large: set<nat>)
    requires small <= large
    ensures |small| <= |large|
  {
    if small != {} {
      var x :| x in small;
      SubsetSize(small - {x}, large - {x});
    }
  }

  lemma ParetoNonEmpty(rankings: seq<seq<int>>, n: nat)
    requires Complete(rankings, n) && n > 0
    ensures exists m :: 0 <= m < n && Undominated(rankings, n, m)
  {
    UndominatedAbove(rankings, n, 0);
  }

  // ---------------------------------------------------------------------
  // The system object
  // ---------------------------------------------------------------------

  /** No entry of column a of a dominance table is set. */
  predicate NoneDominates(dominance: seq<seq<bool>>, a: nat)
    requires forall b :: 0 <= b < |dominance| ==> a < |dominance[b]|
  {
    forall b :: 0 <= b < |dominance| ==> !dominance[b][a]
  }

  class ParetoSystem {
    var alts: seq<string>
    var experts: seq<string>
    var rankings: seq<seq<int>>
    var dominance: seq<seq<bool>>

    ghost predicate Valid()
      reads this
    {
      && Distinct(alts)
      && Distinct(experts)
      && |rankings| == |experts|
      && Complete(rankings, |alts|)
      && |dominance| == |alts|
      && (forall a :: 0 <= a < |dominance| ==> |dominance[a]| == |alts|)
    }

    /** The dominance table holds the dominance relation of the rankings. */
    ghost predicate DominanceBuilt()
      reads this
      requires Valid()
    {
      forall a1, a2 :: 0 <= a1 < |alts| && 0 <= a2 < |alts| ==>
        dominance[a1][a2] == Dominates(rankings, |alts|, a1, a2)
    }

    /**
      A system whose names and rankings were already collected; the
      dominance table starts empty, so every lookup in it reads false.
    */
    constructor (alts: seq<string>, experts: seq<string>, rankings: seq<seq<int>>)
      requires Distinct(alts) && Distinct(experts)
      requires |rankings| == |experts| && Complete(rankings, |alts|)
      ensures Valid()
      ensures this.alts == alts && this.experts == experts && this.rankings == rankings
      ensures forall a1, a2 :: 0 <= a1 < |alts| && 0 <= a2 < |alts| ==> !dominance[a1][a2]
    {
      this.alts := alts;
      this.experts := experts;
      this.rankings := rankings;
      dominance := seq(|alts|, _ => seq(|alts|, _ => false));
    }

    /** Fills the dominance table from the rankings, pair by pair. */
    method BuildDominance()
      requires Valid()
      modifies this
      ensures Valid() && DominanceBuilt()
      ensures alts == old(alts) && experts == old(experts) && rankings == old(rankings)
    {
      var n, names, ranks := |alts|, alts, rankings;
      var dom := seq(n, _ => seq(n, _ => false));
      for i := 0 to n
        modifies {}
        invariant |dom| == n && forall a :: 0 <= a < n ==> |dom[a]| == n
        invariant forall a, b :: 0 <= a < n && 0 <= b < n ==>
          dom[a][b] == (a < i && Dominates(ranks, n, a, b))
      {
        for j := 0 to n
          invariant |dom| == n && forall a :: 0 <= a < n ==> |dom[a]| == n
          invariant forall a, b :: 0 <= a < n && 0 <= b < n ==>
            dom[a][b] == ((a < i || (a == i && b < j)) && Dominates(ranks, n, a, b))
        {
          if names[i] == names[j] {
            DominanceIrreflexive(ranks, n, i);
            continue;
          }
          var better, notWorse := false, true;
          var e := 0;
          while e < |ranks|
            invariant 0 <= e <= |ranks|
            invariant notWorse
            invariant forall k :: 0 <= k < e ==> ranks[k][i] <= ranks[k][j]
            invariant better <==> exists k :: 0 <= k < e && ranks[k][i] < ranks[k][j]
          {
            var r1, r2 := ranks[e][i], ranks[e][j];
            if r1 > r2 {
              notWorse := false;
              break;
            }
            if r1 < r2 {
              better := true;
            }
            e := e + 1;
          }
          assert notWorse && better <==> Dominates(ranks, n, i, j);
          if notWorse && better {
            dom := dom[i := dom[i][j := true]];
          }
        }
      }
      dominance := dom;
    }

    /**
      The alternatives that no entry of the dominance table marks as
      dominated, in alphabetical order.
    */
    method ParetoSet() returns (out: seq<string>)
      requires Valid()
      ensures forall x :: x in out <==>
        exists a :: 0 <= a < |alts| && alts[a] == x && NoneDominates(dominance, a)
      ensures Distinct(out)
      ensures SortedBy(out, LexLeq)
      ensures forall p, q :: 0 <= p < q < |out| ==> !LexLeq(out[q], out[p])
      ensures DominanceBuilt() ==> forall x :: x in out <==>
        exists a :: 0 <= a < |alts| && alts[a] == x && Undominated(rankings, |alts|, a)
      ensures DominanceBuilt() && |alts| > 0 ==> |out| > 0
    {
      var n := |alts|;
      var found: seq<string> := [];
      for a := 0 to n
        invariant forall x :: x in found <==>
          exists k :: 0 <= k < a && alts[k] == x && NoneDominates(dominance, k)
        invariant Distinct(found)
      {
        var dominated := false;
        var b := 0;
        while b < n
          invariant 0 <= b <= n
          invariant !dominated
          invariant forall k :: 0 <= k < b ==> !dominance[k][a]
        {
          if dominance[b][a] {
            dominated := true;
            break;
          }
          b := b + 1;
        }
        assert dominated <==> !NoneDominates(dominance, a);
        if !dominated {
          assert alts[a] !in found;
          found := found + [alts[a]];
        }
      }
      var sorted := new string[|found|](k requires 0 <= k < |found| => found[k]);
      assert sorted[..] == found;
      LexLeqIsTotalPreorder();
      InsertionSort(sorted, LexLeq);
      out := sorted[..];
      DistinctPermutation(found, out);
      assert forall x :: x in out <==> x in found by {
        forall x ensures x in out <==> x in found {
          assert x in out <==> x in multiset(out);
          assert x in found <==> x in multiset(found);
        }
      }
      forall p, q | 0 <= p < q < |out| ensures !LexLeq(out[q], out[p]) {
        if LexLeq(out[q], out[p]) {
          LexLeqAntisymmetric(out[p], out[q]);
        }
      }
      if DominanceBuilt() && n > 0 {
        ParetoNonEmpty(rankings, n);
        var m :| 0 <= m < n && Undominated(rankings, n, m);
        assert alts[m] in found;
      }
    }
  }
}
