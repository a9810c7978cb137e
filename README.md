# Decision-theory routines, modelled in Dafny

This project models the computational core of three small classroom programs on
decision making:

- **Group ranking with Pareto dominance** (`SEM10/tpr-4/main.go`). Several experts rank
  every alternative, with 1 as the best rank. `BuildDominance` fills a dominance table.
  Alternative a1 dominates a2 when no expert ranks a1 worse than a2 and at least one
  expert ranks it strictly better. `ParetoSet` returns the alternatives that no other
  alternative dominates, sorted alphabetically.
- **Savage and Laplace criteria** (`SEM10/tpr-3/main.go`). `CalculateSavage` finds each
  state's best utility as a running maximum that starts at 0. It then scores every
  alternative by its largest regret. `CalculateLaplace` scores every alternative by its
  mean utility. `sortAltValues` turns a score map into a list ranked by score, ascending
  or descending.
- **Wald, MaxiMax and Hurwicz criteria** (`SEM10/tpr-2/main.go`). `CalculateCriteria`
  finds each alternative's worst and best outcomes and blends them with the optimism
  coefficient alpha. `sort.Sort(ByCriterion{...})` orders the alternatives in place by one
  criterion, largest first.

Files:

- `sorting.dfy` (module `Sorting`) holds the pieces shared by all three programs: Go's
  string order, the "no repeated element" and "ordered by" predicates, and one verified
  in-place insertion sort. The sort stands in for `sort.Strings`, `sort.Slice` and
  `sort.Sort`. It exchanges neighbours, as `ByCriterion.Swap` does.
- `pareto.dfy` (module `Pareto`) models tpr-4. `ParetoSystem` is a class, because
  `BuildDominance` updates the system's `dominance` field in place.
- `uncertainty.dfy` (module `Uncertainty`) holds the utility table. tpr-2 and tpr-3 declare
  the same `UncertainDecisionSystem` record. No core routine updates it, so it is a
  datatype.
- `savage_laplace.dfy` (module `SavageLaplace`) models tpr-3, and `wald_hurwicz.dfy`
  (module `WaldHurwicz`) models tpr-2.
- `scenarios.dfy` (module `Scenarios`) works through two small examples: three alternatives
  ranked by two experts, and a two-by-two utility table.

Modelling choices:

- Utilities are `real`.
- The Go maps keyed by alternative and expert names become tables indexed by position.
  `rankings[e][a]` is expert e's rank for alternative a. `dominance[a1][a2]` says whether
  a1 dominates a2. `outcomes[i][j]` is alternative i's utility in state j. Alternative names
  are distinct, so a name and a position pick out the same alternative.
- The score maps of tpr-3 stay maps from name to score.
- Each routine that loops over variables is a method with the same loops, flags and early
  `break`s as the source. Each method is proved against a specification function:
  - `Dominates` for the dominance table;
  - `MaxFromZero` (the running maximum from 0) for the Savage loops;
  - `Sum` for the Laplace loop;
  - `IsMinimum` / `IsMaximum` for the Wald and MaxiMax loop.
- Separate lemmas prove what the source promises about those functions.
- `sortAltValues` reads the map in an order the model leaves open. This is a
  nondeterministic choice of the next key, like Go's unordered map iteration. The result
  is specified only as a permutation of the map's entries, ranked by value.
- Equal scores do not keep declaration order. The code iterates a Go map and uses the
  unstable `sort.Slice` / `sort.Sort`, so the model follows the code and fixes no tie
  order.

## Model

| member | source | states |
|---|---|---|
| `Sorting.LexLeqTotal` | SEM10/tpr-4/main.go:198 | Any two names are comparable in Go's string order. |
| `Sorting.LexLeqTransitive` | SEM10/tpr-4/main.go:198 | Go's string order is transitive. |
| `Sorting.LexLeqAntisymmetric` | SEM10/tpr-4/main.go:198 | Two names that are each at most the other are equal, so distinct names sort strictly. |
| `Sorting.LexLeqIsTotalPreorder` | SEM10/tpr-4/main.go:198 | Go's string order is a total preorder, which is what `sort.Strings` needs. |
| `Sorting.InsertionSort` | SEM10/tpr-2/main.go:210-212 | Sorting in place by exchanging neighbours leaves the array ordered by the comparator and a permutation of its old contents. |
| `Sorting.DistinctPermutation` | SEM10/tpr-4/main.go:198 | Sorting a list without repeated names leaves it without repeated names. |
| `Pareto.DominanceIrreflexive` | SEM10/tpr-4/main.go:129-131 | No alternative dominates itself. |
| `Pareto.WorseForOneExpertVetoes` | SEM10/tpr-4/main.go:140-143 | If one expert ranks a1 strictly worse than a2, a1 does not dominate a2, whatever the other experts say. |
| `Pareto.DominanceAntisymmetric` | SEM10/tpr-4/main.go:133-152 | a dominates b and b dominates a never both hold. |
| `Pareto.TiedAlternativesIncomparable` | SEM10/tpr-4/main.go:133-150 | With no experts, or when every expert ties a and b, neither dominates the other. |
| `Pareto.DominanceTransitive` | SEM10/tpr-4/main.go:133-152 | Dominance is transitive. |
| `Pareto.UndominatedAbove` | SEM10/tpr-4/main.go:181-196 | Every alternative is either undominated or dominated by an undominated alternative. |
| `Pareto.ParetoNonEmpty` | SEM10/tpr-4/main.go:181-196 | With at least one alternative, some alternative is undominated. |
| `Pareto.ParetoSystem.constructor` | SEM10/tpr-4/main.go:82-87 | A system over the collected names and ranks starts with an empty dominance table, where every lookup is false. |
| `Pareto.ParetoSystem.BuildDominance` | SEM10/tpr-4/main.go:122-155 | Afterwards `dominance[a1][a2]` is true exactly when every expert ranks a1 no worse than a2 and some expert ranks it strictly better. Names and ranks are unchanged. |
| `Pareto.ParetoSystem.ParetoSet` | SEM10/tpr-4/main.go:181-200 | The result holds exactly the alternatives whose dominance column is all false, each once, in strictly ascending string order. After `BuildDominance` these are exactly the undominated alternatives, and the result is non-empty when there are alternatives. |
| `Pareto.SubsetSize` | SEM10/tpr-4/main.go:181-196 | A subset is no larger than its superset. This counting step shows that a chain of dominators ends. |
| `SavageLaplace.MaxFromZeroIsMaximum` | SEM10/tpr-3/main.go:159-166 | The running maximum started at 0 is at least 0 and at least every element, and it equals 0 or one of the elements. |
| `SavageLaplace.ColumnMaximaBound` | SEM10/tpr-3/main.go:158-167 | Each `maxOutcomes[j]` is at least 0 and at least every alternative's utility in state j, and it equals 0 or one of them. |
| `SavageLaplace.ColumnMaximumAttained` | SEM10/tpr-3/main.go:159-166 | When utilities are at least 1 and there is an alternative, `maxOutcomes[j]` is attained by some alternative, so it is the column maximum. |
| `SavageLaplace.SavageScoreIsMaxRegret` | SEM10/tpr-3/main.go:172-179 | The Savage score is max(0, max over j of `maxOutcomes[j] - U(alt, j)`), so it is never negative. |
| `SavageLaplace.BestEverywhereHasNoRegret` | SEM10/tpr-3/main.go:171-180 | An alternative with non-negative utilities that is best in every state has Savage score 0. |
| `SavageLaplace.CalculateSavage` | SEM10/tpr-3/main.go:154-182 | The result has one entry per alternative, and that entry is the alternative's Savage score. |
| `SavageLaplace.SumBounds` | SEM10/tpr-3/main.go:189-192 | If every element lies in [lo, hi], the accumulated sum lies in [lo·n, hi·n]. |
| `SavageLaplace.LaplaceWithinRowBounds` | SEM10/tpr-3/main.go:186-198 | The Laplace score `sum / statesCount` lies within any bounds of the row, in particular between its minimum and its maximum. |
| `SavageLaplace.LaplaceOfConstantRow` | SEM10/tpr-3/main.go:188-196 | A row whose every utility is c has Laplace score c. |
| `SavageLaplace.LaplaceOfMissingRow` | SEM10/tpr-3/main.go:188-196 | An alternative with no outcomes (Go's missing map entry, an empty slice) scores 0. |
| `SavageLaplace.CalculateLaplace` | SEM10/tpr-3/main.go:186-198 | The result has one entry per alternative, and that entry is the sum of the alternative's own row, full or not, divided by the state count. It needs one row per alternative, distinct names and at least one state. |
| `SavageLaplace.SortAltValues` | SEM10/tpr-3/main.go:200-216 | The result holds every (alternative, value) entry of the map exactly once. It is non-decreasing by value when `ascending` holds and non-increasing otherwise. |
| `WaldHurwicz.HurwiczBlend` | SEM10/tpr-2/main.go:187 | The blend gives the worst outcome when alpha = 0 and the best outcome when alpha = 1. |
| `WaldHurwicz.HurwiczBetween` | SEM10/tpr-2/main.go:187 | When alpha is in [0, 1] and min ≤ max, the blend lies between min and max. |
| `WaldHurwicz.CalculateCriteria` | SEM10/tpr-2/main.go:167-197 | Each alternative gets one entry at its own index and with its own name. For a non-empty row, `wald` is the row minimum and `maxmax` is the row maximum. `hurwicz` is their blend, and wald ≤ hurwicz ≤ maxmax. An alternative with an empty row keeps the zero value. |
| `WaldHurwicz.SortByCriterion` | SEM10/tpr-2/main.go:200-212 | `sort.Sort(ByCriterion{...})` leaves the slice a permutation of its former contents, non-increasing by the chosen criterion. |
| `Scenarios.ParetoExample` | SEM10/tpr-4/main.go:133-152 | For three alternatives A, B, C ranked (1, 2, 3) and (1, 3, 2) by two experts, A dominates B and C, B and C are incomparable, and only A is undominated. |
| `Scenarios.CriteriaExample` | SEM10/tpr-3/main.go:154-198 | For utilities A = [10, 2] and B = [6, 6]: state maxima are [10, 6], both Savage scores are 4, both Laplace scores are 6, and the Hurwicz blend of SEM10/tpr-2/main.go line 187 at alpha 0.5 is 6 for both. |

## Left out

- Console input is left out: `inputReader` and every `read*` method, `newParetoSystem`,
  `newUncertainDecisionSystem`, `CollectRankings` and `CollectOutcomes`. Their guarantees
  appear as preconditions or as predicates on the table:
  - names are distinct;
  - there is one rank per (expert, alternative) pair;
  - there is one utility per (alternative, state) pair;
  - the state count is at least 1;
  - utilities lie in [1, maxScore] (`DecisionSystem.InRange`, used only where a lemma needs it);
  - alpha lies in [0, 1].
- The constructor of `ParetoSystem` takes tables that were already collected.
- `CalculateCriteria` reads alpha from the console. In the model, alpha is a parameter.
- All printing is left out: every `Print*` function, `PrintRanking`, the format and prompt
  constants and `main`. The 1-based rank numbers are only printed, so they are not modelled.
- Names that are not valid UTF-8 are not modelled. Go orders strings by their bytes;
  the model orders them by character, and the two orders agree only for valid UTF-8.
- IEEE-754 rounding is not modelled. Utilities, sums, means and the Hurwicz blend are
  exact reals.
- Go's map iteration order and the algorithms inside `sort.Strings`, `sort.Slice` and
  `sort.Sort` are not reproduced. Only their promise is modelled: a permutation, ordered by
  the comparator, with no fixed order among equal elements.
- Duplicate alternative names are not modelled where they matter. The Go maps would merge
  such alternatives. `ParetoSystem`, `CalculateSavage` and `CalculateLaplace` require
  distinct names; `CalculateCriteria` reads rows by position and does not need them.
- Duplicate expert names are not modelled. `CollectRankings` keys `rankings` by expert name,
  so a repeated name would overwrite the earlier expert's ranks and `BuildDominance` would
  read the surviving row once per listed expert. The model keeps one row per expert and
  requires distinct expert names (`ParetoSystem.Valid` and the constructor).
- A missing or short outcome row is an empty or short row in the model.
  `CalculateCriteria` skips an empty row, and `CalculateLaplace` sums whatever the row
  holds and divides by the state count. Only the Savage loop indexes every row by state,
  so only `CalculateSavage` requires a full table (`DecisionSystem.Valid`). Go would
  stop with an index error on a short row there; the model leaves that case out.
- `maxScore` does not affect any computed value; it is carried as data only. With distinct
  expert names, the names only label the rows of `rankings`.
