# statfeed — a verified model of the anti-repetition sampler

`statfeed` is a Pure Data external that picks one of n items per incoming
float. It keeps a usage count per item. After each pick every count grows by
one and the picked item's count drops to zero. The counts are rescaled by their
maximum and raised to an exponent to give weights, and the running sums of the
weights form a cumulative table. The next query in [0,1] is scaled by the total
weight and located in that table (inverse-CDF lookup). Items picked recently
have small weights, so they are unlikely to come up again.

The model has five modules:

- `Outcomes` (`outcomes.dfy`): `Option` and `Result`. The only error is
  `DivisionByZero`, which is what the rescale hits when the largest active
  count is 0.
- `Numeric` (`numeric.dfy`): `Pow` with a natural exponent, left-to-right
  `Total`, and the predicates `NonNegative`, `NonDecreasing` and `PrefixSums`,
  with lemmas about them.
- `Lookup` (`lookup.dfy`): `statfeed_getIndex`. `GetIndex` is a pure
  definition with a full characterisation. `GetIndexScan` is the source's loop,
  with its found flag and last-match-wins overwrite. `FirstMatchScan` is an
  early-exit scan that agrees with it on non-decreasing tables.
- `Pipeline` (`pipeline.dfy`): increment, zero, rescale, exponentiate and the
  running sum. The tables have capacity size, and only the first n entries are
  active. Each stage is a pure definition, and the source's loops are methods
  proved to compute the same tables.
- `Statfeed` (`statfeed.dfy`): the sampler state, `OnFloat` (lookup then
  update), `Update`, the bulk loads `Reset`, `Sequence` and `Randomize`, and
  the end-to-end properties.

Numbers are modelled as follows:

- Counts are whole numbers, so they are `nat`.
- Weights and cumulative sums are exact `real`s. Single-precision rounding is
  not modelled.
- The exponent is a natural number `k`. `Pow(x, 0)` is 1, which matches C's
  `pow(x, 0)`.

On an exponent of 0, every weight becomes 1, including the weight of the item
just picked. The anti-repetition results therefore assume `k >= 1`.

Ties go to the later bucket. With cumulative table `[1,1,2]` and term 1.0,
bucket 0 fails its strict upper test (`1 < 1`), bucket 1 matches, and index 2
is selected (`Lookup.TieBreakExample`).

## Model

| member | source | states |
|---|---|---|
| Lookup.GetIndex | statfeed.c:30-47 | The selected index is always in [0, n), whatever the query. If the scaled term is below `cum[0]` the result is 0. Otherwise, if some bucket `cum[i] <= t < cum[i+1]` matches, the result is i+1 for the largest matching i. If none matches, the result is n-1. |
| Lookup.InBucket | statfeed.c:39 | The bucket test `cum[i] <= t < cum[i+1]`. A bucket that holds any term is non-empty: its lower bound is strictly below its upper bound. |
| Lookup.SearchTerm | statfeed.c:31 | The query scaled by the total weight. A query of 0 gives term 0 and a query of 1 gives exactly the total; `Lookup.QueryInRange` shows that, for a positive total, a query in [0,1) gives a term in [0, total). |
| Lookup.LastMatch | statfeed.c:38-43 | The scan over buckets 0..m-1 ends holding i+1 for the last matching bucket i, with no match after it. It holds nothing exactly when no bucket matches. |
| Lookup.GetIndexScan | statfeed.c:23-48 | The source's loop computes exactly `GetIndex`. The loop has the found flag, the overwrite on every match (no early break) and the fallback to n-1. |
| Lookup.UniqueBucket | statfeed.c:38-43 | On a non-decreasing cumulative table at most one bucket holds a given term. |
| Lookup.FirstMatchScan | statfeed.c:38-43 | On a non-decreasing table, a scan that stops at the first matching bucket selects the same index as the source's last-match scan. |
| Lookup.BucketExists | statfeed.c:38-47 | A term in [cum[0], cum[m]) lies in some bucket below m. So the fallback is taken only for terms outside [cum[0], total). |
| Lookup.ZeroWeightNeverChosen | statfeed.c:31-47 | Suppose the cumulative table holds the prefix sums of non-negative weights and the scaled term lies in [0, total). Then the selected item has positive weight. |
| Lookup.FullQueryTakesLast | statfeed.c:31-47 | A query of exactly 1.0 on a non-decreasing table matches no bucket and falls back to n-1, whatever that item's weight. |
| Lookup.TieBreakExample | statfeed.c:38-43 | With cumulative table [1,1,2] and term 1.0, index 2 is selected, not 1. |
| Lookup.LastMatchWinsExample | statfeed.c:38-43 | On a table where buckets 0 and 2 both hold the term, the later match wins and index 3 is selected. |
| Pipeline.Increment | statfeed.c:51-55 | Definition of the increment. The table keeps its size and every active count is at least 1 afterwards; `Pipeline.IncrementLoop` proves the loop computes it. |
| Pipeline.Zero | statfeed.c:58-60 | The selected count becomes 0 and every other count is unchanged. |
| Pipeline.ResetCounts | statfeed.c:101-105 | Definition of the reset. The table keeps its size, and the largest active count is 1 (0 when no item is active); `Pipeline.ResetLoop` proves the loop computes it. |
| Pipeline.RampCounts | statfeed.c:145-148 | Definition of the ramp. For n >= 1 the first active count is n-1, the last is 0, and n-1 is the largest; `Pipeline.RampLoop` proves the loop computes it. |
| Pipeline.LoadDraws | statfeed.c:137-139 | The draws become the leading counts, in order, and the table keeps its size. |
| Pipeline.Scale | statfeed.c:63-73 | Definition of the rescale; its bounds are in `Pipeline.ScaleBounds` and `Pipeline.ScaleLoop` proves the loop computes it. |
| Pipeline.Exponentiate | statfeed.c:76-80 | Definition of the exponentiation. With exponent 0 every active weight becomes 1; `Pipeline.ExponentiateLoop` proves the loop computes it. |
| Pipeline.Cumulative | statfeed.c:83-90 | Definition of the running-sum table. Over non-negative weights it is non-decreasing and its last active entry bounds every weight; `Pipeline.SumLoop` proves the loop computes it. |
| Pipeline.Largest | statfeed.c:64-69 | The integer maximum starts at 0. It bounds every active count and equals one of them. It is 0 exactly when all active counts are 0. |
| Pipeline.LargestLoop | statfeed.c:64-69 | The source's maximum loop computes `Largest`. |
| Pipeline.RatioBounds | statfeed.c:71 | A count divided by the largest count lies in [0,1]. It is 0 exactly for a zero count and 1 exactly for the maximum itself. |
| Pipeline.ScaleBounds | statfeed.c:63-73 | After the rescale, every active weight is in [0,1]. A weight is 0 exactly when its count is 0, and 1 exactly when the item holds the largest count. Weights at or beyond n are untouched. |
| Pipeline.ScaleLoop | statfeed.c:63-73 | The source's rescale fails with a division by zero when the largest count is 0. Otherwise it produces exactly the rescaled table. |
| Pipeline.IncrementLoop | statfeed.c:51-55 | The increment loop adds one to each active count and leaves the other counts as they were. |
| Pipeline.ExponentiateLoop | statfeed.c:76-80 | The exponentiate loop raises each active weight to the exponent and leaves the other weights as they were. |
| Pipeline.SumLoop | statfeed.c:83-90 | The running-sum loop (`cum[0] = w[0]`, `cum[i] = cum[i-1] + w[i]`) produces the reference table. In that table entry i is the total of weights 0..i, and entries at or beyond n are untouched. |
| Pipeline.ResetLoop | statfeed.c:101-105 | The reset loop sets every active count to 1 and leaves the other counts as they were. |
| Pipeline.RampLoop | statfeed.c:145-148 | The sequence loop sets active count i to n-1-i and leaves the other counts as they were. |
| Pipeline.Recompute | statfeed.c:63-90 | Rescale, exponentiate and sum fail with a division by zero exactly when every active count is 0. |
| Pipeline.RecomputeShape | statfeed.c:63-90 | After a successful recompute, weights are in [0,1] and an item with the largest count has weight 1. The cumulative table is non-decreasing with total at least 1. For k >= 1, a weight is 0 exactly when its count is 0. |
| Numeric.PowOnUnitInterval | statfeed.c:76-80 | A natural power keeps a weight in [0,1]. The result is 0 exactly for base 0 with exponent at least 1, and weight 1 stays 1. |
| Numeric.PowStrictlyIncreasing | statfeed.c:76-80 | For exponent at least 1, exponentiation preserves the strict order of non-negative weights. |
| Numeric.PrefixSumsRecurrence | statfeed.c:84-87 | A prefix-sum table satisfies the source's recurrence: `cum[0] = w[0]` and `cum[i] = cum[i-1] + w[i]`. |
| Numeric.PrefixSumsNonDecreasing | statfeed.c:83-90 | Prefix sums of non-negative weights are non-decreasing, and the last one bounds every weight. |
| Statfeed.SetElems | statfeed.c:108-110 | Setting the item count changes only n: the exponent, the last selection, the counts, the weights and the cumulative table are unchanged. No table is recomputed. |
| Statfeed.SetExponent | statfeed.c:113-115 | Setting the exponent changes only the exponent: n, the last selection, the counts, the weights and the cumulative table are unchanged. No table is recomputed. |
| Statfeed.Reload | statfeed.c:140-142 | Loading counts and recomputing fails exactly when every active count is 0. Otherwise the new state's tables are derived from the loaded counts, and entries beyond n are untouched. |
| Statfeed.Update | statfeed.c:92-98 | The update succeeds exactly when n >= 2. It then sets the selected count to 0 and adds one to every other active count. The tables are re-derived. Counts, weights and cumulative entries beyond n are unchanged. |
| Statfeed.OnFloat | statfeed.c:129-133 | One query selects `GetIndex` of the current table, an index in [0, n) that is 0 when n = 1. A query outside [0,1] only raises a warning. The following update has the effects stated for `Update`: the selected count becomes 0, the other active counts grow by one, the tables are re-derived, and counts, weights and cumulative entries beyond n are unchanged. |
| Statfeed.Reset | statfeed.c:101-105 | Every active count becomes 1. Other counts, the weights and the cumulative table are untouched. |
| Statfeed.Sequence | statfeed.c:145-152 | The counts become n-1, ..., 1, 0 and the tables are re-derived. n, the exponent and the last selection are kept, and counts, weights and cumulative entries beyond n are unchanged. This fails with a division by zero exactly when n = 1. |
| Statfeed.Randomize | statfeed.c:135-143 | The caller's draws, each in [0,9], become the counts and the tables are re-derived. n, the exponent and the last selection are kept, and counts, weights and cumulative entries beyond n are unchanged. This fails exactly when every draw is 0. |
| Statfeed.Init | statfeed.c:176-178 | Definition of the uniform starting state with every count 1; it is a valid state, and `Statfeed.InitIsDerived` gives its tables. |
| Statfeed.InitIsDerived | statfeed.c:176-181 | The uniform starting state, with every count 1, is consistent, and its cumulative table is 1, 2, ..., n. |
| Statfeed.DerivedInvariants | statfeed.c:63-90 | Obtained from `Pipeline.RecomputeShape`: in a consistent state, weights are in [0,1] and the cumulative table is non-decreasing with total at least 1. For k >= 1, a weight is 0 exactly when its count is 0. |
| Statfeed.SampleSkipsZeroCount | statfeed.c:129-131 | In a consistent state with k >= 1, a query in [0,1) never selects an item whose count is 0. |
| Statfeed.NoImmediateRepeat | statfeed.c:129-133 | With n >= 2 and k >= 1, the item picked by one query is never picked by the next query in [0,1). |
| Statfeed.FullQueryRepeats | statfeed.c:26-47 | On a state with n >= 2 whose active cumulative table is non-decreasing, a query of exactly 1.0 raises no warning. It selects n-1, and a second query of 1.0 selects n-1 again, even though that item's count was just zeroed. |
| Statfeed.ResetThenRecompute | statfeed.c:101-105 | A reset followed by a recompute gives every active weight 1 and the cumulative table 1, 2, ..., n. |
| Statfeed.SequenceWeights | statfeed.c:145-152 | After the sequence load with n >= 2 the first weight is 1. For k >= 1 the weights strictly decrease to a last weight of 0. For k = 0 every weight is 1. |
| Statfeed.RampRatioDecreasing | statfeed.c:147 | The rescaled ramp (n-1-i)/(n-1) is non-negative and strictly decreasing. |

## Left out

- Pure Data host plumbing is not modelled: `statfeed_setup`, `statfeed_new` and `statfeed_free`, inlets and outlets, `outlet_float` and `outlet_list`, `post` logging, `statfeed_onbang` and `statfeed_counts_out`. These are I/O and calls into the host API. The range warning of `statfeed_getIndex` is kept only as the `warned` flag of a `Step`.
- The constructor's literal behaviour is not modelled. It relies on the host zeroing the object's memory, so it resets with `num_elems` equal to 0 and runs exponentiate and sum with no active items. It also never reads its two arguments, so the exponent starts at whatever the host memory holds. The model starts instead from the explicit uniform state `Init(n, k)`, with every count 1, every weight 1 and cumulative table 1, 2, 3, ....
- `srand(time(NULL))` and `rand()` are not modelled. `Randomize` takes the draws from its caller, each in [0,9] as `rand() % 10` gives.
- Floating point is not modelled. The source's `pow` takes an arbitrary float exponent, and the model uses a natural exponent. Single-precision rounding and the float-to-int conversion of the largest count are not modelled; the latter is exact for whole counts.
- Statfeed.SetElems: requires 1 <= n <= 1000. The source truncates any float into `num_elems` unchecked, and values outside that range index outside the tables.
- Statfeed.Update: on a division by zero (n = 1) it returns `Err(DivisionByZero)` and carries no state. In the source the division gives NaN weights. For an exponent k >= 1 the NaN goes on into the weights and the cumulative table. For k = 0, `pow(NaN, 0)` is 1, so the source ends in a clean state with every weight 1 and cumulative table 1, 2, ..., n. The model does not promise that state. Exponent 0 is also what the source starts with, since the host zeroes the object's memory. For n = 1 the lookup that follows returns index 0 either way, which `OnFloat` states.
- Statfeed.Sequence: like `Update`, the n = 1 division by zero ends in `Err`. The source goes on with NaN tables for k >= 1, and for k = 0 with weights 1 and cumulative table 1, ..., n, which the model does not promise.
- Statfeed.Randomize: like `Update`, an all-zero draw ends in `Err`. The source goes on with NaN tables for k >= 1, and for k = 0 with weights 1 and cumulative table 1, ..., n, which the model does not promise.
- Pipeline.SumLoop: requires n >= 1. With n = 0 the source still copies `weight[0]` into `cum[0]`, but every state in the model has at least one item. The trailing empty loop of `statfeed_sum` does nothing and is not reproduced.
