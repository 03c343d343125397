/**
 The statfeed sampler: a pool of n items (at most 1000) with per-item usage
 counts, the weights derived from them, and their cumulative table. Each query
 selects an index by inverse-CDF lookup and then ages every item, resets the
 chosen one to zero and recomputes the tables, so that recently chosen items
 become unlikely to be chosen again.
 */
module Statfeed {
  import opened Numeric
  import opened Outcomes
  import opened Lookup
  import opened Pipeline

  /** The fixed size of the count, weight and cumulative tables. */
  const Capacity: nat := 1000

  /** The sampler's state: the active item count n, the exponent, the last
      selected index, and the three capacity-sized tables. */
  datatype Sampler = Sampler(
    n: nat,
    exponent: nat,
    last: nat,
    counts: seq<nat>,
    weights: seq<real>,
    cumulative: seq<real>)

  /** Between one and Capacity active items, and tables of full capacity. */
  predicate Valid(s: Sampler)
  {
    && 1 <= s.n <= Capacity
    && |s.counts| == Capacity
    && |s.weights| == Capacity
    && |s.cumulative| == Capacity
  }

  /** The weight and cumulative tables are those derived from the counts:
      each active weight is (count / largest count)^exponent, and the
      cumulative table holds the running sums of those weights. */
  predicate Derived(s: Sampler)
  {
    && Valid(s)
    && Largest(s.counts, s.n) > 0
    && (forall i :: 0 <= i < s.n ==>
          s.weights[i] == Pow(Ratio(s.counts[i], Largest(s.counts, s.n)), s.exponent))
    && PrefixSums(s.weights, s.cumulative, s.n)
  }

  /** The state after s2 has taken the place of s with sel just selected:
      the selected count is zero, every other active count is one older,
      the counts beyond the active items and the configuration are unchanged. */
  predicate Advanced(s: Sampler, sel: nat, s2: Sampler)
    requires Valid(s)
  {
    && Valid(s2)
    && sel < s.n
    && s2.n == s.n
    && s2.exponent == s.exponent
    && s2.last == sel
    && s2.counts[sel] == 0
    && (forall i :: 0 <= i < s.n && i != sel ==> s2.counts[i] == s.counts[i] + 1)
    && (forall i :: s.n <= i < Capacity ==> s2.counts[i] == s.counts[i])
  }

  /** A uniform starting state: every count 1, every weight 1, and the
      cumulative table 1, 2, 3, ... over the whole capacity. */
  function Init(n: nat, k: nat): (s: Sampler)
    requires 1 <= n <= Capacity
    ensures Valid(s)
  {
    Sampler(n, k, 0,
            seq(Capacity, _ => 1),
            seq(Capacity, _ => 1.0),
            seq(Capacity, i => (i + 1) as real))
  }

  /** Choosing how many items are in use; no table is recomputed. */
  function SetElems(s: Sampler, n: nat): (r: Sampler)
    requires Valid(s)
    requires 1 <= n <= Capacity
    ensures Valid(r) && r.n == n
    ensures r.exponent == s.exponent && r.last == s.last
    ensures r.counts == s.counts && r.weights == s.weights && r.cumulative == s.cumulative
  {
    s.(n := n)
  }

  /** Choosing the exponent; no table is recomputed. */
  function SetExponent(s: Sampler, k: nat): (r: Sampler)
    requires Valid(s)
    ensures Valid(r) && r.exponent == k
    ensures r.n == s.n && r.last == s.last
    ensures r.counts == s.counts && r.weights == s.weights && r.cumulative == s.cumulative
  {
    s.(exponent := k)
  }

  /** New counts with the tables recomputed from them; fails with a division
      by zero exactly when every active count is zero. */
  function Reload(s: Sampler, counts: seq<nat>): (r: Result<Sampler>)
    requires Valid(s) && |counts| == Capacity
    ensures r.Err? <==> forall i :: 0 <= i < s.n ==> counts[i] == 0
    ensures r.Ok? ==> Derived(r.value) && r.value.counts == counts
    ensures r.Ok? ==> r.value.n == s.n && r.value.exponent == s.exponent && r.value.last == s.last
    ensures r.Ok? ==> forall i :: s.n <= i < Capacity ==>
              r.value.weights[i] == s.weights[i] && r.value.cumulative[i] == s.cumulative[i]
  {
    match Recompute(counts, s.weights, s.cumulative, s.n, s.exponent)
    case Err(e) => Err(e)
    case Ok(t) =>
      Ok(s.(counts := counts, weights := t.weights, cumulative := t.cumulative))
  }

  /** The update after a lookup: age every active item, zero the last
      selected one, and recompute. With a single item the largest count is
      zero and the rescale divides by zero. */
  function Update(s: Sampler): (r: Result<Sampler>)
    requires Valid(s) && s.last < s.n
    ensures r.Ok? <==> s.n >= 2
    ensures r.Ok? ==> Derived(r.value) && Advanced(s, s.last, r.value)
    ensures r.Ok? ==> forall i :: s.n <= i < Capacity ==>
              r.value.weights[i] == s.weights[i] && r.value.cumulative[i] == s.cumulative[i]
  {
    var counts := Zero(Increment(s.counts, s.n), s.last);
    var other := if s.last == 0 then 1 else 0;
    assert s.n >= 2 ==> other < s.n && counts[other] > 0;
    Reload(s, counts)
  }

  /** The result of one query: the selected index, whether the query lay
      outside [0,1] (a warning only; sampling goes on), and the next state. */
  datatype Step = Step(output: nat, warned: bool, next: Result<Sampler>)

  /** One query: look up the index for f, then update. */
  function OnFloat(s: Sampler, f: real): (r: Step)
    requires Valid(s)
    ensures r.output < s.n
    ensures r.output == GetIndex(s.cumulative, s.n, f)
    ensures s.n == 1 ==> r.output == 0
    ensures r.warned <==> f < 0.0 || f > 1.0
    ensures r.next.Ok? <==> s.n >= 2
    ensures r.next.Ok? ==> Derived(r.next.value) && Advanced(s, r.output, r.next.value)
    ensures r.next.Ok? ==> forall i :: s.n <= i < Capacity ==>
              r.next.value.weights[i] == s.weights[i] && r.next.value.cumulative[i] == s.cumulative[i]
  {
    var j := GetIndex(s.cumulative, s.n, f);
    Step(j, f < 0.0 || f > 1.0, Update(s.(last := j)))
  }

  /** Every active count back to 1; the tables are not recomputed. */
  function Reset(s: Sampler): (r: Sampler)
    requires Valid(s)
    ensures Valid(r) && r.n == s.n && r.exponent == s.exponent && r.last == s.last
    ensures forall i :: 0 <= i < s.n ==> r.counts[i] == 1
    ensures forall i :: s.n <= i < Capacity ==> r.counts[i] == s.counts[i]
    ensures r.weights == s.weights && r.cumulative == s.cumulative
  {
    s.(counts := ResetCounts(s.counts, s.n))
  }

  /** The sequence load: counts n-1, ..., 1, 0, then recompute. With a single
      item the only count is 0 and the rescale divides by zero. */
  function Sequence(s: Sampler): (r: Result<Sampler>)
    requires Valid(s)
    ensures r.Ok? <==> s.n >= 2
    ensures r.Ok? ==> Derived(r.value) && r.value.n == s.n && r.value.exponent == s.exponent
    ensures r.Ok? ==> r.value.last == s.last
    ensures r.Ok? ==> forall i :: s.n <= i < Capacity ==>
              r.value.weights[i] == s.weights[i] && r.value.cumulative[i] == s.cumulative[i]
    ensures r.Ok? ==> forall i :: 0 <= i < s.n ==> r.value.counts[i] == s.n - 1 - i
    ensures r.Ok? ==> forall i :: s.n <= i < Capacity ==> r.value.counts[i] == s.counts[i]
  {
    var counts := RampCounts(s.counts, s.n);
    assert counts[0] == s.n - 1;
    Reload(s, counts)
  }

  /** The random load with the random draws supplied by the caller, each in
      [0,9], then recompute. It fails exactly when every draw is zero. */
  function Randomize(s: Sampler, draws: seq<nat>): (r: Result<Sampler>)
    requires Valid(s)
    requires |draws| == s.n
    requires forall i :: 0 <= i < |draws| ==> draws[i] < 10
    ensures r.Ok? <==> exists i :: 0 <= i < s.n && draws[i] > 0
    ensures r.Ok? ==> Derived(r.value) && r.value.n == s.n && r.value.exponent == s.exponent
    ensures r.Ok? ==> r.value.last == s.last
    ensures r.Ok? ==> forall i :: s.n <= i < Capacity ==>
              r.value.weights[i] == s.weights[i] && r.value.cumulative[i] == s.cumulative[i]
    ensures r.Ok? ==> forall i :: 0 <= i < s.n ==> r.value.counts[i] == draws[i] < 10
    ensures r.Ok? ==> forall i :: s.n <= i < Capacity ==> r.value.counts[i] == s.counts[i]
  {
    var counts := LoadDraws(s.counts, draws);
    assert forall i :: 0 <= i < s.n ==> counts[i] == draws[i];
    Reload(s, counts)
  }

  /** The initial state is consistent: its tables are derived from its counts,
      and the cumulative table over the active items is 1, 2, ..., n. */
  lemma InitIsDerived(n: nat, k: nat)
    requires 1 <= n <= Capacity
    ensures Derived(Init(n, k))
    ensures forall i :: 0 <= i < n ==> Init(n, k).cumulative[i] == (i + 1) as real
  {
    var s := Init(n, k);
    assert s.counts[0] == 1;
    assert Largest(s.counts, n) == 1;
    forall i | 0 <= i < n
      ensures s.weights[i] == Pow(Ratio(s.counts[i], 1), k)
    {
      PowOnUnitInterval(1.0, k);
    }
    forall i | 0 <= i < n
      ensures s.cumulative[i] == Total(s.weights[..i + 1])
    {
      AllOnesTotal(s.weights, i + 1);
    }
  }

  /** The invariants of a derived state: active weights in [0,1], a
      non-decreasing cumulative table with total at least 1, and, for a
      positive exponent, a zero weight exactly where the count is zero. */
  lemma DerivedInvariants(s: Sampler)
    requires Derived(s)
    ensures forall i :: 0 <= i < s.n ==> 0.0 <= s.weights[i] <= 1.0
    ensures NonDecreasing(s.cumulative, s.n)
    ensures 1.0 <= s.cumulative[s.n - 1]
    ensures s.exponent >= 1 ==> forall i :: 0 <= i < s.n ==> (s.weights[i] == 0.0 <==> s.counts[i] == 0)
  {
    RecomputeShape(s.counts, s.weights, s.cumulative, s.n, s.exponent);
    var t := Recompute(s.counts, s.weights, s.cumulative, s.n, s.exponent).value;
    assert t.weights[..s.n] == s.weights[..s.n];
    forall i | 0 <= i < s.n
      ensures t.cumulative[i] == s.cumulative[i]
    {
      assert t.weights[..i + 1] == t.weights[..s.n][..i + 1];
      assert s.weights[..i + 1] == s.weights[..s.n][..i + 1];
    }
  }

  /** On a derived state with a positive exponent, a query in [0,1) never
      selects an item whose count is zero. */
  lemma SampleSkipsZeroCount(s: Sampler, f: real)
    requires Derived(s)
    requires s.exponent >= 1
    requires 0.0 <= f < 1.0
    ensures s.counts[OnFloat(s, f).output] > 0
  {
    DerivedInvariants(s);
    QueryInRange(s.cumulative, s.n, f);
    ZeroWeightNeverChosen(s.weights, s.cumulative, s.n, f);
  }

  /** Anti-repetition: with at least two items and a positive exponent, the
      item chosen by one query is never chosen by the next query in [0,1). */
  lemma NoImmediateRepeat(s: Sampler, f1: real, f2: real)
    requires Valid(s)
    requires s.n >= 2 && s.exponent >= 1
    requires 0.0 <= f2 < 1.0
    ensures OnFloat(s, f1).next.Ok?
    ensures OnFloat(OnFloat(s, f1).next.value, f2).output != OnFloat(s, f1).output
  {
    var first := OnFloat(s, f1);
    var s2 := first.next.value;
    SampleSkipsZeroCount(s2, f2);
  }

  /** A query of exactly 1.0 is accepted without warning, yet on a state
      whose cumulative table does not decrease it always selects the last
      item, and it selects it again on the next query of 1.0, although its
      count was just zeroed. */
  lemma FullQueryRepeats(s: Sampler)
    requires Valid(s)
    requires s.n >= 2
    requires NonDecreasing(s.cumulative, s.n)
    ensures !OnFloat(s, 1.0).warned
    ensures OnFloat(s, 1.0).output == s.n - 1
    ensures OnFloat(s, 1.0).next.Ok?
    ensures OnFloat(OnFloat(s, 1.0).next.value, 1.0).output == s.n - 1
    ensures OnFloat(s, 1.0).next.value.counts[s.n - 1] == 0
  {
    FullQueryTakesLast(s.cumulative, s.n);
    var s2 := OnFloat(s, 1.0).next.value;
    DerivedInvariants(s2);
    FullQueryTakesLast(s2.cumulative, s2.n);
  }

  /** Resetting and then recomputing yields the uniform tables: every active
      weight is 1 and the cumulative table is 1, 2, ..., n. */
  lemma ResetThenRecompute(s: Sampler)
    requires Valid(s)
    ensures Reload(Reset(s), Reset(s).counts).Ok?
    ensures forall i :: 0 <= i < s.n ==> Reload(Reset(s), Reset(s).counts).value.weights[i] == 1.0
    ensures forall i :: 0 <= i < s.n ==> Reload(Reset(s), Reset(s).counts).value.cumulative[i] == (i + 1) as real
  {
    var r := Reset(s);
    assert r.counts[0] == 1;
    var t := Reload(r, r.counts).value;
    assert Largest(r.counts, s.n) == 1;
    forall i | 0 <= i < s.n
      ensures t.weights[i] == 1.0
    {
      PowOnUnitInterval(1.0, s.exponent);
    }
    forall i | 0 <= i < s.n
      ensures t.cumulative[i] == (i + 1) as real
    {
      AllOnesTotal(t.weights, i + 1);
    }
  }

  /** After the sequence load with at least two items, the first weight is 1;
      for a positive exponent the weights strictly decrease down to a last
      weight of 0, and for exponent 0 every weight is 1. */
  lemma SequenceWeights(s: Sampler)
    requires Valid(s)
    requires s.n >= 2
    ensures Sequence(s).Ok?
    ensures Sequence(s).value.weights[0] == 1.0
    ensures s.exponent >= 1 ==> Sequence(s).value.weights[s.n - 1] == 0.0
    ensures s.exponent >= 1 ==> forall i, j :: 0 <= i < j < s.n ==>
              Sequence(s).value.weights[i] > Sequence(s).value.weights[j]
    ensures s.exponent == 0 ==> forall i :: 0 <= i < s.n ==> Sequence(s).value.weights[i] == 1.0
  {
    var r := Sequence(s).value;
    var n, k := s.n, s.exponent;
    assert r.counts[0] == n - 1;
    assert Largest(r.counts, n) == n - 1;
    assert forall i :: 0 <= i < n ==> r.weights[i] == Pow(Ratio(n - 1 - i, n - 1), k);
    RatioBounds(n - 1, n - 1);
    PowOnUnitInterval(1.0, k);
    RatioBounds(0, n - 1);
    PowOnUnitInterval(0.0, k);
    if k >= 1 {
      forall i, j | 0 <= i < j < n
        ensures r.weights[i] > r.weights[j]
      {
        RampRatioDecreasing(n, i, j);
        PowStrictlyIncreasing(Ratio(n - 1 - j, n - 1), Ratio(n - 1 - i, n - 1), k);
      }
    }
  }

  /** Along the ramp n-1, ..., 0 the rescaled weights strictly decrease. */
  lemma RampRatioDecreasing(n: nat, i: nat, j: nat)
    requires 2 <= n && i < j < n
    ensures 0.0 <= Ratio(n - 1 - j, n - 1) < Ratio(n - 1 - i, n - 1)
  {
    RatioBounds(n - 1 - j, n - 1);
    var d := (n - 1) as real;
    assert Ratio(n - 1 - i, n - 1) - Ratio(n - 1 - j, n - 1) == ((j - i) as real) / d;
  }
}
