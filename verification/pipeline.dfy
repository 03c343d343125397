/**
 The statfeed update pipeline on capacity-sized tables with an active prefix
 of n items: count loaders, increment, zero, rescale by the largest count,
 exponentiate, and the running sum. Entries at or beyond n are never touched.
 Each stage is a pure definition; the methods are the source's loops, proved
 to compute the same tables.
 */
module Pipeline {
  import opened Numeric
  import opened Outcomes

  /** Every active count grows by one. */
  function Increment(counts: seq<nat>, n: nat): (r: seq<nat>)
    requires n <= |counts|
    ensures |r| == |counts|
    ensures forall i :: 0 <= i < n ==> 1 <= r[i]
  {
    seq(|counts|, i requires 0 <= i < |counts| => if i < n then counts[i] + 1 else counts[i])
  }

  /** The selected item's count drops to zero. */
  function Zero(counts: seq<nat>, sel: nat): (r: seq<nat>)
    requires sel < |counts|
    ensures |r| == |counts| && r[sel] == 0
    ensures forall i :: 0 <= i < |r| && i != sel ==> r[i] == counts[i]
  {
    counts[sel := 0]
  }

  /** Every active count becomes 1. */
  function ResetCounts(counts: seq<nat>, n: nat): (r: seq<nat>)
    requires n <= |counts|
    ensures |r| == |counts|
    ensures Largest(r, n) == (if n == 0 then 0 else 1)
  {
    seq(|counts|, i requires 0 <= i < |counts| => if i < n then 1 else counts[i])
  }

  /** The descending ramp n-1, ..., 1, 0 over the active items. */
  function RampCounts(counts: seq<nat>, n: nat): (r: seq<nat>)
    requires n <= |counts|
    ensures |r| == |counts|
    ensures n >= 1 ==> r[0] == n - 1 && r[n - 1] == 0 && Largest(r, n) == n - 1
  {
    seq(|counts|, i requires 0 <= i < |counts| => if i < n then n - 1 - i else counts[i])
  }

  /** The caller-supplied draws become the active counts. */
  function LoadDraws(counts: seq<nat>, draws: seq<nat>): (r: seq<nat>)
    requires |draws| <= |counts|
    ensures |r| == |counts| && r[..|draws|] == draws
  {
    seq(|counts|, i requires 0 <= i < |counts| => if i < |draws| then draws[i] else counts[i])
  }

  /** The largest active count, starting from 0 as the source's integer maximum does. */
  function Largest(counts: seq<nat>, n: nat): (m: nat)
    requires n <= |counts|
    ensures forall i :: 0 <= i < n ==> counts[i] <= m
    ensures n > 0 ==> exists i :: 0 <= i < n && counts[i] == m
    ensures m == 0 <==> forall i :: 0 <= i < n ==> counts[i] == 0
  {
    if n == 0 then 0
    else
      var m := Largest(counts, n - 1);
      if counts[n - 1] > m then counts[n - 1] else m
  }

  /** A count as a fraction of the largest count. */
  function Ratio(count: nat, largest: nat): real
    requires largest > 0
  {
    (count as real) / (largest as real)
  }

  /** Each active count divided by the largest one. */
  function Scale(counts: seq<nat>, weights: seq<real>, n: nat): (r: seq<real>)
    requires n <= |counts| == |weights|
    requires Largest(counts, n) > 0
    ensures |r| == |weights|
  {
    seq(|weights|, i requires 0 <= i < |weights| =>
      if i < n then Ratio(counts[i], Largest(counts, n)) else weights[i])
  }

  /** A count no larger than the maximum is a fraction in [0,1]: zero exactly
      for a zero count, one exactly for the maximum itself. */
  lemma RatioBounds(count: nat, largest: nat)
    requires 0 < largest && count <= largest
    ensures 0.0 <= Ratio(count, largest) <= 1.0
    ensures Ratio(count, largest) == 0.0 <==> count == 0
    ensures Ratio(count, largest) == 1.0 <==> count == largest
  {
    var q := Ratio(count, largest);
    assert q * (largest as real) == count as real;
    if q == 1.0 {
      assert count as real == largest as real;
    }
  }

  /** Rescaling puts every active weight in [0,1], gives weight 0 exactly to
      the zero counts and weight 1 exactly to the items holding the largest
      count, and leaves the weights at or beyond n alone. */
  lemma ScaleBounds(counts: seq<nat>, weights: seq<real>, n: nat)
    requires n <= |counts| == |weights|
    requires Largest(counts, n) > 0
    ensures var r := Scale(counts, weights, n);
            && (forall i :: 0 <= i < n ==> 0.0 <= r[i] <= 1.0)
            && (forall i :: 0 <= i < n ==> (r[i] == 0.0 <==> counts[i] == 0))
            && (forall i :: 0 <= i < n ==> (r[i] == 1.0 <==> counts[i] == Largest(counts, n)))
            && (forall i :: n <= i < |r| ==> r[i] == weights[i])
  {
    forall i | 0 <= i < n
      ensures 0.0 <= Ratio(counts[i], Largest(counts, n)) <= 1.0
      ensures Ratio(counts[i], Largest(counts, n)) == 0.0 <==> counts[i] == 0
      ensures Ratio(counts[i], Largest(counts, n)) == 1.0 <==> counts[i] == Largest(counts, n)
    {
      RatioBounds(counts[i], Largest(counts, n));
    }
  }

  /** Each active weight raised to the natural exponent k. */
  function Exponentiate(weights: seq<real>, n: nat, k: nat): (r: seq<real>)
    requires n <= |weights|
    ensures |r| == |weights|
    ensures k == 0 ==> forall i :: 0 <= i < n ==> r[i] == 1.0
  {
    seq(|weights|, i requires 0 <= i < |weights| => if i < n then Pow(weights[i], k) else weights[i])
  }

  /** The reference cumulative table: entry i < n is the total weight of items 0..i. */
  function Cumulative(weights: seq<real>, cum: seq<real>, n: nat): (r: seq<real>)
    requires 1 <= n <= |weights| == |cum|
    ensures |r| == |cum|
    ensures NonNegative(weights, n) ==> NonDecreasing(r, n) && forall m :: 0 <= m < n ==> weights[m] <= r[n - 1]
  {
    var r := seq(|cum|, i requires 0 <= i < |cum| => if i < n then Total(weights[..i + 1]) else cum[i]);
    assert NonNegative(weights, n) ==> NonDecreasing(r, n) && forall m :: 0 <= m < n ==> weights[m] <= r[n - 1] by {
      if NonNegative(weights, n) {
        PrefixSumsNonDecreasing(weights, r, n);
      }
    }
    r
  }

  /** The weight and cumulative tables derived from the counts. */
  datatype Tables = Tables(weights: seq<real>, cumulative: seq<real>)

  /** Rescale, exponentiate and sum; a zero largest count is the source's division by zero. */
  function Recompute(counts: seq<nat>, weights: seq<real>, cum: seq<real>, n: nat, k: nat): (r: Result<Tables>)
    requires 1 <= n <= |counts| == |weights| == |cum|
    ensures r.Err? <==> forall i :: 0 <= i < n ==> counts[i] == 0
    ensures r.Ok? ==> |r.value.weights| == |weights| && |r.value.cumulative| == |cum|
  {
    if Largest(counts, n) == 0 then Err(DivisionByZero)
    else
      var w := Exponentiate(Scale(counts, weights, n), n, k);
      Ok(Tables(w, Cumulative(w, cum, n)))
  }

  /** The shape of a successfully recomputed table: weights in [0,1], the item
      holding the largest count at full weight, a non-decreasing cumulative
      table whose total is at least 1, and, for a positive exponent, a zero
      weight exactly where the count is zero. */
  lemma RecomputeShape(counts: seq<nat>, weights: seq<real>, cum: seq<real>, n: nat, k: nat)
    requires 1 <= n <= |counts| == |weights| == |cum|
    requires Recompute(counts, weights, cum, n, k).Ok?
    ensures var t := Recompute(counts, weights, cum, n, k).value;
            && (forall i :: 0 <= i < n ==> 0.0 <= t.weights[i] <= 1.0)
            && (forall i :: 0 <= i < n && counts[i] == Largest(counts, n) ==> t.weights[i] == 1.0)
            && (k >= 1 ==> forall i :: 0 <= i < n ==> (t.weights[i] == 0.0 <==> counts[i] == 0))
            && NonDecreasing(t.cumulative, n)
            && 1.0 <= t.cumulative[n - 1]
  {
    var s := Scale(counts, weights, n);
    ScaleBounds(counts, weights, n);
    var t := Recompute(counts, weights, cum, n, k).value;
    forall i | 0 <= i < n
      ensures 0.0 <= t.weights[i] <= 1.0
      ensures t.weights[i] == 0.0 <==> s[i] == 0.0 && k >= 1
      ensures s[i] == 1.0 ==> t.weights[i] == 1.0
    {
      PowOnUnitInterval(s[i], k);
    }
    PrefixSumsNonDecreasing(t.weights, t.cumulative, n);
    var top :| 0 <= top < n && counts[top] == Largest(counts, n);
    assert t.weights[top] == 1.0;
  }

  /** The source's first loop: the largest count, starting from 0. */
  method LargestLoop(counts: seq<nat>, n: nat) returns (largest: nat)
    requires n <= |counts|
    ensures largest == Largest(counts, n)
  {
    largest := 0;
    var i := 0;
    while i < n
      invariant 0 <= i <= n
      invariant largest == Largest(counts, i)
    {
      if counts[i] > largest {
        largest := counts[i];
      }
      i := i + 1;
    }
  }

  /** The source's rescale: find the largest count, then divide every active
      count by it; a zero largest count is a division by zero. */
  method ScaleLoop(counts: seq<nat>, weights: seq<real>, n: nat) returns (r: Result<seq<real>>)
    requires n <= |counts| == |weights|
    ensures Largest(counts, n) == 0 ==> r == Err(DivisionByZero)
    ensures Largest(counts, n) > 0 ==> r == Ok(Scale(counts, weights, n))
  {
    var largest := LargestLoop(counts, n);
    if largest == 0 {
      return Err(DivisionByZero);
    }
    var w := weights;
    var i := 0;
    while i < n
      invariant 0 <= i <= n
      invariant |w| == |weights|
      invariant forall j :: 0 <= j < i ==> w[j] == Ratio(counts[j], largest)
      invariant forall j :: i <= j < |w| ==> w[j] == weights[j]
    {
      w := w[i := Ratio(counts[i], largest)];
      i := i + 1;
    }
    assert w == Scale(counts, weights, n);
    return Ok(w);
  }

  /** The source's increment loop. */
  method IncrementLoop(counts: seq<nat>, n: nat) returns (r: seq<nat>)
    requires n <= |counts|
    ensures r == Increment(counts, n)
  {
    r := counts;
    var i := 0;
    while i < n
      invariant 0 <= i <= n
      invariant |r| == |counts|
      invariant forall j :: 0 <= j < i ==> r[j] == counts[j] + 1
      invariant forall j :: i <= j < |r| ==> r[j] == counts[j]
    {
      r := r[i := r[i] + 1];
      i := i + 1;
    }
  }

  /** The source's exponentiate loop. */
  method ExponentiateLoop(weights: seq<real>, n: nat, k: nat) returns (r: seq<real>)
    requires n <= |weights|
    ensures r == Exponentiate(weights, n, k)
  {
    r := weights;
    var i := 0;
    while i < n
      invariant 0 <= i <= n
      invariant |r| == |weights|
      invariant forall j :: 0 <= j < i ==> r[j] == Pow(weights[j], k)
      invariant forall j :: i <= j < |r| ==> r[j] == weights[j]
    {
      r := r[i := Pow(r[i], k)];
      i := i + 1;
    }
  }

  /** The source's running sum: the first entry is the first weight, and each
      later active entry adds its weight to the previous entry. It computes the
      reference table of prefix totals. */
  method SumLoop(weights: seq<real>, cum: seq<real>, n: nat) returns (r: seq<real>)
    requires 1 <= n <= |weights| == |cum|
    ensures r == Cumulative(weights, cum, n)
  {
    r := cum[0 := weights[0]];
    TotalSnoc(weights, 0);
    var i := 1;
    while i < n
      invariant 1 <= i <= n
      invariant |r| == |cum|
      invariant forall j :: 0 <= j < i ==> r[j] == Total(weights[..j + 1])
      invariant forall j :: i <= j < |r| ==> r[j] == cum[j]
    {
      TotalSnoc(weights, i);
      r := r[i := r[i - 1] + weights[i]];
      i := i + 1;
    }
  }

  /** The source's reset loop. */
  method ResetLoop(counts: seq<nat>, n: nat) returns (r: seq<nat>)
    requires n <= |counts|
    ensures r == ResetCounts(counts, n)
  {
    r := counts;
    var i := 0;
    while i < n
      invariant 0 <= i <= n
      invariant |r| == |counts|
      invariant forall j :: 0 <= j < i ==> r[j] == 1
      invariant forall j :: i <= j < |r| ==> r[j] == counts[j]
    {
      r := r[i := 1];
      i := i + 1;
    }
  }

  /** The source's ramp loop of the sequence load. */
  method RampLoop(counts: seq<nat>, n: nat) returns (r: seq<nat>)
    requires n <= |counts|
    ensures r == RampCounts(counts, n)
  {
    r := counts;
    var i := 0;
    while i < n
      invariant 0 <= i <= n
      invariant |r| == |counts|
      invariant forall j :: 0 <= j < i ==> r[j] == n - 1 - j
      invariant forall j :: i <= j < |r| ==> r[j] == counts[j]
    {
      r := r[i := n - 1 - i];
      i := i + 1;
    }
  }
}
