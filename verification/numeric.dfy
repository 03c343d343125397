/**
 Exact arithmetic standing in for the sampler's single-precision floats:
 natural powers, left-to-right sums, and the shape predicates on weight tables.
 */
module Numeric {

  /** x to the natural power k. Pow(x, 0) is 1 for every x, zero included,
      as C's pow returns for a zero exponent. */
  function Pow(x: real, k: nat): real
  {
    if k == 0 then 1.0 else x * Pow(x, k - 1)
  }

  /** The sum of w, accumulated from the left. */
  function Total(w: seq<real>): real
  {
    if |w| == 0 then 0.0 else Total(w[..|w| - 1]) + w[|w| - 1]
  }

  /** The first n entries of w are non-negative. */
  predicate NonNegative(w: seq<real>, n: nat)
    requires n <= |w|
  {
    forall i :: 0 <= i < n ==> 0.0 <= w[i]
  }

  /** The first n entries of s never decrease. */
  predicate NonDecreasing(s: seq<real>, n: nat)
    requires n <= |s|
  {
    forall i, j :: 0 <= i <= j < n ==> s[i] <= s[j]
  }

  /** cum[i] is the total weight of w[0..i], for every active index i < n. */
  predicate PrefixSums(w: seq<real>, cum: seq<real>, n: nat)
    requires n <= |w| && n <= |cum|
  {
    forall i :: 0 <= i < n ==> cum[i] == Total(w[..i + 1])
  }

  lemma {:induction false} PowNonNegative(x: real, k: nat)
    requires 0.0 <= x
    ensures 0.0 <= Pow(x, k)
  {
    if k > 0 {
      PowNonNegative(x, k - 1);
    }
  }

  /** Raising a weight in [0,1] to a natural power keeps it in [0,1];
      the result is 0 exactly for a zero base and a positive exponent,
      and a full weight stays full. */
  lemma {:induction false} PowOnUnitInterval(x: real, k: nat)
    requires 0.0 <= x <= 1.0
    ensures 0.0 <= Pow(x, k) <= 1.0
    ensures Pow(x, k) == 0.0 <==> x == 0.0 && k >= 1
    ensures x == 1.0 ==> Pow(x, k) == 1.0
  {
    if k > 0 {
      PowOnUnitInterval(x, k - 1);
      MulUnit(x, Pow(x, k - 1));
    }
  }

  /** The product of two fractions in [0,1] is no larger than either factor,
      and it is zero exactly when one factor is. */
  lemma MulUnit(x: real, p: real)
    requires 0.0 <= x <= 1.0 && 0.0 <= p <= 1.0
    ensures 0.0 <= x * p <= p
    ensures x * p == 0.0 <==> x == 0.0 || p == 0.0
  {
    if x > 0.0 && p > 0.0 {
      assert x * p > 0.0;
    }
  }

  /** A fraction in [0,1) of a positive total lies in [0, total). */
  lemma FractionBelow(f: real, total: real)
    requires 0.0 <= f < 1.0 && 0.0 < total
    ensures 0.0 <= f * total < total
  {
    var g := 1.0 - f;
    assert 0.0 < g * total;
    assert f * total + g * total == (f + g) * total;
  }

  /** For a positive exponent, Pow is strictly increasing on the non-negative reals. */
  lemma {:induction false} PowStrictlyIncreasing(x: real, y: real, k: nat)
    requires 0.0 <= x < y
    requires k >= 1
    ensures Pow(x, k) < Pow(y, k)
  {
    if k > 1 {
      PowStrictlyIncreasing(x, y, k - 1);
      PowNonNegative(x, k - 1);
      var a, b := Pow(x, k - 1), Pow(y, k - 1);
      assert x * a <= x * b;
      assert x * b < y * b;
    }
  }

  /** One more element extends a prefix total by that element. */
  lemma TotalSnoc(w: seq<real>, i: nat)
    requires i < |w|
    ensures Total(w[..i + 1]) == Total(w[..i]) + w[i]
  {
    assert w[..i + 1][..i] == w[..i];
  }

  /** Over non-negative weights, a longer prefix never has a smaller total. */
  lemma {:induction false} PrefixTotalsMonotone(w: seq<real>, i: nat, j: nat)
    requires i <= j <= |w|
    requires NonNegative(w, j)
    ensures Total(w[..i]) <= Total(w[..j])
  {
    if i < j {
      PrefixTotalsMonotone(w, i, j - 1);
      TotalSnoc(w, j - 1);
    }
  }

  /** Over non-negative weights, the total of a prefix bounds each of its elements. */
  lemma TotalBoundsMember(w: seq<real>, n: nat, m: nat)
    requires m < n <= |w|
    requires NonNegative(w, n)
    ensures w[m] <= Total(w[..n])
  {
    PrefixTotalsMonotone(w, 0, m);
    TotalSnoc(w, m);
    PrefixTotalsMonotone(w, m + 1, n);
  }

  /** A prefix made of full weights totals its length. */
  lemma {:induction false} AllOnesTotal(w: seq<real>, n: nat)
    requires n <= |w|
    requires forall i :: 0 <= i < n ==> w[i] == 1.0
    ensures Total(w[..n]) == n as real
  {
    if n > 0 {
      AllOnesTotal(w, n - 1);
      TotalSnoc(w, n - 1);
    }
  }

  /** Prefix sums satisfy the running-sum recurrence: the first entry is the
      first weight and each later entry adds its own weight to the previous one. */
  lemma PrefixSumsRecurrence(w: seq<real>, cum: seq<real>, n: nat)
    requires 1 <= n <= |w| && n <= |cum|
    requires PrefixSums(w, cum, n)
    ensures cum[0] == w[0]
    ensures forall i :: 1 <= i < n ==> cum[i] == cum[i - 1] + w[i]
  {
    TotalSnoc(w, 0);
    forall i | 1 <= i < n
      ensures cum[i] == cum[i - 1] + w[i]
    {
      TotalSnoc(w, i);
    }
  }

  /** Prefix sums of non-negative weights never decrease, and the last one
      bounds every weight. */
  lemma PrefixSumsNonDecreasing(w: seq<real>, cum: seq<real>, n: nat)
    requires n <= |w| && n <= |cum|
    requires NonNegative(w, n)
    requires PrefixSums(w, cum, n)
    ensures NonDecreasing(cum, n)
    ensures forall m :: 0 <= m < n ==> w[m] <= cum[n - 1]
  {
    forall i, j | 0 <= i <= j < n
      ensures cum[i] <= cum[j]
    {
      PrefixTotalsMonotone(w, i + 1, j + 1);
    }
    forall m | 0 <= m < n
      ensures w[m] <= cum[n - 1]
    {
      TotalBoundsMember(w, n, m);
    }
  }
}
