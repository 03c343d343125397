/**
 The inverse-CDF lookup of statfeed: a query in [0,1] is scaled by the total
 weight and located among the buckets [cum[i], cum[i+1]) of the cumulative
 table. The scan never stops early, so when several buckets hold the term the
 last one wins; when none does, the last active index is returned.
 */
module Lookup {
  import opened Numeric
  import opened Outcomes

  /** Bucket i holds the term t: cum[i] <= t < cum[i+1]. */
  predicate InBucket(cum: seq<real>, t: real, i: nat): (b: bool)
    requires i + 1 < |cum|
    ensures b ==> cum[i] < cum[i + 1]
  {
    cum[i] <= t < cum[i + 1]
  }

  /** The query scaled by the total weight of the n active items. */
  function SearchTerm(cum: seq<real>, n: nat, f: real): (t: real)
    requires 1 <= n <= |cum|
    ensures f == 0.0 ==> t == 0.0
    ensures f == 1.0 ==> t == cum[n - 1]
  {
    f * cum[n - 1]
  }

  /** The outcome of the scan over buckets 0..m-1, where a match at bucket i
      overwrites any earlier one with i + 1. */
  function LastMatch(cum: seq<real>, t: real, m: nat): (r: Option<nat>)
    requires m < |cum|
    ensures r.Some? ==> 1 <= r.value <= m && InBucket(cum, t, r.value - 1)
    ensures r.Some? ==> forall i :: r.value <= i < m ==> !InBucket(cum, t, i)
    ensures r.None? <==> forall i :: 0 <= i < m ==> !InBucket(cum, t, i)
  {
    if m == 0 then None
    else if InBucket(cum, t, m - 1) then Some(m)
    else LastMatch(cum, t, m - 1)
  }

  /** The index selected for query f among the n active items. */
  function GetIndex(cum: seq<real>, n: nat, f: real): (r: nat)
    requires 1 <= n <= |cum|
    ensures r < n
    ensures SearchTerm(cum, n, f) < cum[0] ==> r == 0
    ensures cum[0] <= SearchTerm(cum, n, f)
            && (exists i :: 0 <= i < n - 1 && InBucket(cum, SearchTerm(cum, n, f), i))
            ==> 1 <= r && InBucket(cum, SearchTerm(cum, n, f), r - 1)
                && forall i :: r <= i < n - 1 ==> !InBucket(cum, SearchTerm(cum, n, f), i)
    ensures cum[0] <= SearchTerm(cum, n, f)
            && (forall i :: 0 <= i < n - 1 ==> !InBucket(cum, SearchTerm(cum, n, f), i))
            ==> r == n - 1
  {
    var t := SearchTerm(cum, n, f);
    if t < cum[0] then 0
    else match LastMatch(cum, t, n - 1)
      case Some(j) => j
      case None => n - 1
  }

  /** The lookup as the source writes it: a found flag, a scan that keeps
      overwriting the output on every match, and a fallback to n - 1. */
  method GetIndexScan(cum: seq<real>, n: nat, f: real) returns (r: nat)
    requires 1 <= n <= |cum|
    ensures r == GetIndex(cum, n, f)
  {
    var found := false;
    var t := SearchTerm(cum, n, f);
    r := 0;
    if t < cum[0] {
      found := true;
      r := 0;
    } else {
      var i := 0;
      while i < n - 1
        invariant 0 <= i <= n - 1
        invariant found <==> LastMatch(cum, t, i).Some?
        invariant found ==> r == LastMatch(cum, t, i).value
      {
        if cum[i] <= t && t < cum[i + 1] {
          found := true;
          r := i + 1;
        }
        i := i + 1;
      }
    }
    if !found {
      r := n - 1;
    }
  }

  /** On a non-decreasing table at most one bucket holds a given term. */
  lemma UniqueBucket(cum: seq<real>, n: nat, t: real, i: nat, j: nat)
    requires n <= |cum| && NonDecreasing(cum, n)
    requires i + 1 < n && j + 1 < n
    requires InBucket(cum, t, i) && InBucket(cum, t, j)
    ensures i == j
  {
    assert cum[j] <= t < cum[i + 1];
    assert cum[i] <= t < cum[j + 1];
  }

  /** A scan that stops at the first matching bucket. On a non-decreasing
      table it selects the same index as the last-match scan. */
  method FirstMatchScan(cum: seq<real>, n: nat, f: real) returns (r: nat)
    requires 1 <= n <= |cum|
    requires NonDecreasing(cum, n)
    ensures r == GetIndex(cum, n, f)
  {
    var t := SearchTerm(cum, n, f);
    if t < cum[0] {
      return 0;
    }
    var i := 0;
    while i < n - 1
      invariant 0 <= i <= n - 1
      invariant forall j :: 0 <= j < i ==> !InBucket(cum, t, j)
    {
      if cum[i] <= t && t < cum[i + 1] {
        assert InBucket(cum, t, i);
        ghost var g := GetIndex(cum, n, f);
        UniqueBucket(cum, n, t, i, g - 1);
        return i + 1;
      }
      i := i + 1;
    }
    return n - 1;
  }

  /** A term at or above cum[0] and below cum[m] lies in one of the buckets 0..m-1. */
  lemma {:induction false} BucketExists(cum: seq<real>, t: real, m: nat)
    requires 1 <= m < |cum|
    requires cum[0] <= t < cum[m]
    ensures exists i :: 0 <= i < m && InBucket(cum, t, i)
  {
    if cum[m - 1] <= t {
      assert InBucket(cum, t, m - 1);
    } else {
      BucketExists(cum, t, m - 1);
    }
  }

  /** When the table holds the prefix sums of non-negative weights and the
      scaled query lies in [0, total), the selected item has positive weight:
      an item of weight zero is never chosen. */
  lemma ZeroWeightNeverChosen(w: seq<real>, cum: seq<real>, n: nat, f: real)
    requires 1 <= n <= |w| && n <= |cum|
    requires NonNegative(w, n)
    requires PrefixSums(w, cum, n)
    requires 0.0 <= SearchTerm(cum, n, f) < cum[n - 1]
    ensures w[GetIndex(cum, n, f)] > 0.0
  {
    var t := SearchTerm(cum, n, f);
    var r := GetIndex(cum, n, f);
    PrefixSumsRecurrence(w, cum, n);
    if cum[0] <= t {
      BucketExists(cum, t, n - 1);
      assert cum[r - 1] <= t < cum[r];
    }
  }

  /** A query in [0,1) on a table with positive total scales to a term in [0, total). */
  lemma QueryInRange(cum: seq<real>, n: nat, f: real)
    requires 1 <= n <= |cum|
    requires 0.0 <= f < 1.0 && 0.0 < cum[n - 1]
    ensures 0.0 <= SearchTerm(cum, n, f) < cum[n - 1]
  {
    var total := cum[n - 1];
    FractionBelow(f, total);
    assert SearchTerm(cum, n, f) == f * total;
  }

  /** A query of exactly 1.0 on a non-decreasing table falls through every
      bucket test and takes the fallback n - 1, whatever that item's weight. */
  lemma FullQueryTakesLast(cum: seq<real>, n: nat)
    requires 1 <= n <= |cum|
    requires NonDecreasing(cum, n)
    ensures GetIndex(cum, n, 1.0) == n - 1
  {
    var t := SearchTerm(cum, n, 1.0);
    forall i | 0 <= i < n - 1
      ensures !InBucket(cum, t, i)
    {
      assert cum[i + 1] <= cum[n - 1];
    }
  }

  /** Cumulative table [1,1,2] with query 0.5 (term 1.0): bucket 0 fails its
      strict upper test and bucket 1 matches, so index 2 is selected. */
  lemma TieBreakExample()
    ensures GetIndex([1.0, 1.0, 2.0], 3, 0.5) == 2
  {
    assert !InBucket([1.0, 1.0, 2.0], 1.0, 0);
    assert InBucket([1.0, 1.0, 2.0], 1.0, 1);
  }

  /** On a table that is not non-decreasing two buckets can match; the scan
      keeps the later one, while a first-match scan would return 1. */
  lemma LastMatchWinsExample()
    ensures InBucket([0.0, 2.0, 1.0, 3.0], 1.5, 0)
    ensures GetIndex([0.0, 2.0, 1.0, 3.0], 4, 0.5) == 3
  {
    assert InBucket([0.0, 2.0, 1.0, 3.0], 1.5, 2);
  }
}
