/**
 * Quantile lookup in a sorted sample (`_quantile`) and the Bertin & Arnouts
 * "mode" estimator 2.5 * median - 1.5 * mean (`_mode`).
 */
module Quantile {
  import opened Values
  import opened Grids

  predicate Sorted(s: seq<real>) {
    forall i, j :: 0 <= i <= j < |s| ==> s[i] <= s[j]
  }

  /**
   * The index `_quantile` reads for quantile `q` of `n` sorted values:
   * the last one for q == 1, otherwise int(q * n).
   */
  function QuantileIndex(n: nat, q: real): (k: nat)
    requires n > 0 && 0.0 <= q <= 1.0
    ensures k < n
    ensures q == 1.0 ==> k == n - 1
    ensures q < 1.0 ==> k as real <= q * n as real < k as real + 1.0
    ensures k as real <= q * n as real <= k as real + 1.0
  {
    if q == 1.0 then n - 1
    else
      assert q * n as real < n as real by { MulLess(q, n as real); }
      Trunc(q * n as real)
  }

  lemma MulLess(q: real, m: real)
    requires 0.0 <= q < 1.0 && m > 0.0
    ensures q * m < m
  {
  }

  /** The value at quantile `q` of the increasingly sorted, non-empty `sorted`. */
  function QuantileValue(sorted: seq<real>, q: real): (r: real)
    requires |sorted| > 0 && 0.0 <= q <= 1.0
    ensures r in sorted
  {
    sorted[QuantileIndex(|sorted|, q)]
  }

  /** A larger quantile never reads an earlier index. */
  lemma QuantileIndexMonotone(n: nat, q1: real, q2: real)
    requires n > 0 && 0.0 <= q1 <= q2 <= 1.0
    ensures QuantileIndex(n, q1) <= QuantileIndex(n, q2)
  {
    if q2 < 1.0 {
      MulMonotone(q1, q2, n as real);
      FloorMonotone(QuantileIndex(n, q1), QuantileIndex(n, q2), q1 * n as real, q2 * n as real);
    }
  }

  lemma FloorMonotone(k1: int, k2: int, a: real, b: real)
    requires k1 as real <= a <= b < k2 as real + 1.0
    ensures k1 <= k2
  {
  }

  /** On a sorted sample the quantile value is monotone in q. */
  lemma QuantileMonotone(sorted: seq<real>, q1: real, q2: real)
    requires Sorted(sorted) && |sorted| > 0 && 0.0 <= q1 <= q2 <= 1.0
    ensures QuantileValue(sorted, q1) <= QuantileValue(sorted, q2)
  {
    QuantileIndexMonotone(|sorted|, q1, q2);
  }

  /** Number of sample values strictly below `x`. */
  function CountLess(s: seq<real>, x: real): (c: nat)
    ensures c <= |s|
  {
    if |s| == 0 then 0 else CountLess(s[..|s| - 1], x) + (if s[|s| - 1] < x then 1 else 0)
  }

  /** Number of sample values at most `x`. */
  function CountAtMost(s: seq<real>, x: real): (c: nat)
    ensures c <= |s|
  {
    if |s| == 0 then 0 else CountAtMost(s[..|s| - 1], x) + (if s[|s| - 1] <= x then 1 else 0)
  }

  lemma {:induction false} CountAtMostAll(s: seq<real>, x: real)
    requires forall i :: 0 <= i < |s| ==> s[i] <= x
    ensures CountAtMost(s, x) == |s|
  {
    if |s| > 0 {
      CountAtMostAll(s[..|s| - 1], x);
    }
  }

  /** In a sorted sample, at most k values lie below s[k] and at least k + 1 lie at or below it. */
  lemma {:induction false} RankOfElement(s: seq<real>, k: nat)
    requires Sorted(s) && k < |s|
    ensures CountLess(s, s[k]) <= k
    ensures CountAtMost(s, s[k]) >= k + 1
  {
    var n := |s| - 1;
    if k == n {
      CountAtMostAll(s[..n], s[k]);
    } else {
      RankOfElement(s[..n], k);
      assert s[..n][k] == s[k];
    }
  }

  /**
   * The looked-up value is a q-quantile of the sample: at most a fraction q
   * of the values lie strictly below it, and at least a fraction q lie at or
   * below it.
   */
  lemma QuantileIsQuantile(sorted: seq<real>, q: real)
    requires Sorted(sorted) && |sorted| > 0 && 0.0 <= q <= 1.0
    ensures CountLess(sorted, QuantileValue(sorted, q)) as real <= q * |sorted| as real
    ensures CountAtMost(sorted, QuantileValue(sorted, q)) as real >= q * |sorted| as real
  {
    var k := QuantileIndex(|sorted|, q);
    var x := q * |sorted| as real;
    assert k as real <= x <= k as real + 1.0;
    RankOfElement(sorted, k);
    RankBounds(CountLess(sorted, sorted[k]), CountAtMost(sorted, sorted[k]), k, x);
  }

  lemma RankBounds(below: nat, atMost: nat, k: nat, x: real)
    requires below <= k && atMost >= k + 1
    requires k as real <= x <= k as real + 1.0
    ensures below as real <= x <= atMost as real
  {
  }

  /** Arithmetic mean of a non-empty sample. */
  function Mean(s: seq<real>): real
    requires |s| > 0
  {
    SumRow(s) / |s| as real
  }

  /** numpy's median of a sorted sample: the middle value, or the mean of the two middle values. */
  function Median(sorted: seq<real>): (m: real)
    requires Sorted(sorted) && |sorted| > 0
  {
    var n := |sorted|;
    if n % 2 == 1 then sorted[n / 2] else (sorted[n / 2 - 1] + sorted[n / 2]) / 2.0
  }

  /** The "mode" of Bertin & Arnouts (1996), from the median and the mean of a sorted sample. */
  function Mode(sorted: seq<real>): (r: real)
    requires Sorted(sorted) && |sorted| > 0
    ensures Median(sorted) <= Mean(sorted) ==> r <= Median(sorted)
    ensures Median(sorted) >= Mean(sorted) ==> r >= Median(sorted)
  {
    2.5 * Median(sorted) - 1.5 * Mean(sorted)
  }

  /** The median of a sorted sample lies between its smallest and largest value. */
  lemma MedianWithinRange(sorted: seq<real>)
    requires Sorted(sorted) && |sorted| > 0
    ensures sorted[0] <= Median(sorted) <= sorted[|sorted| - 1]
  {
  }

  lemma {:induction false} SumRowConstant(s: seq<real>, c: real)
    requires forall i :: 0 <= i < |s| ==> s[i] == c
    ensures SumRow(s) == |s| as real * c
  {
    if |s| > 0 {
      SumRowConstant(s[..|s| - 1], c);
    }
  }

  /** A constant sample has that constant as its mean, median and mode. */
  lemma {:induction false} ModeOfConstant(s: seq<real>, c: real)
    requires |s| > 0
    requires forall i :: 0 <= i < |s| ==> s[i] == c
    ensures Mean(s) == c && Median(s) == c && Mode(s) == c
  {
    SumRowConstant(s, c);
  }
}
