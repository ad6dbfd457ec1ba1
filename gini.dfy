/**
 * The Gini coefficient of Lotz et al. (2004) as `gini` computes it: over the
 * ascending absolute pixel values v_1 <= ... <= v_n of the Gini segmap,
 * sum((2 i - n - 1) v_i) / ((n - 1) sum(v_i)), or the invalid sentinel
 * (and the flag) for n <= 1 or a zero sum.
 */
module Gini {
  import opened Values
  import opened Grids
  import opened Quantile

  /** The absolute values of the pixels selected by the segmap, in row-major order (`np.abs(image[segmap])`). */
  function SelectedAbs(image: seq<seq<real>>, segmap: seq<seq<bool>>): (v: seq<real>)
    requires SameShape(image, segmap)
    ensures |v| == Count(segmap)
    ensures forall k :: 0 <= k < |v| ==> v[k] >= 0.0
  {
    if |image| == 0 then []
    else
      var n := |image| - 1;
      SelectedAbs(image[..n], segmap[..n]) + SelectedRowAbs(image[n], segmap[n])
  }

  function SelectedRowAbs(row: seq<real>, keep: seq<bool>): (v: seq<real>)
    requires |row| == |keep|
    ensures |v| == CountRow(keep)
    ensures forall k :: 0 <= k < |v| ==> v[k] >= 0.0
  {
    if |row| == 0 then []
    else
      var n := |row| - 1;
      SelectedRowAbs(row[..n], keep[..n]) + (if keep[n] then [Abs(row[n])] else [])
  }

  /**
   * sum over the first |v| values of (2 i - n - 1) v_i, with i counted
   * from 1 and n the full sample size.
   */
  function RankWeighted(v: seq<real>, n: int): real {
    if |v| == 0 then 0.0
    else RankWeighted(v[..|v| - 1], n) + (2 * |v| - n - 1) as real * v[|v| - 1]
  }

  /** The numerator of the Gini coefficient. */
  function GiniNumerator(v: seq<real>): real {
    RankWeighted(v, |v|)
  }

  /** A Gini coefficient and whether computing it raised the flag. */
  datatype GiniOutcome = GiniOutcome(gini: Stat, raised: bool)

  /** `gini` on the sorted absolute pixel values. */
  function GiniOf(sorted: seq<real>): (r: GiniOutcome)
    ensures r.raised <==> r.gini.Invalid?
    ensures r.gini.Invalid? <==> |sorted| <= 1 || SumRow(sorted) == 0.0
  {
    var n := |sorted|;
    if n <= 1 || SumRow(sorted) == 0.0 then GiniOutcome(Invalid, true)
    else GiniOutcome(Valid(GiniNumerator(sorted) / ((n - 1) as real * SumRow(sorted))), false)
  }

  /** Lowering every weight by one takes away one copy of the sum. */
  lemma {:induction false} RankWeightedShift(v: seq<real>, n: int)
    ensures RankWeighted(v, n + 1) == RankWeighted(v, n) - SumRow(v)
  {
    if |v| > 0 {
      RankWeightedShift(v[..|v| - 1], n);
    }
  }

  lemma {:induction false} SumRowAtMost(v: seq<real>, x: real)
    requires forall k :: 0 <= k < |v| ==> v[k] <= x
    ensures SumRow(v) <= |v| as real * x
  {
    if |v| > 0 {
      SumRowAtMost(v[..|v| - 1], x);
    }
  }

  /** Taking the largest-ranked value off adds back the sum of the others. */
  lemma GiniNumeratorLast(w: seq<real>)
    requires |w| > 0
    ensures GiniNumerator(w) == GiniNumerator(w[..|w| - 1]) - SumRow(w[..|w| - 1]) + (|w| - 1) as real * w[|w| - 1]
  {
    RankWeightedShift(w[..|w| - 1], |w| - 1);
  }

  /** For ascending non-negative values the numerator is never negative. */
  lemma {:induction false} GiniNumeratorNonNegative(v: seq<real>)
    requires Sorted(v) && forall k :: 0 <= k < |v| ==> v[k] >= 0.0
    ensures 0.0 <= GiniNumerator(v)
  {
    if |v| > 0 {
      var m := |v| - 1;
      var u, x := v[..m], v[m];
      GiniNumeratorNonNegative(u);
      GiniNumeratorLast(v);
      SumRowAtMost(u, x);
    }
  }

  /** For non-negative values the numerator is at most (n - 1) times the sum. */
  lemma {:induction false} GiniNumeratorAtMost(v: seq<real>)
    requires forall k :: 0 <= k < |v| ==> v[k] >= 0.0
    ensures GiniNumerator(v) <= (|v| - 1) as real * SumRow(v)
  {
    if |v| > 0 {
      var m := |v| - 1;
      var u, x := v[..m], v[m];
      GiniNumeratorAtMost(u);
      GiniNumeratorLast(v);
      SumRowNonNegative(u);
      AtMostStep(SumRow(u), x, m);
    }
  }

  lemma AtMostStep(s: real, x: real, m: int)
    requires s >= 0.0
    ensures (m - 1) as real * s - s + m as real * x <= m as real * (s + x)
  {
  }

  lemma DivideWithinUnit(a: real, b: real)
    requires 0.0 <= a <= b && b != 0.0
    ensures 0.0 <= a / b <= 1.0
  {
  }

  /**
   * A valid Gini coefficient of ascending non-negative values (sorted
   * absolute pixel values) lies in [0, 1].
   */
  lemma GiniInUnitInterval(sorted: seq<real>)
    requires Sorted(sorted) && forall k :: 0 <= k < |sorted| ==> sorted[k] >= 0.0
    ensures GiniOf(sorted).gini.Valid? ==> 0.0 <= GiniOf(sorted).gini.v <= 1.0
  {
    var n := |sorted|;
    if n > 1 && SumRow(sorted) != 0.0 {
      var d := (n - 1) as real * SumRow(sorted);
      assert GiniOf(sorted).gini.v == GiniNumerator(sorted) / d;
      GiniNumeratorNonNegative(sorted);
      GiniNumeratorAtMost(sorted);
      SumRowNonNegative(sorted);
      DivideWithinUnit(GiniNumerator(sorted), d);
    }
  }

  lemma {:induction false} RankWeightedConstant(v: seq<real>, c: real, n: int)
    requires forall k :: 0 <= k < |v| ==> v[k] == c
    ensures RankWeighted(v, n) == c * (|v| * (|v| - n)) as real
  {
    if |v| > 0 {
      var m := |v|;
      RankWeightedConstant(v[..m - 1], c, n);
      assert (m - 1) * (m - 1 - n) + (2 * m - n - 1) == m * (m - n);
      assert c * ((m - 1) * (m - 1 - n)) as real + (2 * m - n - 1) as real * c
          == c * ((m - 1) * (m - 1 - n) + (2 * m - n - 1)) as real;
    }
  }

  /** Perfect equality: a sample of n >= 2 equal positive values has Gini coefficient 0. */
  lemma GiniOfEqualValues(sorted: seq<real>, c: real)
    requires |sorted| >= 2 && c > 0.0
    requires forall k :: 0 <= k < |sorted| ==> sorted[k] == c
    ensures GiniOf(sorted) == GiniOutcome(Valid(0.0), false)
  {
    RankWeightedConstant(sorted, c, |sorted|);
    SumRowConstant(sorted, c);
    assert SumRow(sorted) > 0.0 by {
      assert |sorted| as real * c > 0.0;
    }
  }

  lemma SinglePeakSums(sorted: seq<real>, x: real)
    requires |sorted| >= 2
    requires forall k :: 0 <= k < |sorted| - 1 ==> sorted[k] == 0.0
    requires sorted[|sorted| - 1] == x
    ensures SumRow(sorted) == x
    ensures GiniNumerator(sorted) == (|sorted| - 1) as real * x
  {
    var u := sorted[..|sorted| - 1];
    RankWeightedConstant(u, 0.0, |u|);
    SumRowConstant(u, 0.0);
    GiniNumeratorLast(sorted);
  }

  /** Perfect inequality: all light in one pixel of n >= 2 gives Gini coefficient 1. */
  lemma GiniOfSinglePeak(sorted: seq<real>, x: real)
    requires |sorted| >= 2 && x > 0.0
    requires forall k :: 0 <= k < |sorted| - 1 ==> sorted[k] == 0.0
    requires sorted[|sorted| - 1] == x
    ensures GiniOf(sorted) == GiniOutcome(Valid(1.0), false)
  {
    SinglePeakSums(sorted, x);
    var d := (|sorted| - 1) as real * x;
    assert d > 0.0;
    assert d / d == 1.0;
  }
}
