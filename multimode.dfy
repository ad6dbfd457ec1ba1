/**
 * The multimode statistic M of Freeman et al. (2013) and Peth et al. (2016):
 * the objective `_multimode_ratio` over the clump areas found above a
 * brightness quantile, the stage-1 brute-force search over a quantile grid
 * whose step is halved until some ratio is valid, and the final A2/A1.
 * Connected-component labelling and basin-hopping are parameters.
 */
module Multimode {
  import opened Values

  /**
   * Clump areas as `_multimode_function` returns them for a quantile in
   * [0, 1]: at least one clump (the pixel at the threshold belongs to
   * one), every area positive, largest first.
   */
  predicate ClumpAreas(counts: seq<nat>) {
    |counts| >= 1
    && (forall k :: 0 <= k < |counts| ==> counts[k] > 0)
    && (forall k, l :: 0 <= k <= l < |counts| ==> counts[l] <= counts[k])
  }

  /** The labelling yields clump areas for every quantile in [0, 1]. */
  ghost predicate Labelling(clumps: real -> seq<nat>) {
    forall q :: 0.0 <= q <= 1.0 ==> ClumpAreas(clumps(q))
  }

  /**
   * `_multimode_ratio`: the "invalid" energy for a quantile outside
   * [0, 1] or a single clump, otherwise -(A2 / A1) * A2.
   */
  function MultimodeRatio(q: real, counts: seq<nat>, invalid: real): (r: real)
    requires 0.0 <= q <= 1.0 ==> ClumpAreas(counts)
    ensures (q < 0.0 || q > 1.0 || |counts| == 1) ==> r == invalid
    ensures 0.0 <= q <= 1.0 && |counts| >= 2 ==> -(counts[1] as real) <= r < 0.0
  {
    if q < 0.0 || q > 1.0 then invalid
    else if |counts| == 1 then invalid
    else
      var a1, a2 := counts[0] as real, counts[1] as real;
      RatioBounds(a1, a2);
      -1.0 * (a2 * a2) / a1
  }

  lemma RatioBounds(a1: real, a2: real)
    requires 0.0 < a2 <= a1
    ensures -a2 <= -1.0 * (a2 * a2) / a1 < 0.0
  {
    var t := a2 / a1;
    assert 0.0 < t <= 1.0;
    assert a2 * t <= a2;
    assert (a2 * a2) / a1 == a2 * t;
  }

  /**
   * Since the invalid energy (the sum of the non-negative MID cutout) is
   * never negative, a negative ratio is exactly a quantile in [0, 1] with
   * at least two clumps.
   */
  lemma RatioNegativeIffValid(q: real, counts: seq<nat>, invalid: real)
    requires 0.0 <= q <= 1.0 ==> ClumpAreas(counts)
    requires invalid >= 0.0
    ensures MultimodeRatio(q, counts, invalid) < 0.0 <==> 0.0 <= q <= 1.0 && |counts| >= 2
  {
  }

  /** M = A2 / A1, the size-independent area ratio of the two largest clumps. */
  function MultimodeStatistic(counts: seq<nat>): (m: real)
    requires ClumpAreas(counts) && |counts| >= 2
    ensures 0.0 < m <= 1.0
  {
    var a1, a2 := counts[0] as real, counts[1] as real;
    assert 0.0 < a2 <= a1;
    a2 / a1
  }

  /** The minimised objective is -M * A2: (A2 / A1) * A2 with its sign flipped. */
  lemma RatioIsStatisticTimesA2(q: real, counts: seq<nat>, invalid: real)
    requires 0.0 <= q <= 1.0 && ClumpAreas(counts) && |counts| >= 2
    ensures MultimodeRatio(q, counts, invalid) == -(MultimodeStatistic(counts) * counts[1] as real)
  {
    var a1, a2 := counts[0] as real, counts[1] as real;
    assert -1.0 * (a2 * a2) / a1 == -((a2 / a1) * a2);
  }

  /** The objective at quantile q with the clumps the labelling finds there. */
  function RatioAt(clumps: real -> seq<nat>, invalid: real, q: real): real
    requires Labelling(clumps)
  {
    MultimodeRatio(q, clumps(q), invalid)
  }

  /** The last stage-1 attempt: after five halvings the step 0.000625 is below 1e-3. */
  const LastAttempt: nat := 5

  /** The quantile step of the stage-1 attempt after `h` halvings: 0.02 / 2^h. */
  function StepSize(h: nat): (s: real)
    ensures s > 0.0
  {
    if h == 0 then 0.02 else StepSize(h - 1) / 2.0
  }

  /** The length of np.arange(0, 1, StepSize(h)): 50 * 2^h quantiles. */
  function GridSize(h: nat): (n: nat)
    ensures n >= 50
  {
    if h == 0 then 50 else 2 * GridSize(h - 1)
  }

  /** GridSize(h) steps of StepSize(h) span exactly [0, 1], so np.arange stops just short of 1. */
  lemma {:induction false} GridSpansUnit(h: nat)
    ensures GridSize(h) as real * StepSize(h) == 1.0
  {
    if h > 0 {
      GridSpansUnit(h - 1);
      var n, s := GridSize(h - 1) as real, StepSize(h - 1);
      assert (2.0 * n) * (s / 2.0) == n * s;
    }
  }

  /** The give-up test `mid_stepsize < 1e-3` first holds on the last attempt. */
  lemma StepBelowThreshold(h: nat)
    requires h <= LastAttempt
    ensures StepSize(h) < 0.001 <==> h == LastAttempt
  {
    assert StepSize(1) == 0.01;
    assert StepSize(2) == 0.005;
    assert StepSize(3) == 0.0025;
    assert StepSize(4) == 0.00125;
    assert StepSize(5) == 0.000625;
  }

  /** np.arange(0, 1, StepSize(h)): the multiples of the step below 1. */
  function QuantileGrid(h: nat): (g: seq<real>)
    ensures |g| == GridSize(h)
    ensures forall k :: 0 <= k < |g| ==> 0.0 <= g[k] < 1.0
  {
    seq(GridSize(h), k requires 0 <= k < GridSize(h) => GridPoint(h, k))
  }

  function GridPoint(h: nat, k: nat): (q: real)
    requires k < GridSize(h)
    ensures 0.0 <= q < 1.0
  {
    GridSpansUnit(h);
    var s := StepSize(h);
    assert k as real * s < GridSize(h) as real * s by {
      MulMonotone(0.0, k as real, s);
      MulStrict(k as real, GridSize(h) as real, s);
    }
    k as real * s
  }

  /** The ratios stage 1 computes on the grid of attempt `h`. */
  function Ratios(clumps: real -> seq<nat>, invalid: real, h: nat): (rs: seq<real>)
    requires Labelling(clumps)
    ensures |rs| == GridSize(h)
  {
    var g := QuantileGrid(h);
    seq(|g|, k requires 0 <= k < |g| => RatioAt(clumps, invalid, g[k]))
  }

  /** np.argmin: the first index holding the smallest value. */
  function ArgMin(vals: seq<real>): (k: nat)
    requires |vals| > 0
    ensures k < |vals|
    ensures forall l :: 0 <= l < |vals| ==> vals[k] <= vals[l]
    ensures forall l :: 0 <= l < k ==> vals[k] < vals[l]
  {
    if |vals| == 1 then 0
    else
      var k := ArgMin(vals[..|vals| - 1]);
      if vals[|vals| - 1] < vals[k] then |vals| - 1 else k
  }

  /** No quantile of attempt `h` gave a valid (negative) ratio. */
  predicate NoValidRatio(clumps: real -> seq<nat>, invalid: real, h: nat)
    requires Labelling(clumps)
  {
    forall k :: 0 <= k < GridSize(h) ==> Ratios(clumps, invalid, h)[k] >= 0.0
  }

  /** What stage 1 hands on: the start point for basin-hopping, or "single clump". */
  datatype Stage1Outcome =
    | Bracketed(q0: real, ratioMin: real, step: real)
    | SingleClump

  /**
   * The outcome of stage 1 when it stops after `h` halvings: the first grid
   * quantile with the smallest ratio, that ratio being negative; or, on the
   * last attempt with no negative ratio, "single clump".
   */
  ghost predicate Stage1Result(clumps: real -> seq<nat>, invalid: real, h: nat, o: Stage1Outcome)
    requires Labelling(clumps)
  {
    match o
    case SingleClump => h == LastAttempt && NoValidRatio(clumps, invalid, h)
    case Bracketed(q0, ratioMin, step) =>
      var rs := Ratios(clumps, invalid, h);
      var k := ArgMin(rs);
      step == StepSize(h) && q0 == QuantileGrid(h)[k] && ratioMin == rs[k] && ratioMin < 0.0
  }

  /** The smallest ratio of an attempt is negative exactly when some ratio is. */
  lemma MinimumDecides(clumps: real -> seq<nat>, invalid: real, h: nat)
    requires Labelling(clumps)
    ensures NoValidRatio(clumps, invalid, h) <==> Ratios(clumps, invalid, h)[ArgMin(Ratios(clumps, invalid, h))] >= 0.0
  {
  }

  /** Fills `ratio_array` for the quantile grid of attempt `h`. */
  method EvaluateRatios(clumps: real -> seq<nat>, invalid: real, h: nat) returns (ratios: array<real>)
    requires Labelling(clumps)
    ensures ratios[..] == Ratios(clumps, invalid, h)
  {
    var grid := QuantileGrid(h);
    ratios := new real[|grid|];
    for k := 0 to |grid|
      invariant forall l :: 0 <= l < k ==> ratios[l] == Ratios(clumps, invalid, h)[l]
    {
      ratios[k] := MultimodeRatio(grid[k], clumps(grid[k]), invalid);
    }
  }

  /** One stage-1 attempt: the ratios on the grid, and the first quantile holding the smallest. */
  method GridMinimum(clumps: real -> seq<nat>, invalid: real, h: nat) returns (q0: real, ratioMin: real)
    requires Labelling(clumps)
    ensures var rs := Ratios(clumps, invalid, h);
      q0 == QuantileGrid(h)[ArgMin(rs)] && ratioMin == rs[ArgMin(rs)]
    ensures NoValidRatio(clumps, invalid, h) <==> ratioMin >= 0.0
  {
    var quantiles := QuantileGrid(h);
    var ratios := EvaluateRatios(clumps, invalid, h);
    var kMin := ArgMin(ratios[..]);
    q0, ratioMin := quantiles[kMin], ratios[kMin];
    MinimumDecides(clumps, invalid, h);
  }

  lemma NoValidRatioUpTo(clumps: real -> seq<nat>, invalid: real, n: nat)
    requires Labelling(clumps)
    requires forall h :: 0 <= h < n ==> NoValidRatio(clumps, invalid, h)
    requires NoValidRatio(clumps, invalid, n)
    ensures forall h :: 0 <= h < n + 1 ==> NoValidRatio(clumps, invalid, h)
  {
  }

  /**
   * Stage 1 of `multimode`: evaluate the ratio on the grid with step 0.02,
   * halving the step until the smallest ratio is negative; give up once
   * the step has dropped below 1e-3. Every coarser attempt had no valid
   * ratio.
   */
  method MultimodeStage1(clumps: real -> seq<nat>, invalid: real) returns (o: Stage1Outcome, halvings: nat)
    requires Labelling(clumps)
    ensures halvings <= LastAttempt
    ensures forall h :: 0 <= h < halvings ==> NoValidRatio(clumps, invalid, h)
    ensures Stage1Result(clumps, invalid, halvings, o)
  {
    var step := 0.02;
    halvings := 0;
    var done := false;
    o := SingleClump;
    while !done
      invariant halvings <= LastAttempt
      invariant step == StepSize(halvings)
      invariant forall h :: 0 <= h < halvings ==> NoValidRatio(clumps, invalid, h)
      invariant done ==> Stage1Result(clumps, invalid, halvings, o)
      decreases (if done then 0 else 1) + LastAttempt - halvings
    {
      var q0, ratioMin := GridMinimum(clumps, invalid, halvings);
      StepBelowThreshold(halvings);
      if ratioMin < 0.0 {
        o := Bracketed(q0, ratioMin, step);
        done := true;
      } else if step < 0.001 {
        o := SingleClump;
        done := true;
      } else {
        NoValidRatioUpTo(clumps, invalid, halvings);
        step := step / 2.0;
        halvings := halvings + 1;
      }
    }
  }

  /**
   * What `multimode` returns after stage 1 stopped at attempt `h` with
   * start point q0 and smallest ratio ratioMin: basin-hopping from q0 at
   * temperature -0.5 * ratioMin with that attempt's step ends at a quantile
   * in [0, 1] with at least two clumps, and M is A2 / A1 there.
   */
  ghost predicate Stage2Result(clumps: real -> seq<nat>, invalid: real, basinHop: (real, real, real) -> real,
                               h: nat, q0: real, ratioMin: real, m: real)
    requires Labelling(clumps)
  {
    && h <= LastAttempt
    && (forall h' :: 0 <= h' < h ==> NoValidRatio(clumps, invalid, h'))
    && Stage1Result(clumps, invalid, h, Bracketed(q0, ratioMin, StepSize(h)))
    && var qFinal := basinHop(q0, -1.0 * 0.5 * ratioMin, StepSize(h));
       && 0.0 <= qFinal <= 1.0 && |clumps(qFinal)| >= 2
       && m == MultimodeStatistic(clumps(qFinal))
  }

  /** Stage 1 stops at one attempt only, so the statistic `multimode` returns is determined. */
  lemma Stage2ResultUnique(clumps: real -> seq<nat>, invalid: real, basinHop: (real, real, real) -> real,
                           h1: nat, q1: real, r1: real, m1: real, h2: nat, q2: real, r2: real, m2: real)
    requires Labelling(clumps)
    requires Stage2Result(clumps, invalid, basinHop, h1, q1, r1, m1)
    requires Stage2Result(clumps, invalid, basinHop, h2, q2, r2, m2)
    ensures h1 == h2 && q1 == q2 && r1 == r2 && m1 == m2
  {
    MinimumDecides(clumps, invalid, h1);
    MinimumDecides(clumps, invalid, h2);
    assert !NoValidRatio(clumps, invalid, h1) && !NoValidRatio(clumps, invalid, h2);
    assert h1 == h2 by {
      if h1 < h2 {
        assert false;
      } else if h2 < h1 {
        assert false;
      }
    }
  }

  /** Stage 1 gives up exactly when no attempt, down to the finest step, found a valid ratio. */
  lemma Stage1GivesUpIffNoValidRatio(clumps: real -> seq<nat>, invalid: real, h: nat, o: Stage1Outcome)
    requires Labelling(clumps)
    requires h <= LastAttempt && forall h' :: 0 <= h' < h ==> NoValidRatio(clumps, invalid, h')
    requires Stage1Result(clumps, invalid, h, o)
    ensures o.SingleClump? <==> forall h' :: 0 <= h' <= LastAttempt ==> NoValidRatio(clumps, invalid, h')
  {
    if o.Bracketed? {
      MinimumDecides(clumps, invalid, h);
    }
  }
}
