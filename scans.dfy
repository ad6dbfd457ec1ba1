/**
 * The coarse bracketing scans that run before the root finder:
 * `_radius_at_fraction_of_total` (samples that go from negative to
 * positive, at most 100 of them) and the Petrosian scans of
 * `_rpetro_circ_generic` / `_rpetro_ellip_generic` (samples that go from
 * positive to negative, with no upper bound on the number of steps).
 *
 * Both scans stop at the first sample that is exactly zero, or at the
 * first sample of the "far" sign that directly follows a sample of the
 * "near" sign; the two samples then bracket a root. The Petrosian scan is
 * the same scan applied to the negated samples.
 */
module Scans {
  import opened Values

  /** Number of grid points in each scan. */
  const NPoints: nat := 100

  /** Sample i stops the scan: an exact root, or a near-side sample directly followed by a far-side one. */
  predicate StopsAt(vals: seq<real>, i: nat)
    requires i < |vals|
  {
    vals[i] == 0.0 || (i > 0 && vals[i - 1] < 0.0 && vals[i] > 0.0)
  }

  predicate NoStopIn(vals: seq<real>, k: nat, m: nat)
    requires k <= m <= |vals|
  {
    forall i :: k <= i < m ==> !StopsAt(vals, i)
  }

  /** Where a scan over sample indices ends. */
  datatype ScanStop = RootAt(k: nat) | BracketAt(lo: nat, hi: nat) | NoStop

  /**
   * The scan from sample k on: the first sample that stops it, with the
   * samples before it all passed over.
   */
  function ScanFrom(vals: seq<real>, k: nat): (s: ScanStop)
    requires k <= |vals|
    ensures s.RootAt? ==> k <= s.k < |vals| && vals[s.k] == 0.0 && NoStopIn(vals, k, s.k)
    ensures s.BracketAt? ==>
      && k <= s.hi < |vals| && s.hi == s.lo + 1
      && vals[s.lo] < 0.0 < vals[s.hi]
      && NoStopIn(vals, k, s.hi)
    ensures s.NoStop? ==> NoStopIn(vals, k, |vals|)
    decreases |vals| - k
  {
    if k == |vals| then NoStop
    else if vals[k] == 0.0 then RootAt(k)
    else if k > 0 && vals[k - 1] < 0.0 && vals[k] > 0.0 then BracketAt(k - 1, k)
    else ScanFrom(vals, k + 1)
  }

  /** Number of samples the scan evaluates. */
  function Visited(s: ScanStop, n: nat): nat {
    match s
    case RootAt(k) => k + 1
    case BracketAt(_, hi) => hi + 1
    case NoStop => n
  }

  /**
   * Being stopped by a bracket, a zero sample or running out are the only
   * possibilities, and they are exclusive: a scan that ends in a bracket
   * met no zero sample and no earlier bracket.
   */
  lemma {:induction false} ScanIsFirstStop(vals: seq<real>, m: nat)
    requires m < |vals| && StopsAt(vals, m) && NoStopIn(vals, 0, m)
    ensures Visited(ScanFrom(vals, 0), |vals|) == m + 1
    ensures vals[m] == 0.0 ==> ScanFrom(vals, 0) == RootAt(m)
    ensures vals[m] != 0.0 ==> ScanFrom(vals, 0) == BracketAt(m - 1, m)
  {
    ScanFromReaches(vals, 0, m);
  }

  lemma {:induction false} ScanFromReaches(vals: seq<real>, k: nat, m: nat)
    requires k <= m < |vals| && StopsAt(vals, m) && NoStopIn(vals, k, m)
    ensures vals[m] == 0.0 ==> ScanFrom(vals, k) == RootAt(m)
    ensures vals[m] != 0.0 ==> ScanFrom(vals, k) == BracketAt(m - 1, m)
    decreases m - k
  {
    if k < m {
      assert !StopsAt(vals, k);
      ScanFromReaches(vals, k + 1, m);
    }
  }

  /** A scan that passes over every sample runs out. */
  lemma {:induction false} ScanFromRunsOut(vals: seq<real>, k: nat)
    requires k <= |vals| && NoStopIn(vals, k, |vals|)
    ensures ScanFrom(vals, k) == NoStop
    decreases |vals| - k
  {
    if k < |vals| {
      assert !StopsAt(vals, k);
      ScanFromRunsOut(vals, k + 1);
    }
  }

  /**
   * "A far-side sample was seen while no near-side sample had been": this
   * happens exactly when the very first sample is on the far side. Zero
   * samples end the scan, so every sample before such a far-side one is
   * itself on the far side.
   */
  lemma FarBeforeNearIffFirstFar(vals: seq<real>)
    requires |vals| > 0
    ensures vals[0] > 0.0 <==>
      exists m :: 0 <= m < Visited(ScanFrom(vals, 0), |vals|) && vals[m] > 0.0 &&
        forall i :: 0 <= i < m ==> vals[i] >= 0.0
  {
    var n := Visited(ScanFrom(vals, 0), |vals|);
    if vals[0] > 0.0 {
      assert 0 < n;
    } else {
      forall m | 0 <= m < n && vals[m] > 0.0
        ensures exists i :: 0 <= i < m && vals[i] < 0.0
      {
        FirstFarNeedsNear(vals, m);
      }
    }
  }

  /** A far-side sample the scan passes over, after a non-far first sample, has a near-side sample before it. */
  lemma {:induction false} FirstFarNeedsNear(vals: seq<real>, m: nat)
    requires m < |vals| && vals[m] > 0.0 && vals[0] <= 0.0
    requires m < Visited(ScanFrom(vals, 0), |vals|)
    ensures exists i :: 0 <= i < m && vals[i] < 0.0
  {
    var s := ScanFrom(vals, 0);
    assert NoStopIn(vals, 0, m) by {
      match s
      case RootAt(k) =>
      case BracketAt(lo, hi) =>
      case NoStop =>
    }
    var j := FirstPositive(vals, m);
    assert j > 0;
    assert !StopsAt(vals, j - 1);
    assert vals[j - 1] < 0.0;
  }

  /** The first index up to m whose sample is on the far side. */
  function FirstPositive(vals: seq<real>, m: nat): (j: nat)
    requires m < |vals| && vals[m] > 0.0
    ensures j <= m && vals[j] > 0.0
    ensures forall i :: 0 <= i < j ==> vals[i] <= 0.0
  {
    if vals[0] > 0.0 then 0
    else 1 + FirstPositive(vals[1..], m - 1)
  }

  /** A scan outcome in terms of radii. */
  datatype ScanOutcome = ExactRoot(r: real) | Bracket(rMin: real, rMax: real) | Exhausted

  /** The indices named by the stop lie among the first n samples. */
  predicate StopWithin(s: ScanStop, n: nat) {
    match s
    case RootAt(k) => k < n
    case BracketAt(lo, hi) => lo < hi < n
    case NoStop => true
  }

  /** The stop read on the radius grid. */
  function AtRadii(s: ScanStop, radii: seq<real>): ScanOutcome
    requires StopWithin(s, |radii|)
  {
    match s
    case RootAt(k) => ExactRoot(radii[k])
    case BracketAt(a, b) => Bracket(radii[a], radii[b])
    case NoStop => Exhausted
  }

  // ------------------------------------------------------------------
  // Fraction of the total flux

  /** `min(0.5, 0.2 * r_total)`: just the central pixel. */
  function RInner(rTotal: real): real {
    if 0.5 < 0.2 * rTotal then 0.5 else 0.2 * rTotal
  }

  /** The source's `assert(r_total > r_inner)` holds exactly for a positive r_total. */
  lemma RInnerBelowTotalIff(rTotal: real)
    ensures rTotal > RInner(rTotal) <==> rTotal > 0.0
  {
  }

  /** np.linspace(lo, hi, num=100): evenly spaced from lo to hi, both included. */
  function Linspace(lo: real, hi: real): (g: seq<real>)
    ensures |g| == NPoints && g[0] == lo && g[NPoints - 1] == hi
  {
    EvenGrid(lo, (hi - lo) / 99.0)
  }

  /** NPoints points from lo, d apart. */
  function EvenGrid(lo: real, d: real): (g: seq<real>)
    ensures |g| == NPoints && g[0] == lo && g[NPoints - 1] == lo + 99.0 * d
  {
    seq(NPoints, k requires 0 <= k < NPoints => lo + k as real * d)
  }

  /** `_fraction_of_total_function`, given the aperture sum at r. */
  function FractionOfTotal(apSum: real, totalSum: real, fraction: real): (v: real)
    requires totalSum > 0.0
    ensures v >= -fraction
  {
    Abs(apSum) / totalSum - fraction
  }

  /** The fraction-of-total function on each point of the grid. */
  function FractionSamples(apSum: real -> real, totalSum: real, fraction: real, grid: seq<real>): (vals: seq<real>)
    requires totalSum > 0.0
    ensures |vals| == |grid|
  {
    seq(|grid|, k requires 0 <= k < |grid| => FractionOfTotal(apSum(grid[k]), totalSum, fraction))
  }

  /** How `_radius_at_fraction_of_total` leaves its bracketing stage. */
  datatype FractionOutcome =
    | NonPositiveTotal         // returns NaN, flag = 1
    | InnerNotBelowTotal       // the source's assertion fails
    | Scanned(scan: ScanOutcome)

  /**
   * The bracketing stage of `_radius_at_fraction_of_total`. `apSum(r)` is
   * the flux in the circular aperture of radius r (photometry is not part
   * of this model) and `totalSum` the flux within r_total. `Exhausted`
   * stands for the source's "Root not found within range" exception.
   */
  method RadiusAtFractionScan(apSum: real -> real, totalSum: real, rTotal: real, fraction: real)
    returns (o: FractionOutcome, flag: bool)
    ensures totalSum <= 0.0 ==> o == NonPositiveTotal && flag
    ensures totalSum > 0.0 && rTotal <= 0.0 ==> o == InnerNotBelowTotal && !flag
    ensures totalSum > 0.0 && rTotal > 0.0 ==>
      var grid := Linspace(RInner(rTotal), rTotal);
      var vals := FractionSamples(apSum, totalSum, fraction, grid);
      && o == Scanned(AtRadii(ScanFrom(vals, 0), grid))
      && flag == (vals[0] > 0.0)
  {
    flag := false;
    if totalSum <= 0.0 {
      return NonPositiveTotal, true;
    }
    var rInner := RInner(rTotal);
    if !(rTotal > rInner) {
      return InnerNotBelowTotal, false;
    }
    var grid := Linspace(rInner, rTotal);
    var scan;
    scan, flag := ScanFractions(apSum, totalSum, fraction, grid);
    return Scanned(scan), flag;
  }

  /**
   * The loop of `_radius_at_fraction_of_total` over the radius grid: stops
   * at the first radius where the fraction function is zero, or at the
   * first sign change from negative to positive; a positive value before
   * any negative one raises the flag.
   */
  method ScanFractions(apSum: real -> real, totalSum: real, fraction: real, grid: seq<real>)
    returns (o: ScanOutcome, flag: bool)
    requires totalSum > 0.0
    ensures var vals := FractionSamples(apSum, totalSum, fraction, grid);
      && o == AtRadii(ScanFrom(vals, 0), grid)
      && flag == (|grid| > 0 && vals[0] > 0.0)
  {
    ghost var vals := FractionSamples(apSum, totalSum, fraction, grid);
    var rMin: Option<real> := None;
    flag := false;
    var i: nat := 0;
    while i < |grid|
      invariant i <= |grid|
      invariant NoStopIn(vals, 0, i)
      invariant rMin.Some? <==> (i > 0 && vals[i - 1] < 0.0)
      invariant rMin.Some? ==> rMin.value == grid[i - 1]
      invariant rMin.None? ==> forall k :: 0 <= k < i ==> vals[k] > 0.0
      invariant flag == (i > 0 && vals[0] > 0.0)
    {
      var r := grid[i];
      var curval := FractionOfTotal(apSum(r), totalSum, fraction);
      assert curval == vals[i];
      if curval == 0.0 {
        ScanIsFirstStop(vals, i);
        return ExactRoot(r), flag;
      } else if curval < 0.0 {
        rMin := Some(r);
      } else if curval > 0.0 {
        if rMin.None? {
          flag := true;
        } else {
          ScanIsFirstStop(vals, i);
          return Bracket(rMin.value, r), flag;
        }
      }
      i := i + 1;
    }
    ScanFromRunsOut(vals, 0);
    return Exhausted, flag;
  }

  lemma ScaleBound(k: real, d: real)
    requires 0.0 <= k <= 99.0 && d >= 0.0
    ensures 0.0 <= k * d <= 99.0 * d
  {
    MulMonotone(0.0, k, d);
    MulMonotone(k, 99.0, d);
  }

  /** Points of EvenGrid(lo, d) with d >= 0 stay within [lo, lo + 99d]. */
  lemma EvenGridWithin(lo: real, d: real, k: nat)
    requires d >= 0.0 && k < NPoints
    ensures lo <= EvenGrid(lo, d)[k] <= lo + 99.0 * d
  {
    assert EvenGrid(lo, d)[k] == lo + k as real * d;
    ScaleBound(k as real, d);
    assert k as real * d <= 99.0 * d;
    assert lo + k as real * d <= lo + 99.0 * d;
  }

  /** Points of EvenGrid(lo, d) with d > 0 increase strictly. */
  lemma EvenGridIncreasing(lo: real, d: real, a: nat, b: nat)
    requires d > 0.0 && a < b < NPoints
    ensures EvenGrid(lo, d)[a] < EvenGrid(lo, d)[b]
  {
    assert EvenGrid(lo, d)[a] == lo + a as real * d;
    assert EvenGrid(lo, d)[b] == lo + b as real * d;
    MulStrict(a as real, b as real, d);
  }

  /** Points of Linspace(lo, hi) stay within [lo, hi]. */
  lemma LinspaceWithin(lo: real, hi: real, k: nat)
    requires lo < hi && k < NPoints
    ensures lo <= Linspace(lo, hi)[k] <= hi
  {
    EvenGridWithin(lo, (hi - lo) / 99.0, k);
  }

  /** Points of Linspace(lo, hi) increase strictly. */
  lemma LinspaceIncreasing(lo: real, hi: real, a: nat, b: nat)
    requires lo < hi && a < b < NPoints
    ensures Linspace(lo, hi)[a] < Linspace(lo, hi)[b]
  {
    EvenGridIncreasing(lo, (hi - lo) / 99.0, a, b);
  }

  /** What `_radius_at_fraction_of_total` returns, or that it raises instead. */
  datatype RadiusOutcome = Radius(r: Num) | Raises

  /**
   * The flag `_radius_at_fraction_of_total` returns: the total flux is not
   * positive, or the first sample already lies above the fraction.
   */
  predicate FractionFlag(apSum: real -> real, rTotal: real, fraction: real) {
    var total := apSum(rTotal);
    total <= 0.0 ||
    (rTotal > 0.0 && FractionSamples(apSum, total, fraction, Linspace(RInner(rTotal), rTotal))[0] > 0.0)
  }

  /**
   * `_radius_at_fraction_of_total`: the radius within which the fraction
   * `fraction` of the flux within `rTotal` lies. `apSum(r)` is the flux in
   * the circle of radius r around the snapped centre; `brentq(a, b)` is
   * the root finder's answer on the bracket [a, b], which it never leaves.
   * The total flux is `apSum(rTotal)`; a non-positive total gives NaN, a
   * non-positive `rTotal` fails the source's assertion, and a scan without
   * a stop raises "Root not found within range".
   */
  method RadiusAtFraction(apSum: real -> real, rTotal: real, fraction: real, brentq: (real, real) -> real)
    returns (r: RadiusOutcome, flag: bool)
    requires forall a, b :: a < b ==> a <= brentq(a, b) <= b
    ensures flag == FractionFlag(apSum, rTotal, fraction)
    ensures apSum(rTotal) <= 0.0 ==> r == Radius(NaN)
    ensures apSum(rTotal) > 0.0 && rTotal <= 0.0 ==> r == Raises
    ensures apSum(rTotal) > 0.0 && rTotal > 0.0 ==>
      var grid := Linspace(RInner(rTotal), rTotal);
      var s := ScanFrom(FractionSamples(apSum, apSum(rTotal), fraction, grid), 0);
      && (r.Raises? <==> s.NoStop?)
      && (s.RootAt? ==> r == Radius(Real(grid[s.k])))
      && (s.BracketAt? ==> r == Radius(Real(brentq(grid[s.lo], grid[s.hi]))))
    ensures r.Radius? && r.r.Real? ==> 0.0 < RInner(rTotal) <= r.r.v <= rTotal
  {
    var total := apSum(rTotal);
    var o;
    o, flag := RadiusAtFractionScan(apSum, total, rTotal, fraction);
    if o.NonPositiveTotal? {
      r := Radius(NaN);
    } else if o.InnerNotBelowTotal? {
      r := Raises;
    } else {
      ghost var grid := Linspace(RInner(rTotal), rTotal);
      ghost var s := ScanFrom(FractionSamples(apSum, total, fraction, grid), 0);
      match o.scan
      case ExactRoot(x) =>
        LinspaceWithin(RInner(rTotal), rTotal, s.k);
        r := Radius(Real(x));
      case Bracket(a, b) =>
        LinspaceIncreasing(RInner(rTotal), rTotal, s.lo, s.hi);
        LinspaceWithin(RInner(rTotal), rTotal, s.lo);
        LinspaceWithin(RInner(rTotal), rTotal, s.hi);
        r := Radius(Real(brentq(a, b)));
      case Exhausted =>
        r := Raises;
    }
  }

  // ------------------------------------------------------------------
  // Petrosian radius

  /** One evaluation of the Petrosian function and whether it raised the flag. */
  datatype Sample = Sample(value: real, raised: bool)

  /**
   * `_petrosian_function_circ` / `_ellip`, given the mean fluxes of the
   * annulus and of the aperture at the current radius: annulus over
   * aperture mean minus eta, or 1 - eta (and the flag) for a zero aperture mean.
   */
  function PetrosianFunction(annulusMean: real, apertureMean: real, eta: real): (p: Sample)
    ensures p.raised <==> apertureMean == 0.0
    ensures p.value >= -eta
    ensures p.raised ==> p.value == 1.0 - eta
  {
    if Abs(apertureMean) == 0.0 then Sample(1.0 - eta, true)
    else Sample(Abs(annulusMean) / Abs(apertureMean) - eta, false)
  }

  /** The Petrosian scan's step dr = (r_outer - r_inner) / 99, with r_inner the annulus width. */
  function PetroStep(annulusWidth: real, rOuter: real): real {
    (rOuter - annulusWidth) / (NPoints - 1) as real
  }

  /** The radius after k steps of `r += dr` from r_inner. */
  function PetroRadius(rInner: real, dr: real, k: nat): real {
    if k == 0 then rInner else PetroRadius(rInner, dr, k - 1) + dr
  }

  lemma {:induction false} PetroRadiusClosedForm(rInner: real, dr: real, k: nat)
    ensures PetroRadius(rInner, dr, k) == rInner + k as real * dr
  {
    if k > 0 {
      PetroRadiusClosedForm(rInner, dr, k - 1);
      assert (k - 1) as real * dr + dr == k as real * dr;
    }
  }

  /** The first `steps` radii of the Petrosian scan. */
  function PetroGrid(annulusWidth: real, rOuter: real, steps: nat): (g: seq<real>)
    ensures |g| == steps
  {
    seq(steps, k requires 0 <= k < steps => PetroRadius(annulusWidth, PetroStep(annulusWidth, rOuter), k))
  }

  /**
   * The Petrosian function on each radius of the grid, negated so that the
   * scan runs from negative to positive like the fraction-of-total one.
   */
  function PetrosianSamples(petro: real -> Sample, grid: seq<real>): (vals: seq<real>)
    ensures |vals| == |grid|
  {
    seq(|grid|, k requires 0 <= k < |grid| => -petro(grid[k]).value)
  }

  /** Some radius among the first n lies at or beyond r_outer, or its evaluation raised the flag. */
  predicate PetroWarning(petro: real -> Sample, rOuter: real, grid: seq<real>, n: nat)
    requires n <= |grid|
  {
    exists k :: 0 <= k < n && (grid[k] >= rOuter || petro(grid[k]).raised)
  }

  /**
   * What the root finder did on the Petrosian function: the radius it
   * settled on, and the radii at which it evaluated the function.
   */
  datatype RootSearch = RootSearch(root: real, evaluated: seq<real>)

  /** Some evaluation of the Petrosian function at one of `radii` raised the flag. */
  predicate RaisedAtAny(petro: real -> Sample, radii: seq<real>) {
    exists k :: 0 <= k < |radii| && petro(radii[k]).raised
  }

  /**
   * The bracketing stage of `_rpetro_circ_generic` and
   * `_rpetro_ellip_generic`, which differ only in the Petrosian function
   * `petro` they scan (circular or elliptical apertures; for the intended
   * use see `PetrosianFunction`); `rOuter` is the diagonal of the stamp.
   * The source loop has no upper bound; the scan is modelled over its
   * first `steps` samples, and `Exhausted` means the loop is still running
   * after them. `raised` says whether the scan set the flag: a sample at
   * or past r_outer, an evaluation that raised it, or a first sample below eta.
   */
  method PetrosianScan(petro: real -> Sample, annulusWidth: real, rOuter: real, steps: nat)
    returns (o: ScanOutcome, raised: bool)
    requires 0.0 <= annulusWidth < rOuter
    ensures var grid := PetroGrid(annulusWidth, rOuter, steps);
      var vals := PetrosianSamples(petro, grid);
      var s := ScanFrom(vals, 0);
      && o == AtRadii(s, grid)
      && raised == ((steps > 0 && vals[0] > 0.0) || PetroWarning(petro, rOuter, grid, Visited(s, steps)))
  {
    var grid := PetroGrid(annulusWidth, rOuter, steps);
    o, raised := ScanPetrosian(petro, rOuter, grid);
  }

  /**
   * The loop of the Petrosian scan over a grid of radii: stops at the first
   * radius where the Petrosian function is zero, or at the first sign
   * change from positive to negative; a first sample below eta, a radius
   * at or past r_outer, or an evaluation that raised the flag raises it.
   */
  method ScanPetrosian(petro: real -> Sample, rOuter: real, grid: seq<real>)
    returns (o: ScanOutcome, raised: bool)
    ensures var vals := PetrosianSamples(petro, grid);
      var s := ScanFrom(vals, 0);
      && o == AtRadii(s, grid)
      && raised == ((|grid| > 0 && vals[0] > 0.0) || PetroWarning(petro, rOuter, grid, Visited(s, |grid|)))
  {
    ghost var vals := PetrosianSamples(petro, grid);
    ghost var warned := false;
    var rMin: Option<real> := None;
    raised := false;
    var i: nat := 0;
    while i < |grid|
      invariant i <= |grid|
      invariant NoStopIn(vals, 0, i)
      invariant rMin.Some? <==> (i > 0 && vals[i - 1] < 0.0)
      invariant rMin.Some? ==> rMin.value == grid[i - 1]
      invariant rMin.None? ==> forall k :: 0 <= k < i ==> vals[k] > 0.0
      invariant warned == PetroWarning(petro, rOuter, grid, i)
      invariant raised == ((i > 0 && vals[0] > 0.0) || warned)
    {
      var r := grid[i];
      var curval, warn := PetroSample(petro, rOuter, grid, i);
      raised := raised || warn;
      warned := warned || warn;
      if curval == 0.0 {
        ScanIsFirstStop(vals, i);
        return ExactRoot(r), raised;
      } else if curval > 0.0 {
        rMin := Some(r);
      } else if curval < 0.0 {
        if rMin.None? {
          raised := true;
        } else {
          ScanIsFirstStop(vals, i);
          return Bracket(rMin.value, r), raised;
        }
      }
      i := i + 1;
    }
    ScanFromRunsOut(vals, 0);
    return Exhausted, raised;
  }

  /**
   * A stamp without flux: every aperture mean is zero, so every sample of
   * the Petrosian function is 1 - eta. For eta < 1 that is positive, no
   * sample ever goes negative, and the scan does not stop however many
   * samples it is given; the source loop then never ends.
   */
  lemma ZeroFluxScanNeverStops(petro: real -> Sample, annMean: real -> real, eta: real,
                               annulusWidth: real, rOuter: real, steps: nat)
    requires eta < 1.0
    requires forall r :: petro(r) == PetrosianFunction(annMean(r), 0.0, eta)
    ensures ScanFrom(PetrosianSamples(petro, PetroGrid(annulusWidth, rOuter, steps)), 0).NoStop?
  {
    var vals := PetrosianSamples(petro, PetroGrid(annulusWidth, rOuter, steps));
    assert forall i :: 0 <= i < |vals| ==> vals[i] < 0.0;
    ScanFromRunsOut(vals, 0);
  }

  /**
   * One pass of the Petrosian loop up to the sign test: the Petrosian
   * function at the i-th radius, and whether this pass raised the flag
   * (the radius is at or past r_outer, or the evaluation raised it).
   */
  method PetroSample(petro: real -> Sample, rOuter: real, grid: seq<real>, i: nat)
    returns (curval: real, warn: bool)
    requires i < |grid|
    ensures curval == -PetrosianSamples(petro, grid)[i]
    ensures warn == (grid[i] >= rOuter || petro(grid[i]).raised)
    ensures PetroWarning(petro, rOuter, grid, i + 1) == (PetroWarning(petro, rOuter, grid, i) || warn)
  {
    var r := grid[i];
    warn := false;
    if r >= rOuter {
      warn := true;
    }
    var p := petro(r);
    warn := warn || p.raised;
    PetroWarningStep(petro, rOuter, grid, i);
    curval := p.value;
  }

  /** One more sample warns exactly when it lies at or past r_outer or its evaluation raised the flag. */
  lemma PetroWarningStep(petro: real -> Sample, rOuter: real, grid: seq<real>, i: nat)
    requires i < |grid|
    ensures PetroWarning(petro, rOuter, grid, i + 1) <==>
      (PetroWarning(petro, rOuter, grid, i) || grid[i] >= rOuter || petro(grid[i]).raised)
  {
    if grid[i] >= rOuter || petro(grid[i]).raised {
      assert 0 <= i < i + 1;
    }
  }

  /** The grid reaches r_outer exactly at its 100th point, and not before. */
  lemma PetroGridReachesOuter(annulusWidth: real, rOuter: real, k: nat)
    requires annulusWidth < rOuter
    ensures PetroRadius(annulusWidth, PetroStep(annulusWidth, rOuter), k) >= rOuter <==> k >= NPoints - 1
  {
    var dr := PetroStep(annulusWidth, rOuter);
    PetroRadiusClosedForm(annulusWidth, dr, k);
    assert (NPoints - 1) as real == 99.0;
    assert dr > 0.0;
    assert rOuter == annulusWidth + 99.0 * dr;
    if k >= NPoints - 1 {
      MulMonotone(99.0, k as real, dr);
    } else {
      MulStrict(k as real, 99.0, dr);
    }
  }

  /**
   * When no evaluation raises the flag itself, the Petrosian scan warns exactly when it
   * evaluates more than 99 radii, that is when it reaches r_outer.
   */
  lemma PetroWarningIffPastOuter(petro: real -> Sample, annulusWidth: real, rOuter: real, steps: nat, n: nat)
    requires annulusWidth < rOuter && n <= steps
    requires forall k :: 0 <= k < n ==> !petro(PetroGrid(annulusWidth, rOuter, steps)[k]).raised
    ensures PetroWarning(petro, rOuter, PetroGrid(annulusWidth, rOuter, steps), n) <==> n >= NPoints
  {
    var grid := PetroGrid(annulusWidth, rOuter, steps);
    if n >= NPoints {
      PetroGridReachesOuter(annulusWidth, rOuter, NPoints - 1);
      assert grid[NPoints - 1] >= rOuter;
    } else {
      forall k | 0 <= k < n
        ensures grid[k] < rOuter
      {
        PetroGridReachesOuter(annulusWidth, rOuter, k);
      }
    }
  }
}
