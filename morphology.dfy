/**
 * The measurement state of one source (`SourceMorphology`): the "bad
 * measurement" flag that every stage may raise and none clears, and the
 * skybox side that the skybox search shrinks in place. Each method runs
 * one stage of the measurement and merges what it raised into the flag.
 */
module Morphology {
  import opened Values
  import opened Grids
  import opened Stamp
  import Skybox
  import opened Scans
  import opened Quantile
  import opened Gini
  import opened Multimode
  import opened Shape
  import opened Asymmetry
  import opened Component

  // ------------------------------------------------------------------
  // Segmap comparison

  /** The largest of the three segmap areas. */
  function AreaMax(gini: seq<seq<bool>>, mid: seq<seq<bool>>, shape: seq<seq<bool>>): (a: nat)
    ensures Count(gini) <= a && Count(mid) <= a && Count(shape) <= a
    ensures a == Count(gini) || a == Count(mid) || a == Count(shape)
  {
    var m := if Count(gini) < Count(mid) then Count(mid) else Count(gini);
    if m < Count(shape) then Count(shape) else m
  }

  /** The number of pixels that lie in all three segmaps. */
  function AreaOverlap(gini: seq<seq<bool>>, mid: seq<seq<bool>>, shape: seq<seq<bool>>): nat
    requires SameShape(gini, mid) && SameShape(gini, shape)
  {
    Count(And(And(gini, mid), shape))
  }

  /**
   * `_check_segmaps` raises the flag: every segmap is empty, or the
   * common part covers less than `ratio` of the largest segmap.
   */
  predicate SegmapsDisagree(gini: seq<seq<bool>>, mid: seq<seq<bool>>, shape: seq<seq<bool>>, ratio: real)
    requires SameShape(gini, mid) && SameShape(gini, shape)
  {
    var areaMax := AreaMax(gini, mid, shape);
    areaMax == 0 || AreaOverlap(gini, mid, shape) as real / areaMax as real < ratio
  }

  /** The common part is no larger than any of the three segmaps. */
  lemma OverlapWithinEach(gini: seq<seq<bool>>, mid: seq<seq<bool>>, shape: seq<seq<bool>>)
    requires SameShape(gini, mid) && SameShape(gini, shape)
    ensures AreaOverlap(gini, mid, shape) <= Count(gini)
    ensures AreaOverlap(gini, mid, shape) <= Count(mid)
    ensures AreaOverlap(gini, mid, shape) <= Count(shape)
  {
    var common := And(And(gini, mid), shape);
    CountMonotone(common, gini);
    CountMonotone(common, mid);
    CountMonotone(common, shape);
  }

  /** The overlap ratio of non-empty segmaps lies in [0, 1]. */
  lemma OverlapRatioInUnit(gini: seq<seq<bool>>, mid: seq<seq<bool>>, shape: seq<seq<bool>>)
    requires SameShape(gini, mid) && SameShape(gini, shape)
    requires AreaMax(gini, mid, shape) > 0
    ensures 0.0 <= AreaOverlap(gini, mid, shape) as real / AreaMax(gini, mid, shape) as real <= 1.0
  {
    OverlapWithinEach(gini, mid, shape);
    DivideWithinUnit(AreaOverlap(gini, mid, shape) as real, AreaMax(gini, mid, shape) as real);
  }

  /**
   * The flag is raised for every source when the threshold exceeds 1, and
   * with a non-positive threshold only when all three segmaps are empty.
   */
  lemma DisagreeAtExtremeRatios(gini: seq<seq<bool>>, mid: seq<seq<bool>>, shape: seq<seq<bool>>, ratio: real)
    requires SameShape(gini, mid) && SameShape(gini, shape)
    ensures ratio > 1.0 ==> SegmapsDisagree(gini, mid, shape, ratio)
    ensures ratio <= 0.0 ==>
      (SegmapsDisagree(gini, mid, shape, ratio) <==> Count(gini) == 0 && Count(mid) == 0 && Count(shape) == 0)
  {
    if AreaMax(gini, mid, shape) > 0 {
      OverlapRatioInUnit(gini, mid, shape);
    }
  }

  /** A segmap overlaps itself entirely. */
  lemma SelfOverlap(seg: seq<seq<bool>>)
    ensures AreaOverlap(seg, seg, seg) == Count(seg)
  {
    var common := And(And(seg, seg), seg);
    CountMonotone(common, seg);
    CountMonotone(seg, common);
  }

  lemma UnitRatio(n: nat)
    requires n > 0
    ensures n as real / n as real == 1.0
  {
  }

  /** Three copies of one segmap agree for a threshold up to 1 exactly when that segmap is not empty. */
  lemma IdenticalSegmapsAgree(seg: seq<seq<bool>>, ratio: real)
    requires ratio <= 1.0
    ensures !SegmapsDisagree(seg, seg, seg, ratio) <==> Count(seg) > 0
  {
    SelfOverlap(seg);
    var n := Count(seg);
    assert AreaMax(seg, seg, seg) == n;
    if n > 0 {
      UnitRatio(n);
    }
  }

  /**
   * Segmaps with no pixel in common have an empty overlap, so the flag is
   * raised exactly when the threshold is positive or all of them are empty.
   */
  lemma DisjointSegmapsDisagree(gini: seq<seq<bool>>, mid: seq<seq<bool>>, shape: seq<seq<bool>>, ratio: real)
    requires SameShape(gini, mid) && SameShape(gini, shape)
    requires forall i, j :: 0 <= i < |gini| && 0 <= j < |gini[i]| ==> !(gini[i][j] && mid[i][j])
    ensures AreaOverlap(gini, mid, shape) == 0
    ensures SegmapsDisagree(gini, mid, shape, ratio) <==> (ratio > 0.0 || AreaMax(gini, mid, shape) == 0)
  {
    CountZero(And(And(gini, mid), shape));
  }

  // ------------------------------------------------------------------
  // The measurement state

  class SourceMorphology {
    /** Whether some stage marked the measurement as unreliable. */
    var flag: bool
    /** Side of the square sky box; the skybox search halves it in place. */
    var skyboxSize: nat
    /** Width of the stamp border the skybox must keep clear of. */
    const borderSize: nat
    /** Smallest acceptable overlap of the three segmaps relative to the largest. */
    const segmapOverlapRatio: real

    constructor(skyboxSize: nat, borderSize: nat, segmapOverlapRatio: real)
      ensures !flag
      ensures this.skyboxSize == skyboxSize && this.borderSize == borderSize
      ensures this.segmapOverlapRatio == segmapOverlapRatio
    {
      flag := false;
      this.skyboxSize := skyboxSize;
      this.borderSize := borderSize;
      this.segmapOverlapRatio := segmapOverlapRatio;
    }

    /**
     * `_slice_skybox`: search the first clear box, halving the box side in
     * place until one is clear or the side has dropped below the border
     * width. The box, the side left behind and the flag are those of
     * `Skybox.Skybox` from the side held on entry.
     */
    method SliceSkybox(seg: seq<seq<int>>, mask: seq<seq<bool>>, ny: nat, nx: nat) returns (box: Window)
      requires IsGrid(seg, ny, nx) && IsGrid(mask, ny, nx)
      requires borderSize > 0 || (ny > 0 && nx > 0)
      modifies this`flag, this`skyboxSize
      ensures var o := Skybox.Skybox(seg, mask, ny, nx, borderSize, old(skyboxSize));
        && box == o.box
        && skyboxSize == o.size
        && flag == (old(flag) || o.raised)
      ensures Skybox.SkyboxTried(old(skyboxSize), skyboxSize)
    {
      if nx < 2 * borderSize || ny < 2 * borderSize {
        flag := true;
        return Skybox.EmptyBox;
      }
      while true
        invariant Skybox.Skybox(seg, mask, ny, nx, borderSize, skyboxSize)
               == Skybox.Skybox(seg, mask, ny, nx, borderSize, old(skyboxSize))
        invariant flag == old(flag)
        decreases skyboxSize
      {
        Skybox.ZeroSizeBoxFound(seg, mask, ny, nx, borderSize, skyboxSize);
        var found := Skybox.FindClear(seg, mask, ny, nx, borderSize, skyboxSize);
        if found.Some? {
          return Skybox.SquareAt(found.value.0, found.value.1, skyboxSize);
        }
        if skyboxSize < borderSize {
          flag := true;
          return Skybox.SquareAt(borderSize, borderSize, skyboxSize);
        }
        skyboxSize := skyboxSize / 2;
      }
    }

    /** `_check_segmaps`: raise the flag when the three segmaps differ too much. */
    method CheckSegmaps(gini: seq<seq<bool>>, mid: seq<seq<bool>>, shape: seq<seq<bool>>)
      requires SameShape(gini, mid) && SameShape(gini, shape)
      modifies this`flag
      ensures flag == (old(flag) || SegmapsDisagree(gini, mid, shape, segmapOverlapRatio))
    {
      var areaMax := AreaMax(gini, mid, shape);
      var areaOverlap := Count(And(And(gini, mid), shape));
      if areaMax == 0 {
        flag := true;
        return;
      }
      var areaRatio := areaOverlap as real / areaMax as real;
      if areaRatio < segmapOverlapRatio {
        flag := true;
      }
    }

    /**
     * `gini` on the Gini segmap of the cutout. `sorted` is the selected
     * absolute pixel values in ascending order (the sort itself is not
     * modelled). A valid coefficient lies in [0, 1]; otherwise the result
     * is -99.0 and the flag is raised.
     */
    method MeasureGini(image: seq<seq<real>>, segmap: seq<seq<bool>>, sorted: seq<real>) returns (g: real)
      requires SameShape(image, segmap)
      requires Sorted(sorted) && multiset(sorted) == multiset(SelectedAbs(image, segmap))
      modifies this`flag
      ensures g == GiniOf(sorted).gini.AsFloat()
      ensures g == -99.0 <==> Count(segmap) <= 1 || SumRow(sorted) == 0.0
      ensures g != -99.0 ==> 0.0 <= g <= 1.0
      ensures flag == (old(flag) || g == -99.0)
    {
      var selected := SelectedAbs(image, segmap);
      forall k | 0 <= k < |sorted|
        ensures sorted[k] >= 0.0
      {
        assert sorted[k] in multiset(selected);
      }
      assert |sorted| == |selected| by {
        assert |multiset(sorted)| == |multiset(selected)|;
      }
      GiniInUnitInterval(sorted);
      var o := GiniOf(sorted);
      if o.raised {
        flag := true;
      }
      g := o.gini.AsFloat();
    }

    /**
     * `multimode`: stage 1 on the quantile grid, then basin-hopping from
     * the stage-1 quantile, and M = A2 / A1 of the clumps at the quantile
     * it ends at. `basinHop(q0, temperature, step)` is that quantile; it is
     * never worse than its start point. `invalid` is the sum of the MID
     * cutout. M is 0 and the flag is raised exactly when no attempt of
     * stage 1 found two clumps.
     */
    method MeasureMultimode(clumps: real -> seq<nat>, invalid: real, basinHop: (real, real, real) -> real)
      returns (m: real)
      requires Labelling(clumps) && invalid >= 0.0
      requires forall q, t, s :: RatioAt(clumps, invalid, basinHop(q, t, s)) <= RatioAt(clumps, invalid, q)
      modifies this`flag
      ensures m == 0.0 <==> forall h :: 0 <= h <= LastAttempt ==> NoValidRatio(clumps, invalid, h)
      ensures m != 0.0 ==> 0.0 < m <= 1.0
      ensures m != 0.0 ==> exists h: nat, q0: real, ratioMin: real :: Stage2Result(clumps, invalid, basinHop, h, q0, ratioMin, m)
      ensures flag == (old(flag) || m == 0.0)
    {
      var o, halvings := MultimodeStage1(clumps, invalid);
      Stage1GivesUpIffNoValidRatio(clumps, invalid, halvings, o);
      match o
      case SingleClump =>
        flag := true;
        m := 0.0;
      case Bracketed(q0, ratioMin, step) =>
        var temperature := -1.0 * 0.5 * ratioMin;
        var qFinal := basinHop(q0, temperature, step);
        assert RatioAt(clumps, invalid, qFinal) < 0.0;
        RatioNegativeIffValid(qFinal, clumps(qFinal), invalid);
        m := MultimodeStatistic(clumps(qFinal));
        assert Stage2Result(clumps, invalid, basinHop, halvings, q0, ratioMin, m);
    }

    /**
     * `_radius_at_fraction_of_total_cas`: the fraction radius within
     * `rUpper`, merged flag, and the invalid sentinel for a NaN or
     * non-positive radius; None when the computation raises. The sentinel
     * comes out exactly when the flux within `rUpper` is not positive.
     */
    method RadiusAtFractionCas(apSum: real -> real, rUpper: real, fraction: real, brentq: (real, real) -> real)
      returns (r: Option<Stat>)
      requires forall a, b :: a < b ==> a <= brentq(a, b) <= b
      modifies this`flag
      ensures r.Some? && r.value.Invalid? <==> apSum(rUpper) <= 0.0
      ensures r.Some? && r.value.Valid? ==> 0.0 < r.value.v <= rUpper
      ensures r.None? <==> (apSum(rUpper) > 0.0 && (rUpper <= 0.0 ||
        ScanFrom(FractionSamples(apSum, apSum(rUpper), fraction, Linspace(RInner(rUpper), rUpper)), 0).NoStop?))
      ensures apSum(rUpper) > 0.0 && rUpper > 0.0 ==>
        var grid := Linspace(RInner(rUpper), rUpper);
        var s := ScanFrom(FractionSamples(apSum, apSum(rUpper), fraction, grid), 0);
        && (s.RootAt? ==> r == Some(Valid(grid[s.k])))
        && (s.BracketAt? ==> r == Some(Valid(brentq(grid[s.lo], grid[s.hi]))))
      ensures r.Some? ==> flag == (old(flag) || FractionFlag(apSum, rUpper, fraction))
      ensures r.None? ==> flag == old(flag)
    {
      var radius, raised := RadiusAtFraction(apSum, rUpper, fraction, brentq);
      match radius
      case Raises =>
        r := None;
      case Radius(x) =>
        flag := flag || raised;
        var s := CasRadius(x);
        if s.Invalid? {
          flag := true;
        }
        r := Some(s);
    }

    /**
     * `_rpetro_circ_generic` / `_rpetro_ellip_generic` over the first
     * `steps` samples of their unbounded scan: the bracketing scan, then
     * the root finder `brentq` on the bracket it found, with the flag
     * merged, including any evaluation of the Petrosian function by the
     * root finder that raised it; None while the scan is still running
     * after `steps` samples.
     */
    method PetrosianRadius(petro: real -> Sample, annulusWidth: real, rOuter: real, steps: nat,
                           brentq: (real, real) -> RootSearch) returns (r: Option<real>)
      requires 0.0 <= annulusWidth < rOuter
      modifies this`flag
      ensures var grid := PetroGrid(annulusWidth, rOuter, steps);
        var vals := PetrosianSamples(petro, grid);
        var s := ScanFrom(vals, 0);
        && (r.None? <==> s.NoStop?)
        && (s.RootAt? ==> r == Some(grid[s.k]))
        && (s.BracketAt? ==> r == Some(brentq(grid[s.lo], grid[s.hi]).root))
        && flag == (old(flag) || (steps > 0 && vals[0] > 0.0) || PetroWarning(petro, rOuter, grid, Visited(s, steps))
                    || (s.BracketAt? && RaisedAtAny(petro, brentq(grid[s.lo], grid[s.hi]).evaluated)))
    {
      var o, raised := PetrosianScan(petro, annulusWidth, rOuter, steps);
      flag := flag || raised;
      match o
      case ExactRoot(x) =>
        r := Some(x);
      case Bracket(a, b) =>
        var search := brentq(a, b);
        flag := flag || RaisedAtAny(petro, search.evaluated);
        r := Some(search.root);
      case Exhausted =>
        r := None;
    }

    /**
     * `rmax` for the centre (xc, yc): the squared distance to the farthest
     * pixel of the non-empty shape-asymmetry segmap; the flag is raised
     * when it is zero.
     */
    method MeasureRmax(seg: seq<seq<bool>>, yc: real, xc: real) returns (sqDist: nat)
      requires exists i, j :: InSegmap(seg, i, j)
      modifies this`flag
      ensures sqDist == Rmax(seg, yc, xc).sqDist
      ensures flag == (old(flag) || sqDist == 0)
    {
      var o := Rmax(seg, yc, xc);
      if o.raised {
        flag := true;
      }
      sqDist := o.sqDist;
    }

    /**
     * `half_light_radius`: 0 for rmax == 0, otherwise the radius holding
     * half the flux within rmax, with the flag merged.
     */
    method HalfLightRadius(rmax: real, apSum: real -> real, brentq: (real, real) -> real)
      returns (r: RadiusOutcome)
      requires forall a, b :: a < b ==> a <= brentq(a, b) <= b
      modifies this`flag
      ensures rmax == 0.0 ==> r == Radius(Real(0.0)) && flag == old(flag)
      ensures rmax != 0.0 && r.Radius? ==> flag == (old(flag) || FractionFlag(apSum, rmax, 0.5))
      ensures r.Raises? ==> flag == old(flag)
      ensures rmax != 0.0 && apSum(rmax) <= 0.0 ==> r == Radius(NaN)
      ensures rmax != 0.0 && apSum(rmax) > 0.0 ==>
        var grid := Linspace(RInner(rmax), rmax);
        var s := ScanFrom(FractionSamples(apSum, apSum(rmax), 0.5, grid), 0);
        && (r.Raises? <==> (rmax < 0.0 || s.NoStop?))
        && (rmax > 0.0 && s.RootAt? ==> r == Radius(Real(grid[s.k])))
        && (rmax > 0.0 && s.BracketAt? ==> r == Radius(Real(brentq(grid[s.lo], grid[s.hi]))))
      ensures r.Radius? && r.r.Real? ==> 0.0 <= r.r.v <= rmax
    {
      if rmax == 0.0 {
        return Radius(Real(0.0));
      }
      var raised;
      r, raised := RadiusAtFraction(apSum, rmax, 0.5, brentq);
      if r.Radius? {
        flag := flag || raised;
      }
    }

    /**
     * `_asymmetry_function` seen from the state: the float it returns,
     * with the flag raised for a centre outside the image, invalid radii
     * or a zero flux sum.
     */
    method MeasureAsymmetry(kind: Kind, xc: real, yc: real, nx: nat, ny: nat,
                            rCas: real, halfLight: Num, rmax: Num, skyAsymmetry: Num,
                            photometry: Aperture -> ApertureSums) returns (a: real)
      modifies this`flag
      ensures var v := AsymmetryFunction(kind, xc, yc, nx, ny, rCas, halfLight, rmax, skyAsymmetry, photometry);
        a == v.AsFloat() && flag == (old(flag) || v.RaisesFlag())
    {
      var v := AsymmetryFunction(kind, xc, yc, nx, ny, rCas, halfLight, rmax, skyAsymmetry, photometry);
      if v.RaisesFlag() {
        flag := true;
      }
      a := v.AsFloat();
    }

    /**
     * The seed step of `_segmap_mid` and `_segmap_shape_asym`: put the
     * brightest pixel (ic, jc) into the segmap, raising the flag when it
     * was missing; no other pixel changes.
     */
    method AddBrightestPixel(segmap: array2<bool>, ic: nat, jc: nat)
      requires ic < segmap.Length0 && jc < segmap.Length1
      modifies this`flag, segmap
      ensures segmap[ic, jc]
      ensures forall i, j :: 0 <= i < segmap.Length0 && 0 <= j < segmap.Length1 && (i != ic || j != jc) ==>
        segmap[i, j] == old(segmap[i, j])
      ensures flag == (old(flag) || !old(segmap[ic, jc]))
    {
      var added := ForceSeed(segmap, ic, jc);
      if added {
        flag := true;
      }
    }

    /**
     * The seed-and-label step of `_segmap_mid` and `_segmap_shape_asym`:
     * force the brightest pixel (ic, jc) into the segmap, then keep the
     * 8-connected region of the segmap that holds it. The region lies in
     * the updated segmap, holds the seed, is closed under 8-adjacency
     * within the segmap, and lies within every such closed set holding the
     * seed.
     */
    method KeepSeedComponent(segmap: array2<bool>, ic: nat, jc: nat) returns (comp: array2<bool>)
      requires ic < segmap.Length0 && jc < segmap.Length1
      modifies this`flag, segmap
      ensures flag == (old(flag) || !old(segmap[ic, jc]))
      ensures segmap[ic, jc]
      ensures forall i, j :: 0 <= i < segmap.Length0 && 0 <= j < segmap.Length1 && (i != ic || j != jc) ==>
        segmap[i, j] == old(segmap[i, j])
      ensures fresh(comp)
      ensures comp.Length0 == segmap.Length0 && comp.Length1 == segmap.Length1 && comp[ic, jc]
      ensures forall i, j :: 0 <= i < comp.Length0 && 0 <= j < comp.Length1 && comp[i, j] ==> segmap[i, j]
      ensures forall i, j, k, l ::
        (0 <= i < comp.Length0 && 0 <= j < comp.Length1 && 0 <= k < comp.Length0 && 0 <= l < comp.Length1 &&
         comp[i, j] && segmap[k, l] && Adjacent((i, j), (k, l))) ==> comp[k, l]
      ensures forall s {:trigger Closed(Snapshot(segmap), s)} :: Closed(Snapshot(segmap), s) && (ic, jc) in s ==>
        forall i, j :: 0 <= i < comp.Length0 && 0 <= j < comp.Length1 && comp[i, j] ==> (i, j) in s
    {
      AddBrightestPixel(segmap, ic, jc);
      var g := Snapshot(segmap);
      comp := SeedComponent(g, segmap.Length0, segmap.Length1, ic, jc);
    }
  }
}
