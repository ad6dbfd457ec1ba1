/**
 * The search for a background-only "skybox" inside the postage stamp
 * (`_slice_skybox`) and the background asymmetry measured in it
 * (`_sky_asymmetry`).
 *
 * Candidate boxes are squares of side `size` whose top-left corner (i, j)
 * runs row-major over [border, ny - border - size) x [border, nx - border - size);
 * a box is clear when it covers no segmented pixel and no masked pixel.
 * When no box of the current size is clear the size is halved, until it
 * drops strictly below the border width and the box at (border, border) is
 * taken instead.
 */
module Skybox {
  import opened Values
  import opened Grids
  import opened Stamp

  /** The square of side `size` at (i, j) holds only background (label 0) and no masked pixel. */
  predicate BoxClear(seg: seq<seq<int>>, mask: seq<seq<bool>>, ny: nat, nx: nat, i: int, j: int, size: nat)
    requires IsGrid(seg, ny, nx) && IsGrid(mask, ny, nx)
    requires 0 <= i && i + size <= ny && 0 <= j && j + size <= nx
  {
    forall r, c :: i <= r < i + size && j <= c < j + size ==> seg[r][c] == 0 && !mask[r][c]
  }

  /** (r, c) comes strictly before (i, j) in row-major order. */
  predicate Before(r: int, c: int, i: int, j: int) {
    r < i || (r == i && c < j)
  }

  /** The first clear box in row `i` whose column is at least `j`. */
  function FirstClearInRow(seg: seq<seq<int>>, mask: seq<seq<bool>>, ny: nat, nx: nat, border: nat, size: nat,
                           i: int, j: int): (r: Option<int>)
    requires IsGrid(seg, ny, nx) && IsGrid(mask, ny, nx)
    requires border <= i < ny - border - size && border <= j
    ensures r.Some? ==>
      && j <= r.value < nx - border - size
      && BoxClear(seg, mask, ny, nx, i, r.value, size)
      && forall c :: j <= c < r.value ==> !BoxClear(seg, mask, ny, nx, i, c, size)
    ensures r.None? ==> forall c :: j <= c < nx - border - size ==> !BoxClear(seg, mask, ny, nx, i, c, size)
    decreases nx - j
  {
    if j >= nx - border - size then None
    else if BoxClear(seg, mask, ny, nx, i, j, size) then Some(j)
    else FirstClearInRow(seg, mask, ny, nx, border, size, i, j + 1)
  }

  /** The first clear box, row-major, among the rows from `i` on. */
  function FirstClearFrom(seg: seq<seq<int>>, mask: seq<seq<bool>>, ny: nat, nx: nat, border: nat, size: nat,
                          i: int): (r: Option<(int, int)>)
    requires IsGrid(seg, ny, nx) && IsGrid(mask, ny, nx)
    requires border <= i
    ensures r.Some? ==>
      && i <= r.value.0 < ny - border - size && border <= r.value.1 < nx - border - size
      && BoxClear(seg, mask, ny, nx, r.value.0, r.value.1, size)
      && forall a, b :: i <= a < ny - border - size && border <= b < nx - border - size && Before(a, b, r.value.0, r.value.1)
           ==> !BoxClear(seg, mask, ny, nx, a, b, size)
    ensures r.None? ==>
      forall a, b :: i <= a < ny - border - size && border <= b < nx - border - size ==> !BoxClear(seg, mask, ny, nx, a, b, size)
    decreases ny - i
  {
    if i >= ny - border - size then None
    else match FirstClearInRow(seg, mask, ny, nx, border, size, i, border)
      case Some(c) => Some((i, c))
      case None => FirstClearFrom(seg, mask, ny, nx, border, size, i + 1)
  }

  /** The first clear box of side `size` in the whole search range, if any. */
  function FirstClear(seg: seq<seq<int>>, mask: seq<seq<bool>>, ny: nat, nx: nat, border: nat, size: nat): (r: Option<(int, int)>)
    requires IsGrid(seg, ny, nx) && IsGrid(mask, ny, nx)
  {
    FirstClearFrom(seg, mask, ny, nx, border, size, border)
  }

  /** A box of side zero is empty, hence clear, as soon as the search range is not empty. */
  lemma ZeroSizeBoxFound(seg: seq<seq<int>>, mask: seq<seq<bool>>, ny: nat, nx: nat, border: nat, size: nat)
    requires IsGrid(seg, ny, nx) && IsGrid(mask, ny, nx)
    ensures size == 0 && ny > 2 * border && nx > 2 * border ==> FirstClear(seg, mask, ny, nx, border, size).Some?
  {
    if size == 0 && ny > 2 * border && nx > 2 * border {
      assert BoxClear(seg, mask, ny, nx, border, border, 0);
    }
  }

  /**
   * One pass of the nested `for` loops over the candidate corners: the
   * first clear box in row-major order, or none.
   */
  method FindClear(seg: seq<seq<int>>, mask: seq<seq<bool>>, ny: nat, nx: nat, border: nat, size: nat)
    returns (found: Option<(int, int)>)
    requires IsGrid(seg, ny, nx) && IsGrid(mask, ny, nx)
    ensures found == FirstClear(seg, mask, ny, nx, border, size)
  {
    var i := border;
    while i < ny - border - size
      invariant border <= i
      invariant FirstClearFrom(seg, mask, ny, nx, border, size, i) == FirstClear(seg, mask, ny, nx, border, size)
      decreases ny - border - size - i
    {
      var j := border;
      while j < nx - border - size
        invariant border <= j
        invariant FirstClearInRow(seg, mask, ny, nx, border, size, i, j)
               == FirstClearInRow(seg, mask, ny, nx, border, size, i, border)
        decreases nx - border - size - j
      {
        if BoxClear(seg, mask, ny, nx, i, j, size) {
          return Some((i, j));
        }
        j := j + 1;
      }
      i := i + 1;
    }
    return None;
  }

  /** What `_slice_skybox` returns, the box size it leaves behind, and whether it raised the flag. */
  datatype SkyboxOutcome = SkyboxOutcome(box: Window, size: nat, raised: bool)

  /** The empty slice pair (slice(0, 0), slice(0, 0)). */
  const EmptyBox := Window(0, 0, 0, 0)

  function SquareAt(i: int, j: int, size: nat): Window {
    Window(i, i + size, j, j + size)
  }

  /**
   * The complete skybox search starting from box side `size`. The source
   * would loop forever on an empty stamp with a zero border, which the
   * requires excludes.
   */
  function Skybox(seg: seq<seq<int>>, mask: seq<seq<bool>>, ny: nat, nx: nat, border: nat, size: nat): (o: SkyboxOutcome)
    requires IsGrid(seg, ny, nx) && IsGrid(mask, ny, nx)
    requires border > 0 || (ny > 0 && nx > 0)
    ensures o.box.Within(ny, nx)
    ensures o.size <= size && SkyboxTried(size, o.size)
    ensures (nx < 2 * border || ny < 2 * border) ==> o == SkyboxOutcome(EmptyBox, size, true)
    ensures !o.raised ==> exists i, j ::
      (&& o.box == SquareAt(i, j, o.size)
       && FirstClear(seg, mask, ny, nx, border, o.size) == Some((i, j))
       && BoxClear(seg, mask, ny, nx, i, j, o.size))
    ensures o.raised && nx >= 2 * border && ny >= 2 * border ==>
      && o.size < border && o.box == SquareAt(border, border, o.size)
      && FirstClear(seg, mask, ny, nx, border, o.size).None?
    decreases size
  {
    if nx < 2 * border || ny < 2 * border then SkyboxOutcome(EmptyBox, size, true)
    else
      ZeroSizeBoxFound(seg, mask, ny, nx, border, size);
      match FirstClear(seg, mask, ny, nx, border, size)
      case Some(p) => SkyboxOutcome(SquareAt(p.0, p.1, size), size, false)
      case None =>
        if size < border then SkyboxOutcome(SquareAt(border, border, size), size, true)
        else Skybox(seg, mask, ny, nx, border, size / 2)
  }

  /** `s` is one of size, size / 2, size / 4, ... */
  predicate SkyboxTried(size: nat, s: nat)
    decreases size
  {
    s == size || (size > 0 && SkyboxTried(size / 2, s))
  }

  /**
   * Every box side in the halving sequence that is larger than the final
   * one was given up on: it was at least the border width and no box of
   * that side was clear.
   */
  lemma {:induction false} SkyboxSkippedSizes(seg: seq<seq<int>>, mask: seq<seq<bool>>, ny: nat, nx: nat,
                                              border: nat, size: nat, s: nat)
    requires IsGrid(seg, ny, nx) && IsGrid(mask, ny, nx)
    requires border > 0 || (ny > 0 && nx > 0)
    requires nx >= 2 * border && ny >= 2 * border
    requires SkyboxTried(size, s) && s > Skybox(seg, mask, ny, nx, border, size).size
    ensures FirstClear(seg, mask, ny, nx, border, s).None? && s >= border
    decreases size
  {
    ZeroSizeBoxFound(seg, mask, ny, nx, border, size);
    if s != size {
      SkyboxSkippedSizes(seg, mask, ny, nx, border, size / 2, s);
    }
  }

  /** Pixel (i, j) equals its image under a 180-degree rotation. */
  predicate MirrorEqual(bkg: seq<seq<real>>, nx: nat, i: int, j: int)
    requires IsGrid(bkg, |bkg|, nx) && 0 <= i < |bkg| && 0 <= j < nx
  {
    bkg[|bkg| - 1 - i][nx - 1 - j] == bkg[i][j]
  }

  /** `bkg[::-1, ::-1] - bkg`, taken in absolute value. */
  function AbsDiffRot180(bkg: seq<seq<real>>, nx: nat): (d: seq<seq<real>>)
    requires IsGrid(bkg, |bkg|, nx)
    ensures IsGrid(d, |bkg|, nx)
    ensures forall i, j :: 0 <= i < |bkg| && 0 <= j < nx ==>
      d[i][j] >= 0.0 && (d[i][j] == 0.0 <==> MirrorEqual(bkg, nx, i, j))
  {
    var r := Rot180(bkg, nx);
    seq(|bkg|, i requires 0 <= i < |bkg| => seq(nx, j requires 0 <= j < nx =>
      if r[i][j] >= bkg[i][j] then r[i][j] - bkg[i][j] else bkg[i][j] - r[i][j]))
  }

  /** `_sky_asymmetry`: NaN on an empty skybox, else the summed absolute 180-degree residual per pixel. */
  function SkyAsymmetry(bkg: seq<seq<real>>, nx: nat): (a: Num)
    requires IsGrid(bkg, |bkg|, nx)
    ensures a.NaN? <==> |bkg| * nx == 0
    ensures a.Real? ==> a.v >= 0.0
  {
    var size := |bkg| * nx;
    if size == 0 then NaN
    else
      SumNonNegative(AbsDiffRot180(bkg, nx));
      Real(Sum(AbsDiffRot180(bkg, nx)) / size as real)
  }

  lemma {:induction false} SumRowZeroIff(row: seq<real>)
    requires forall j :: 0 <= j < |row| ==> row[j] >= 0.0
    ensures SumRow(row) == 0.0 <==> forall j :: 0 <= j < |row| ==> row[j] == 0.0
  {
    if |row| > 0 {
      SumRowZeroIff(row[..|row| - 1]);
      SumRowNonNegative(row[..|row| - 1]);
      assert forall j :: 0 <= j < |row| - 1 ==> row[..|row| - 1][j] == row[j];
    }
  }

  /** A sum of non-negative pixels is zero exactly when every pixel is zero. */
  lemma {:induction false} SumZeroIff(g: seq<seq<real>>)
    requires forall i, j :: 0 <= i < |g| && 0 <= j < |g[i]| ==> g[i][j] >= 0.0
    ensures Sum(g) == 0.0 <==> forall i, j :: 0 <= i < |g| && 0 <= j < |g[i]| ==> g[i][j] == 0.0
  {
    if |g| > 0 {
      var n := |g| - 1;
      SumZeroIff(g[..n]);
      SumNonNegative(g[..n]);
      SumRowZeroIff(g[n]);
      SumRowNonNegative(g[n]);
      assert forall i :: 0 <= i < n ==> g[..n][i] == g[i];
    }
  }

  /**
   * The background asymmetry of a non-empty skybox is zero exactly when the
   * box is symmetric under a 180-degree rotation.
   */
  lemma SkyAsymmetryZeroIffSymmetric(bkg: seq<seq<real>>, nx: nat)
    requires IsGrid(bkg, |bkg|, nx) && |bkg| * nx > 0
    ensures SkyAsymmetry(bkg, nx) == Real(0.0) <==>
      forall i, j :: 0 <= i < |bkg| && 0 <= j < nx ==> MirrorEqual(bkg, nx, i, j)
  {
    var d := AbsDiffRot180(bkg, nx);
    SumZeroIff(d);
    var size := (|bkg| * nx) as real;
    assert size > 0.0;
    assert Sum(d) / size == 0.0 <==> Sum(d) == 0.0;
  }
}
