/**
 * The "postage stamp": a centroid-centred window into the full image, the
 * two exclusion masks built over it from the segmentation map, and the
 * zero-masked cutouts derived from them (`_slice_stamp`, `_mask_stamp`,
 * `_mask_stamp_no_bg`, `_cutout_stamp_maskzeroed*`).
 */
module Stamp {
  import opened Values
  import opened Grids

  /** A bounding box with inclusive corners, as the region-properties capability reports it. */
  datatype BBox = BBox(ymin: int, xmin: int, ymax: int, xmax: int)

  /** A pair of Python slices: rows [rowStart, rowStop), columns [colStart, colStop). */
  datatype Window = Window(rowStart: int, rowStop: int, colStart: int, colStop: int) {
    predicate Within(ny: nat, nx: nat) {
      0 <= rowStart <= rowStop <= ny && 0 <= colStart <= colStop <= nx
    }
  }

  predicate WellFormed(b: BBox) {
    b.ymin <= b.ymax && b.xmin <= b.xmax
  }

  /** Largest distance from the (integer) centroid to a side of the bounding box. */
  function BoxDistance(yc: int, xc: int, b: BBox): (d: int)
    ensures d >= b.xmax - xc && d >= xc - b.xmin && d >= b.ymax - yc && d >= yc - b.ymin
    ensures WellFormed(b) ==> d >= 0
  {
    Max(Max(b.xmax - xc, xc - b.xmin), Max(b.ymax - yc, yc - b.ymin))
  }

  /** int(dist * cutout_extent): truncation, not rounding. */
  function HalfSize(dist: int, cutoutExtent: real): int {
    Trunc(dist as real * cutoutExtent)
  }

  /** Enlarging by a factor of at least one never shrinks a non-negative distance. */
  lemma HalfSizeCoversDistance(dist: int, cutoutExtent: real)
    requires dist >= 0 && cutoutExtent >= 1.0
    ensures dist <= HalfSize(dist, cutoutExtent)
  {
    var d := dist as real;
    assert d * cutoutExtent - d == d * (cutoutExtent - 1.0);
    assert d * (cutoutExtent - 1.0) >= 0.0;
  }

  /**
   * The stamp window of `_slice_stamp`: `dist` around the truncated centroid,
   * clipped to the `ny` x `nx` image. The source asserts cutout_extent >= 1.
   */
  function SliceStamp(cy: real, cx: real, b: BBox, ny: nat, nx: nat, cutoutExtent: real): (w: Window)
    requires cutoutExtent >= 1.0
    ensures 0 <= w.rowStart && w.rowStop <= ny && 0 <= w.colStart && w.colStop <= nx
  {
    var yc, xc := Trunc(cy), Trunc(cx);
    var dist := HalfSize(BoxDistance(yc, xc, b), cutoutExtent);
    Window(Max(0, yc - dist), Min(ny, yc + dist + 1), Max(0, xc - dist), Min(nx, xc + dist + 1))
  }

  /**
   * For a well-formed bounding box the stamp covers every row and column of
   * the box that lies in the image, and it contains the centroid pixel when
   * that pixel is in the image.
   */
  lemma SliceStampCoversBox(cy: real, cx: real, b: BBox, ny: nat, nx: nat, cutoutExtent: real)
    requires cutoutExtent >= 1.0 && WellFormed(b)
    ensures var w := SliceStamp(cy, cx, b, ny, nx, cutoutExtent);
      && w.rowStart <= Max(0, b.ymin) && Min(ny, b.ymax + 1) <= w.rowStop
      && w.colStart <= Max(0, b.xmin) && Min(nx, b.xmax + 1) <= w.colStop
    ensures var w := SliceStamp(cy, cx, b, ny, nx, cutoutExtent);
      0 <= Trunc(cy) < ny && 0 <= Trunc(cx) < nx ==>
        w.Within(ny, nx) && w.rowStart <= Trunc(cy) < w.rowStop && w.colStart <= Trunc(cx) < w.colStop
  {
    var yc, xc := Trunc(cy), Trunc(cx);
    HalfSizeCoversDistance(BoxDistance(yc, xc, b), cutoutExtent);
  }

  /** The part of a grid under a window (numpy's `g[slice_stamp]`). */
  function SliceGrid<T>(g: seq<seq<T>>, ny: nat, nx: nat, w: Window): (r: seq<seq<T>>)
    requires IsGrid(g, ny, nx) && w.Within(ny, nx)
    ensures IsGrid(r, w.rowStop - w.rowStart, w.colStop - w.colStart)
    ensures forall i, j :: 0 <= i < w.rowStop - w.rowStart && 0 <= j < w.colStop - w.colStart ==>
      r[i][j] == g[w.rowStart + i][w.colStart + j]
  {
    seq(w.rowStop - w.rowStart, i requires 0 <= i < w.rowStop - w.rowStart =>
      g[w.rowStart + i][w.colStart..w.colStop])
  }

  /** `_mask_stamp`: other sources and explicitly masked pixels; the background stays unmasked. */
  function MaskStamp(seg: seq<seq<int>>, mask: seq<seq<bool>>, segLabel: int): (r: seq<seq<bool>>)
    requires SameShape(seg, mask)
    ensures SameShape(r, seg)
  {
    seq(|seg|, i requires 0 <= i < |seg| => seq(|seg[i]|, j requires 0 <= j < |seg[i]| =>
      (seg[i][j] != 0 && seg[i][j] != segLabel) || mask[i][j]))
  }

  /** `_mask_stamp_no_bg`: every pixel not of the label, and explicitly masked pixels. */
  function MaskStampNoBg(seg: seq<seq<int>>, mask: seq<seq<bool>>, segLabel: int): (r: seq<seq<bool>>)
    requires SameShape(seg, mask)
    ensures SameShape(r, seg)
  {
    seq(|seg|, i requires 0 <= i < |seg| => seq(|seg[i]|, j requires 0 <= j < |seg[i]| =>
      seg[i][j] != segLabel || mask[i][j]))
  }

  /**
   * For a positive label, the no-background mask contains the plain mask,
   * and a pixel is excluded by the former only when it is unmasked
   * background; a pixel survives the no-background mask exactly when it
   * carries the label and is not explicitly masked.
   */
  lemma MaskStampRelations(seg: seq<seq<int>>, mask: seq<seq<bool>>, segLabel: int)
    requires SameShape(seg, mask) && segLabel > 0
    ensures forall i, j :: 0 <= i < |seg| && 0 <= j < |seg[i]| ==>
      (MaskStamp(seg, mask, segLabel)[i][j] ==> MaskStampNoBg(seg, mask, segLabel)[i][j])
    ensures forall i, j :: 0 <= i < |seg| && 0 <= j < |seg[i]| ==>
      ((MaskStampNoBg(seg, mask, segLabel)[i][j] && !MaskStamp(seg, mask, segLabel)[i][j])
        <==> (seg[i][j] == 0 && !mask[i][j]))
    ensures forall i, j :: 0 <= i < |seg| && 0 <= j < |seg[i]| ==>
      (!MaskStampNoBg(seg, mask, segLabel)[i][j] <==> (seg[i][j] == segLabel && !mask[i][j]))
  {
  }

  /** np.where(~mask, img, 0.0): zero the excluded pixels. */
  function ZeroMasked(img: seq<seq<real>>, mask: seq<seq<bool>>): (r: seq<seq<real>>)
    requires SameShape(img, mask)
    ensures SameShape(r, img)
    ensures forall i, j :: 0 <= i < |img| && 0 <= j < |img[i]| ==>
      r[i][j] == (if mask[i][j] then 0.0 else img[i][j])
  {
    seq(|img|, i requires 0 <= i < |img| => seq(|img[i]|, j requires 0 <= j < |img[i]| =>
      if mask[i][j] then 0.0 else img[i][j]))
  }

  /** np.where(keep, img, 0.0): keep only the selected pixels. */
  function KeepWhere(img: seq<seq<real>>, keep: seq<seq<bool>>): (r: seq<seq<real>>)
    requires SameShape(img, keep)
    ensures SameShape(r, img)
    ensures forall i, j :: 0 <= i < |img| && 0 <= j < |img[i]| ==>
      r[i][j] == (if keep[i][j] then img[i][j] else 0.0)
  {
    seq(|img|, i requires 0 <= i < |img| => seq(|img[i]|, j requires 0 <= j < |img[i]| =>
      if keep[i][j] then img[i][j] else 0.0))
  }

  /** `_cutout_stamp_maskzeroed_no_bg_nonnegative`: negative pixels clamped to zero. */
  function ClampNonNegative(img: seq<seq<real>>): (r: seq<seq<real>>)
    ensures SameShape(r, img)
    ensures forall i, j :: 0 <= i < |img| && 0 <= j < |img[i]| ==>
      r[i][j] >= 0.0 && r[i][j] >= img[i][j] && (r[i][j] == img[i][j] || r[i][j] == 0.0)
  {
    seq(|img|, i requires 0 <= i < |img| => seq(|img[i]|, j requires 0 <= j < |img[i]| =>
      if img[i][j] > 0.0 then img[i][j] else 0.0))
  }

  /** `_cutout_stamp_maskzeroed`. */
  function CutoutMaskZeroed(data: seq<seq<real>>, seg: seq<seq<int>>, mask: seq<seq<bool>>, segLabel: int): (r: seq<seq<real>>)
    requires SameShape(data, seg) && SameShape(seg, mask)
    ensures SameShape(r, data)
  {
    ZeroMasked(data, MaskStamp(seg, mask, segLabel))
  }

  /** `_cutout_stamp_maskzeroed_no_bg`, built from the zero-masked cutout as the source does. */
  function CutoutNoBg(data: seq<seq<real>>, seg: seq<seq<int>>, mask: seq<seq<bool>>, segLabel: int): (r: seq<seq<real>>)
    requires SameShape(data, seg) && SameShape(seg, mask)
    ensures SameShape(r, data)
  {
    ZeroMasked(CutoutMaskZeroed(data, seg, mask, segLabel), MaskStampNoBg(seg, mask, segLabel))
  }

  /**
   * Zeroing twice is zeroing once with the larger mask: the no-background
   * cutout holds the original flux exactly on the unmasked pixels of the
   * label and zero elsewhere; the zero-masked cutout holds the original flux
   * on the label and on unmasked background.
   */
  lemma CutoutContents(data: seq<seq<real>>, seg: seq<seq<int>>, mask: seq<seq<bool>>, segLabel: int)
    requires SameShape(data, seg) && SameShape(seg, mask) && segLabel > 0
    ensures forall i, j :: 0 <= i < |data| && 0 <= j < |data[i]| ==>
      CutoutNoBg(data, seg, mask, segLabel)[i][j] ==
        (if seg[i][j] == segLabel && !mask[i][j] then data[i][j] else 0.0)
    ensures forall i, j :: 0 <= i < |data| && 0 <= j < |data[i]| ==>
      CutoutMaskZeroed(data, seg, mask, segLabel)[i][j] ==
        (if (seg[i][j] == segLabel || seg[i][j] == 0) && !mask[i][j] then data[i][j] else 0.0)
  {
  }

  /** The MID cutout `np.where(segmap_mid, nonnegative cutout, 0)` has no negative pixel, so its sum is non-negative. */
  lemma CutoutMidSumNonNegative(img: seq<seq<real>>, segmapMid: seq<seq<bool>>)
    requires SameShape(img, segmapMid)
    ensures forall i, j :: 0 <= i < |img| && 0 <= j < |img[i]| ==>
      KeepWhere(ClampNonNegative(img), segmapMid)[i][j] >= 0.0
    ensures Sum(KeepWhere(ClampNonNegative(img), segmapMid)) >= 0.0
  {
    SumNonNegative(KeepWhere(ClampNonNegative(img), segmapMid));
  }
}
