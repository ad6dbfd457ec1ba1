/**
 * Outlier ("bad pixel") removal of `_remove_badpixels`: every pixel is
 * compared with the mean and variance of its eight neighbours in the
 * ORIGINAL image; outliers are then set to zero in place and counted.
 *
 * The neighbourhood statistics are the convolution with the 3 x 3 kernel of
 * eights with a zero centre, under scipy.ndimage's default 'reflect'
 * boundary (an index one step outside the image reads the edge pixel).
 * The source's test |x - mean| > n * sqrt(var) is stated on squares.
 */
module BadPixels {
  import opened Grids

  /** 'reflect' boundary for a one-pixel overhang: -1 reads 0 and n reads n - 1. */
  function Reflect(k: int, n: nat): (r: nat)
    requires n > 0 && -1 <= k <= n
    ensures r < n
    ensures 0 <= k < n ==> r == k
    ensures k == -1 ==> r == 0
    ensures k == n ==> r == n - 1
  {
    if k < 0 then 0 else if k >= n then n - 1 else k
  }

  /** The value read for the neighbour at offset (di, dj) of pixel (i, j). */
  function Neighbour(g: seq<seq<real>>, ny: nat, nx: nat, i: nat, j: nat, di: int, dj: int): real
    requires IsGrid(g, ny, nx) && i < ny && j < nx
    requires -1 <= di <= 1 && -1 <= dj <= 1
  {
    g[Reflect(i + di, ny)][Reflect(j + dj, nx)]
  }

  /** Sum of the eight neighbours (the kernel's zero centre excludes the pixel itself). */
  function LocalSum(g: seq<seq<real>>, ny: nat, nx: nat, i: nat, j: nat): real
    requires IsGrid(g, ny, nx) && i < ny && j < nx
  {
    Neighbour(g, ny, nx, i, j, -1, -1) + Neighbour(g, ny, nx, i, j, -1, 0) + Neighbour(g, ny, nx, i, j, -1, 1)
    + Neighbour(g, ny, nx, i, j, 0, -1) + Neighbour(g, ny, nx, i, j, 0, 1)
    + Neighbour(g, ny, nx, i, j, 1, -1) + Neighbour(g, ny, nx, i, j, 1, 0) + Neighbour(g, ny, nx, i, j, 1, 1)
  }

  function Sq(x: real): real {
    x * x
  }

  /** Sum of the squares of the eight neighbours (the convolution of image**2). */
  function LocalSumSq(g: seq<seq<real>>, ny: nat, nx: nat, i: nat, j: nat): real
    requires IsGrid(g, ny, nx) && i < ny && j < nx
  {
    Sq(Neighbour(g, ny, nx, i, j, -1, -1)) + Sq(Neighbour(g, ny, nx, i, j, -1, 0)) + Sq(Neighbour(g, ny, nx, i, j, -1, 1))
    + Sq(Neighbour(g, ny, nx, i, j, 0, -1)) + Sq(Neighbour(g, ny, nx, i, j, 0, 1))
    + Sq(Neighbour(g, ny, nx, i, j, 1, -1)) + Sq(Neighbour(g, ny, nx, i, j, 1, 0)) + Sq(Neighbour(g, ny, nx, i, j, 1, 1))
  }

  /**
   * |x - mean| > nSigma * sqrt(mean2 - mean^2), evaluated without a square
   * root. A negative variance would make the square root NaN and the
   * comparison false; for nSigma < 0 the right-hand side is negative, or
   * zero when the variance is zero.
   */
  predicate IsOutlier(x: real, mean: real, mean2: real, nSigma: real) {
    var variance := mean2 - mean * mean;
    variance >= 0.0 &&
    if nSigma >= 0.0 then (x - mean) * (x - mean) > nSigma * nSigma * variance
    else variance > 0.0 || x != mean
  }

  predicate OutlierAt(g: seq<seq<real>>, ny: nat, nx: nat, nSigma: real, i: nat, j: nat)
    requires IsGrid(g, ny, nx) && i < ny && j < nx
  {
    IsOutlier(g[i][j], LocalSum(g, ny, nx, i, j) / 8.0, LocalSumSq(g, ny, nx, i, j) / 8.0, nSigma)
  }

  /** `bad_pixels`: the outlier decision for every pixel, all taken on the original image. */
  function OutlierMask(g: seq<seq<real>>, ny: nat, nx: nat, nSigma: real): (bad: seq<seq<bool>>)
    requires IsGrid(g, ny, nx)
    ensures IsGrid(bad, ny, nx)
    ensures forall i, j :: 0 <= i < ny && 0 <= j < nx ==> bad[i][j] == OutlierAt(g, ny, nx, nSigma, i, j)
  {
    seq(ny, i requires 0 <= i < ny => seq(nx, j requires 0 <= j < nx => OutlierAt(g, ny, nx, nSigma, i, j)))
  }

  /**
   * `_remove_badpixels`: zero, in place, every pixel that is an outlier with
   * respect to the original image, and return how many there were.
   */
  method RemoveBadPixels(image: array2<real>, nSigma: real) returns (numBadPixels: nat)
    modifies image
    ensures var bad := OutlierMask(old(Snapshot(image)), image.Length0, image.Length1, nSigma);
      && numBadPixels == Count(bad)
      && forall i, j :: 0 <= i < image.Length0 && 0 <= j < image.Length1 ==>
           image[i, j] == (if bad[i][j] then 0.0 else old(image[i, j]))
  {
    var bad := OutlierMask(Snapshot(image), image.Length0, image.Length1, nSigma);
    numBadPixels := ZeroSelected(image, bad);
  }

  /** `image[bad_pixels] = 0.0` followed by `np.sum(bad_pixels)`. */
  method ZeroSelected(image: array2<real>, bad: seq<seq<bool>>) returns (count: nat)
    requires IsGrid(bad, image.Length0, image.Length1)
    modifies image
    ensures count == Count(bad)
    ensures forall i, j :: 0 <= i < image.Length0 && 0 <= j < image.Length1 ==>
      image[i, j] == (if bad[i][j] then 0.0 else old(image[i, j]))
  {
    var ny, nx := image.Length0, image.Length1;
    count := 0;
    var i := 0;
    while i < ny
      invariant 0 <= i <= ny
      invariant count == Count(bad[..i])
      invariant forall r, c :: 0 <= r < ny && 0 <= c < nx ==>
        image[r, c] == (if r < i && bad[r][c] then 0.0 else old(image[r, c]))
    {
      var rowCount := 0;
      var j := 0;
      while j < nx
        invariant 0 <= j <= nx
        invariant rowCount == CountRow(bad[i][..j])
        invariant forall r, c :: 0 <= r < ny && 0 <= c < nx ==>
          image[r, c] == (if (r < i || (r == i && c < j)) && bad[r][c] then 0.0 else old(image[r, c]))
      {
        if bad[i][j] {
          image[i, j] := 0.0;
          rowCount := rowCount + 1;
        }
        assert bad[i][..j + 1][..j] == bad[i][..j];
        j := j + 1;
      }
      assert bad[i][..nx] == bad[i];
      assert bad[..i + 1][..i] == bad[..i];
      count := count + rowCount;
      i := i + 1;
    }
    assert bad[..ny] == bad;
  }

  /** A flat image has no outliers, so removal changes nothing. */
  lemma FlatImageHasNoOutliers(g: seq<seq<real>>, ny: nat, nx: nat, c: real, nSigma: real)
    requires IsGrid(g, ny, nx)
    requires forall i, j :: 0 <= i < ny && 0 <= j < nx ==> g[i][j] == c
    ensures forall i, j :: 0 <= i < ny && 0 <= j < nx ==> !OutlierMask(g, ny, nx, nSigma)[i][j]
    ensures Count(OutlierMask(g, ny, nx, nSigma)) == 0
  {
    forall i, j | 0 <= i < ny && 0 <= j < nx
      ensures !OutlierAt(g, ny, nx, nSigma, i, j)
    {
      assert LocalSum(g, ny, nx, i, j) == 8.0 * c;
      assert LocalSumSq(g, ny, nx, i, j) == 8.0 * (c * c);
    }
    CountZero(OutlierMask(g, ny, nx, nSigma));
  }

  /** The spike itself: neighbours all at the background level, so the variance is zero. */
  lemma SpikeCentreIsOutlier(c: real, h: real, nSigma: real)
    requires h != 0.0
    ensures IsOutlier(c + h, 8.0 * c / 8.0, 8.0 * (c * c) / 8.0, nSigma)
  {
    var m, m2 := 8.0 * c / 8.0, 8.0 * (c * c) / 8.0;
    assert m == c && m2 == c * c;
    assert m2 - m * m == 0.0;
    assert (c + h - m) * (c + h - m) == h * h;
    assert IsOutlier(c + h, m, m2, nSigma);
  }

  /**
   * A background pixel next to the spike: one neighbour out of eight is
   * raised by h, giving mean c + h/8 and variance 7 h^2 / 64, while the
   * pixel deviates by only h/8; with nSigma >= 1 this is no outlier.
   */
  lemma SpikeNeighbourIsNotOutlier(c: real, h: real, nSigma: real)
    requires nSigma >= 1.0
    ensures !IsOutlier(c, (8.0 * c + h) / 8.0, (7.0 * (c * c) + (c + h) * (c + h)) / 8.0, nSigma)
  {
    var m := (8.0 * c + h) / 8.0;
    var m2 := (7.0 * (c * c) + (c + h) * (c + h)) / 8.0;
    assert m == c + h / 8.0;
    assert m * m == c * c + c * h / 4.0 + h * h / 64.0;
    assert m2 == c * c + c * h / 4.0 + h * h / 8.0;
    var variance := m2 - m * m;
    assert variance == 7.0 * (h * h) / 64.0;
    assert (c - m) * (c - m) == h * h / 64.0;
    assert nSigma * nSigma >= 1.0 by {
      assert nSigma * nSigma - 1.0 == (nSigma - 1.0) * (nSigma + 1.0);
    }
    assert h * h >= 0.0;
    assert nSigma * nSigma * variance >= variance by {
      assert nSigma * nSigma * variance - variance == (nSigma * nSigma - 1.0) * variance;
    }
  }

  /** In an image equal to c except for (si, sj), that pixel's neighbour at (di, dj). */
  lemma SpikeNeighbourValue(g: seq<seq<real>>, ny: nat, nx: nat, si: nat, sj: nat, c: real, h: real,
                            i: nat, j: nat, di: int, dj: int)
    requires IsGrid(g, ny, nx) && 1 <= si < ny - 1 && 1 <= sj < nx - 1
    requires forall r, k :: 0 <= r < ny && 0 <= k < nx ==> g[r][k] == if r == si && k == sj then c + h else c
    requires i < ny && j < nx && -1 <= di <= 1 && -1 <= dj <= 1
    ensures Neighbour(g, ny, nx, i, j, di, dj) == if i + di == si && j + dj == sj then c + h else c
  {
  }

  /** The outlier decision at one pixel of the spike image. */
  lemma SpikeOutlierAt(g: seq<seq<real>>, ny: nat, nx: nat, si: nat, sj: nat, c: real, h: real, nSigma: real,
                       i: nat, j: nat)
    requires IsGrid(g, ny, nx) && 1 <= si < ny - 1 && 1 <= sj < nx - 1
    requires forall r, k :: 0 <= r < ny && 0 <= k < nx ==> g[r][k] == if r == si && k == sj then c + h else c
    requires h != 0.0 && nSigma >= 1.0
    requires i < ny && j < nx
    ensures OutlierAt(g, ny, nx, nSigma, i, j) <==> i == si && j == sj
  {
    forall di, dj | -1 <= di <= 1 && -1 <= dj <= 1
      ensures Neighbour(g, ny, nx, i, j, di, dj) == if i + di == si && j + dj == sj then c + h else c
    {
      SpikeNeighbourValue(g, ny, nx, si, sj, c, h, i, j, di, dj);
    }
    var s1, s2 := LocalSum(g, ny, nx, i, j), LocalSumSq(g, ny, nx, i, j);
    if i == si && j == sj {
      assert s1 == 8.0 * c && s2 == 8.0 * (c * c);
      SpikeCentreIsOutlier(c, h, nSigma);
    } else if -1 <= si - i <= 1 && -1 <= sj - j <= 1 {
      assert s1 == 8.0 * c + h && s2 == 7.0 * (c * c) + (c + h) * (c + h);
      SpikeNeighbourIsNotOutlier(c, h, nSigma);
    } else {
      assert s1 == 8.0 * c && s2 == 8.0 * (c * c);
      assert g[i][j] == c;
    }
  }

  /**
   * A single pixel raised by h != 0 above a flat background, away from the
   * image border, is the one and only outlier for any nSigma >= 1: removal
   * zeroes exactly that pixel and counts one.
   */
  lemma IsolatedSpikeIsSoleOutlier(g: seq<seq<real>>, ny: nat, nx: nat, si: nat, sj: nat, c: real, h: real, nSigma: real)
    requires IsGrid(g, ny, nx) && 1 <= si < ny - 1 && 1 <= sj < nx - 1
    requires forall r, k :: 0 <= r < ny && 0 <= k < nx ==> g[r][k] == if r == si && k == sj then c + h else c
    requires h != 0.0 && nSigma >= 1.0
    ensures forall i, j :: 0 <= i < ny && 0 <= j < nx ==>
      (OutlierMask(g, ny, nx, nSigma)[i][j] <==> i == si && j == sj)
    ensures Count(OutlierMask(g, ny, nx, nSigma)) == 1
  {
    forall i, j | 0 <= i < ny && 0 <= j < nx
      ensures OutlierAt(g, ny, nx, nSigma, i, j) <==> i == si && j == sj
    {
      SpikeOutlierAt(g, ny, nx, si, sj, c, h, nSigma, i, j);
    }
    CountSingle(OutlierMask(g, ny, nx, nSigma), si, sj);
  }
}
