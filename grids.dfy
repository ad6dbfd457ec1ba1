/**
 * Two-dimensional grids (images, masks, segmentation maps) as row-major
 * sequences of rows, with the reductions the morphology code applies to
 * them: pixel counts of boolean masks and flux sums of real images.
 */
module Grids {

  /** `g` has `ny` rows of `nx` columns each. */
  predicate IsGrid<T>(g: seq<seq<T>>, ny: nat, nx: nat) {
    |g| == ny && forall i :: 0 <= i < ny ==> |g[i]| == nx
  }

  predicate SameShape<T, U>(a: seq<seq<T>>, b: seq<seq<U>>) {
    |a| == |b| && forall i :: 0 <= i < |a| ==> |a[i]| == |b[i]|
  }

  /** Number of true entries of a row. */
  function CountRow(row: seq<bool>): (c: nat)
    ensures c <= |row|
  {
    if |row| == 0 then 0 else CountRow(row[..|row| - 1]) + (if row[|row| - 1] then 1 else 0)
  }

  /** Number of true pixels of a mask (numpy's sum of a boolean array). */
  function Count(g: seq<seq<bool>>): nat {
    if |g| == 0 then 0 else Count(g[..|g| - 1]) + CountRow(g[|g| - 1])
  }

  function SumRow(row: seq<real>): real {
    if |row| == 0 then 0.0 else SumRow(row[..|row| - 1]) + row[|row| - 1]
  }

  /** Sum of all pixel values of an image. */
  function Sum(g: seq<seq<real>>): real {
    if |g| == 0 then 0.0 else Sum(g[..|g| - 1]) + SumRow(g[|g| - 1])
  }

  /** The current contents of a two-dimensional array, as a grid value. */
  function Snapshot<T>(a: array2<T>): (g: seq<seq<T>>)
    reads a
    ensures IsGrid(g, a.Length0, a.Length1)
    ensures forall i, j :: 0 <= i < a.Length0 && 0 <= j < a.Length1 ==> g[i][j] == a[i, j]
  {
    seq(a.Length0, i requires 0 <= i < a.Length0 reads a =>
      seq(a.Length1, j requires 0 <= j < a.Length1 reads a => a[i, j]))
  }

  /** Pixelwise conjunction of two masks of the same shape. */
  function And(a: seq<seq<bool>>, b: seq<seq<bool>>): (r: seq<seq<bool>>)
    requires SameShape(a, b)
    ensures SameShape(r, a)
    ensures forall i, j :: 0 <= i < |a| && 0 <= j < |a[i]| ==> r[i][j] == (a[i][j] && b[i][j])
  {
    seq(|a|, i requires 0 <= i < |a| => seq(|a[i]|, j requires 0 <= j < |a[i]| => a[i][j] && b[i][j]))
  }

  /** The image turned by 180 degrees: rows and columns both reversed. */
  function Rot180(g: seq<seq<real>>, nx: nat): (r: seq<seq<real>>)
    requires IsGrid(g, |g|, nx)
    ensures IsGrid(r, |g|, nx)
    ensures forall i, j :: 0 <= i < |g| && 0 <= j < nx ==> r[i][j] == g[|g| - 1 - i][nx - 1 - j]
  {
    seq(|g|, i requires 0 <= i < |g| => seq(nx, j requires 0 <= j < nx => g[|g| - 1 - i][nx - 1 - j]))
  }

  lemma {:induction false} CountRowMonotone(a: seq<bool>, b: seq<bool>)
    requires |a| == |b|
    requires forall j :: 0 <= j < |a| && a[j] ==> b[j]
    ensures CountRow(a) <= CountRow(b)
  {
    if |a| > 0 {
      CountRowMonotone(a[..|a| - 1], b[..|b| - 1]);
    }
  }

  /** A mask contained pixelwise in another has no more pixels. */
  lemma {:induction false} CountMonotone(a: seq<seq<bool>>, b: seq<seq<bool>>)
    requires SameShape(a, b)
    requires forall i, j :: 0 <= i < |a| && 0 <= j < |a[i]| && a[i][j] ==> b[i][j]
    ensures Count(a) <= Count(b)
  {
    if |a| > 0 {
      var n := |a| - 1;
      CountMonotone(a[..n], b[..n]);
      CountRowMonotone(a[n], b[n]);
    }
  }

  lemma {:induction false} CountRowPositive(a: seq<bool>, j: nat)
    requires j < |a| && a[j]
    ensures CountRow(a) > 0
  {
    var n := |a| - 1;
    if j < n {
      CountRowPositive(a[..n], j);
    }
  }

  /** A mask with a true pixel has a positive count. */
  lemma {:induction false} CountPositive(a: seq<seq<bool>>, i: nat, j: nat)
    requires i < |a| && j < |a[i]| && a[i][j]
    ensures Count(a) > 0
  {
    var n := |a| - 1;
    if i < n {
      CountPositive(a[..n], i, j);
    } else {
      CountRowPositive(a[n], j);
    }
  }

  lemma {:induction false} CountRowZero(a: seq<bool>)
    requires forall j :: 0 <= j < |a| ==> !a[j]
    ensures CountRow(a) == 0
  {
    if |a| > 0 {
      CountRowZero(a[..|a| - 1]);
    }
  }

  /** A mask without true pixels counts zero. */
  lemma {:induction false} CountZero(a: seq<seq<bool>>)
    requires forall i, j :: 0 <= i < |a| && 0 <= j < |a[i]| ==> !a[i][j]
    ensures Count(a) == 0
  {
    if |a| > 0 {
      CountZero(a[..|a| - 1]);
      CountRowZero(a[|a| - 1]);
    }
  }

  lemma {:induction false} CountRowEqual(a: seq<bool>, b: seq<bool>)
    requires |a| == |b|
    requires forall j :: 0 <= j < |a| ==> a[j] == b[j]
    ensures CountRow(a) == CountRow(b)
  {
    assert a == b;
  }

  lemma {:induction false} CountRowSingle(a: seq<bool>, k: nat)
    requires k < |a|
    requires forall j :: 0 <= j < |a| ==> (a[j] <==> j == k)
    ensures CountRow(a) == 1
  {
    var n := |a| - 1;
    if k < n {
      CountRowSingle(a[..n], k);
    } else {
      CountRowZero(a[..n]);
    }
  }

  /** A mask whose only true pixel is (si, sj) counts one. */
  lemma {:induction false} CountSingle(a: seq<seq<bool>>, si: nat, sj: nat)
    requires si < |a| && sj < |a[si]|
    requires forall i, j :: 0 <= i < |a| && 0 <= j < |a[i]| ==> (a[i][j] <==> i == si && j == sj)
    ensures Count(a) == 1
  {
    var n := |a| - 1;
    if si < n {
      CountSingle(a[..n], si, sj);
      CountRowZero(a[n]);
    } else {
      CountZero(a[..n]);
      CountRowSingle(a[n], sj);
    }
  }

  lemma {:induction false} SumRowNonNegative(row: seq<real>)
    requires forall j :: 0 <= j < |row| ==> row[j] >= 0.0
    ensures SumRow(row) >= 0.0
  {
    if |row| > 0 {
      SumRowNonNegative(row[..|row| - 1]);
    }
  }

  /** An image with no negative pixel has a non-negative sum. */
  lemma {:induction false} SumNonNegative(g: seq<seq<real>>)
    requires forall i, j :: 0 <= i < |g| && 0 <= j < |g[i]| ==> g[i][j] >= 0.0
    ensures Sum(g) >= 0.0
  {
    if |g| > 0 {
      SumNonNegative(g[..|g| - 1]);
      SumRowNonNegative(g[|g| - 1]);
    }
  }
}
