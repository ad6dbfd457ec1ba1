/**
 * The shape-asymmetry segmap pieces: forcing the brightest pixel into a
 * segmap, and `rmax`, the distance from the centre of the pixel that
 * minimises the asymmetry to the farthest pixel centre of the segmap.
 * Pixel centres sit at integer-plus-one-half positions and the centre is
 * snapped to floor(c) + 0.5, so every squared distance is an integer;
 * the model works with those squares (rmax itself is their square root).
 */
module Shape {
  import opened Values
  import opened Grids

  /** Squared distance between the centres of pixels (i, j) and (ic, jc). */
  function SqDist(i: int, j: int, ic: int, jc: int): nat {
    (i - ic) * (i - ic) + (j - jc) * (j - jc)
  }

  lemma SqDistZero(i: int, j: int, ic: int, jc: int)
    ensures SqDist(i, j, ic, jc) == 0 <==> i == ic && j == jc
  {
    if i != ic {
      assert (i - ic) * (i - ic) > 0;
    }
    if j != jc {
      assert (j - jc) * (j - jc) > 0;
    }
  }

  function MaxOf(a: Option<nat>, b: nat): (r: nat)
    ensures b <= r && (a.Some? ==> a.value <= r)
    ensures r == b || (a.Some? && r == a.value)
  {
    match a
    case None => b
    case Some(m) => if m < b then b else m
  }

  /** Largest `dist` of a true pixel of row `i`, if any. */
  function RowMax(row: seq<bool>, i: int, dist: (int, int) -> nat): (r: Option<nat>)
    ensures r.None? <==> forall j :: 0 <= j < |row| ==> !row[j]
    ensures r.Some? ==> exists j :: 0 <= j < |row| && row[j] && dist(i, j) == r.value
    ensures r.Some? ==> forall j :: 0 <= j < |row| && row[j] ==> dist(i, j) <= r.value
  {
    if |row| == 0 then None
    else
      var j := |row| - 1;
      var rest := RowMax(row[..j], i, dist);
      assert forall l :: 0 <= l < j ==> row[..j][l] == row[l];
      if !row[j] then rest else Some(MaxOf(rest, dist(i, j)))
  }

  /** A true pixel of the segmap. */
  predicate InSegmap(seg: seq<seq<bool>>, i: int, j: int) {
    0 <= i < |seg| && 0 <= j < |seg[i]| && seg[i][j]
  }

  /** Largest `dist` of a true pixel of the segmap, if any (`np.max` over the selected distances). */
  function GridMax(seg: seq<seq<bool>>, dist: (int, int) -> nat): Option<nat> {
    if |seg| == 0 then None
    else
      var i := |seg| - 1;
      match RowMax(seg[i], i, dist)
      case None => GridMax(seg[..i], dist)
      case Some(m) => Some(MaxOf(GridMax(seg[..i], dist), m))
  }

  /** GridMax is None for an empty segmap, and otherwise the largest distance attained. */
  lemma {:induction false} GridMaxIsMaximum(seg: seq<seq<bool>>, dist: (int, int) -> nat)
    ensures GridMax(seg, dist).None? <==> forall i, j :: !InSegmap(seg, i, j)
    ensures GridMax(seg, dist).Some? ==>
      exists i, j :: InSegmap(seg, i, j) && dist(i, j) == GridMax(seg, dist).value
    ensures GridMax(seg, dist).Some? ==>
      forall i, j :: InSegmap(seg, i, j) ==> dist(i, j) <= GridMax(seg, dist).value
  {
    if |seg| > 0 {
      var n := |seg| - 1;
      var front := seg[..n];
      GridMaxIsMaximum(front, dist);
      assert forall k, j :: InSegmap(front, k, j) <==> 0 <= k < n && InSegmap(seg, k, j);
      var rest := GridMax(front, dist);
      match RowMax(seg[n], n, dist) {
        case None =>
          assert forall j :: !InSegmap(seg, n, j);
        case Some(m) =>
          var j0 :| 0 <= j0 < |seg[n]| && seg[n][j0] && dist(n, j0) == m;
          assert InSegmap(seg, n, j0);
          if MaxOf(rest, m) != m {
            var i1, j1 :| InSegmap(front, i1, j1) && dist(i1, j1) == rest.value;
            assert InSegmap(seg, i1, j1);
          }
      }
    }
  }

  /** What `rmax` leaves behind: the squared distance, and whether it raised the flag. */
  datatype RmaxOutcome = RmaxOutcome(sqDist: nat, raised: bool)

  /**
   * `rmax` for the centre (xc, yc) of a non-empty segmap: the squared
   * distance to the farthest segmap pixel; the flag is raised when
   * rmax < 1, which happens only for rmax == 0.
   */
  function Rmax(seg: seq<seq<bool>>, yc: real, xc: real): (o: RmaxOutcome)
    requires exists i, j :: InSegmap(seg, i, j)
    ensures o.raised <==> o.sqDist == 0
    ensures forall i, j :: InSegmap(seg, i, j) ==> SqDist(i, j, yc.Floor, xc.Floor) <= o.sqDist
    ensures exists i, j :: InSegmap(seg, i, j) && SqDist(i, j, yc.Floor, xc.Floor) == o.sqDist
  {
    var dist := (i, j) => SqDist(i, j, yc.Floor, xc.Floor);
    GridMaxIsMaximum(seg, dist);
    match GridMax(seg, dist)
    case Some(d) => RmaxOutcome(d, d < 1)
  }

  /**
   * rmax is zero exactly when the centre pixel is the whole segmap; this
   * is the only way `rmax < 1` can happen.
   */
  lemma RmaxZeroIffOnlyCentre(seg: seq<seq<bool>>, yc: real, xc: real)
    requires exists i, j :: InSegmap(seg, i, j)
    ensures Rmax(seg, yc, xc).sqDist == 0 <==>
      InSegmap(seg, yc.Floor, xc.Floor) && forall i, j :: InSegmap(seg, i, j) ==> i == yc.Floor && j == xc.Floor
  {
    var ic, jc := yc.Floor, xc.Floor;
    var o := Rmax(seg, yc, xc);
    if o.sqDist == 0 {
      var i0, j0 :| InSegmap(seg, i0, j0) && SqDist(i0, j0, ic, jc) == 0;
      SqDistZero(i0, j0, ic, jc);
      forall i, j | InSegmap(seg, i, j)
        ensures i == ic && j == jc
      {
        SqDistZero(i, j, ic, jc);
      }
    } else {
      var i0, j0 :| InSegmap(seg, i0, j0) && SqDist(i0, j0, ic, jc) == o.sqDist;
      SqDistZero(i0, j0, ic, jc);
    }
  }

  /**
   * Forces the brightest pixel (ic, jc) into the segmap in place and tells
   * whether it had to be added (which raises the flag).
   */
  method ForceSeed(segmap: array2<bool>, ic: nat, jc: nat) returns (added: bool)
    requires ic < segmap.Length0 && jc < segmap.Length1
    modifies segmap
    ensures added == !old(segmap[ic, jc])
    ensures segmap[ic, jc]
    ensures forall i, j :: 0 <= i < segmap.Length0 && 0 <= j < segmap.Length1 && (i != ic || j != jc) ==>
      segmap[i, j] == old(segmap[i, j])
  {
    added := !segmap[ic, jc];
    if added {
      segmap[ic, jc] := true;
    }
  }
}
