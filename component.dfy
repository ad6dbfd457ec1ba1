/**
 * The last step of `_segmap_mid` and `_segmap_shape_asym`: label the
 * segmap with the 8-connected footprint and keep the component holding
 * the brightest pixel. The labelling is modelled by a flood fill from
 * that pixel, specified relationally: the result lies within the segmap,
 * holds the seed, is closed under 8-adjacency within the segmap, and lies
 * within every such closed set that holds the seed, so it is the least one.
 */
module Component {
  import opened Grids

  /** A pixel of the mask. */
  predicate InMask(g: seq<seq<bool>>, p: (int, int)) {
    0 <= p.0 < |g| && 0 <= p.1 < |g[p.0]| && g[p.0][p.1]
  }

  /** Distinct pixels that touch by an edge or a corner (the footprint of `generate_binary_structure(2, 2)`). */
  predicate Adjacent(p: (int, int), q: (int, int)) {
    p != q && -1 <= q.0 - p.0 <= 1 && -1 <= q.1 - p.1 <= 1
  }

  /** No pixel of the mask touching a pixel of S lies outside S. */
  ghost predicate Closed(g: seq<seq<bool>>, s: set<(int, int)>) {
    forall p, q :: p in s && InMask(g, q) && Adjacent(p, q) ==> q in s
  }

  /** All pixel positions of an ny x nx grid. */
  function Pixels(ny: nat, nx: nat): set<(int, int)> {
    set i: int, j: int | 0 <= i < ny && 0 <= j < nx :: (i, j)
  }

  /** The neighbour (p.0 + a, p.1 + b), if it is a mask pixel, is already in `marked`. */
  predicate NeighbourMarked(g: seq<seq<bool>>, marked: set<(int, int)>, p: (int, int), a: int, b: int) {
    InMask(g, (p.0 + a, p.1 + b)) ==> (p.0 + a, p.1 + b) in marked
  }

  lemma RemoveOne(s: set<(int, int)>, x: (int, int))
    requires x in s
    ensures |s - {x}| == |s| - 1
  {
    assert s == (s - {x}) + {x};
  }

  /** Marking a new pixel of the grid leaves fewer pixels unmarked. */
  lemma MarkingShrinksRest(ny: nat, nx: nat, marked: set<(int, int)>, q: (int, int))
    requires q in Pixels(ny, nx) && q !in marked
    ensures |Pixels(ny, nx) - (marked + {q})| == |Pixels(ny, nx) - marked| - 1
  {
    assert Pixels(ny, nx) - (marked + {q}) == (Pixels(ny, nx) - marked) - {q};
    RemoveOne(Pixels(ny, nx) - marked, q);
  }

  /**
   * A mask pixel next to a marked one lies in every closed set that holds
   * all marked pixels.
   */
  lemma ExtendLeast(g: seq<seq<bool>>, seed: (int, int), marked: set<(int, int)>, p: (int, int), q: (int, int))
    requires forall s {:trigger Closed(g, s)} :: Closed(g, s) && seed in s ==> marked <= s
    requires p in marked && InMask(g, q) && Adjacent(p, q)
    ensures forall s {:trigger Closed(g, s)} :: Closed(g, s) && seed in s ==> marked + {q} <= s
  {
    forall s | Closed(g, s) && seed in s
      ensures q in s
    {
      assert p in s;
    }
  }

  /** Every 8-neighbour of p lies at one of the offsets. */
  lemma ClosedFromOffsets(g: seq<seq<bool>>, marked: set<(int, int)>, p: (int, int))
    requires forall l :: 0 <= l < 9 ==> NeighbourMarked(g, marked, p, Offset(l).0, Offset(l).1)
    ensures forall q :: InMask(g, q) && Adjacent(p, q) ==> q in marked
  {
    forall q | InMask(g, q) && Adjacent(p, q)
      ensures q in marked
    {
      var l := 3 * (q.0 - p.0 + 1) + (q.1 - p.1 + 1);
      assert Offset(l) == (q.0 - p.0, q.1 - p.1);
      assert NeighbourMarked(g, marked, p, Offset(l).0, Offset(l).1);
    }
  }

  /**
   * The pixels marked so far: mask pixels of the grid, the seed among
   * them, all of them in every closed set holding the seed.
   */
  ghost predicate FillSet(g: seq<seq<bool>>, ny: nat, nx: nat, marked: set<(int, int)>, seed: (int, int)) {
    && (forall r :: r in marked ==> InMask(g, r))
    && marked <= Pixels(ny, nx)
    && seed in marked
    && (forall s {:trigger Closed(g, s)} :: Closed(g, s) && seed in s ==> marked <= s)
  }

  /** `comp` is an ny x nx array marking exactly the pixels of `marked`. */
  ghost predicate Marks(comp: array2<bool>, ny: nat, nx: nat, marked: set<(int, int)>)
    reads comp
  {
    && comp.Length0 == ny && comp.Length1 == nx
    && (forall i, j :: 0 <= i < ny && 0 <= j < nx ==> (comp[i, j] <==> (i, j) in marked))
  }

  /** Marking an unmarked mask pixel next to a marked one keeps the marked set least, and leaves fewer pixels unmarked. */
  lemma FillSetGrows(g: seq<seq<bool>>, ny: nat, nx: nat, marked: set<(int, int)>, seed: (int, int),
                     p: (int, int), q: (int, int))
    requires IsGrid(g, ny, nx) && FillSet(g, ny, nx, marked, seed)
    requires p in marked && InMask(g, q) && Adjacent(p, q) && q !in marked
    ensures FillSet(g, ny, nx, marked + {q}, seed)
    ensures |Pixels(ny, nx) - (marked + {q})| < |Pixels(ny, nx) - marked|
  {
    ExtendLeast(g, seed, marked, p, q);
    assert q in Pixels(ny, nx);
    MarkingShrinksRest(ny, nx, marked, q);
  }

  /** Marking more pixels keeps marked neighbours marked. */
  lemma NeighboursStayMarked(g: seq<seq<bool>>, m0: set<(int, int)>, m1: set<(int, int)>, p: (int, int))
    requires m0 <= m1
    ensures forall a, b :: NeighbourMarked(g, m0, p, a, b) ==> NeighbourMarked(g, m1, p, a, b)
  {
  }

  /**
   * Looks at the pixel (p.0 + a, p.1 + b) next to the marked pixel p:
   * marks it and queues it when it is an unmarked mask pixel.
   */
  method MarkNeighbour(g: seq<seq<bool>>, ny: nat, nx: nat, comp: array2<bool>, p: (int, int), a: int, b: int,
                       work: seq<(int, int)>, ghost marked: set<(int, int)>, ghost seed: (int, int))
    returns (work': seq<(int, int)>, ghost marked': set<(int, int)>)
    requires IsGrid(g, ny, nx) && FillSet(g, ny, nx, marked, seed) && Marks(comp, ny, nx, marked)
    requires p in marked && -1 <= a <= 1 && -1 <= b <= 1
    modifies comp
    ensures FillSet(g, ny, nx, marked', seed) && Marks(comp, ny, nx, marked')
    ensures NeighbourMarked(g, marked', p, a, b)
    ensures forall a', b' :: NeighbourMarked(g, marked, p, a', b') ==> NeighbourMarked(g, marked', p, a', b')
    ensures || (marked' == marked && work' == work)
            || (var q := (p.0 + a, p.1 + b);
                && q !in marked && marked' == marked + {q} && work' == work + [q]
                && |Pixels(ny, nx) - marked'| < |Pixels(ny, nx) - marked|)
  {
    work', marked' := work, marked;
    var q := (p.0 + a, p.1 + b);
    if 0 <= q.0 < ny && 0 <= q.1 < nx && g[q.0][q.1] && !comp[q.0, q.1] {
      FillSetGrows(g, ny, nx, marked, seed, p, q);
      NeighboursStayMarked(g, marked, marked + {q}, p);
      SetMark(comp, ny, nx, marked, q);
      marked' := marked + {q};
      work' := work + [q];
    }
  }

  /** Marks pixel q in the array, keeping it in step with the marked set. */
  method SetMark(comp: array2<bool>, ny: nat, nx: nat, ghost marked: set<(int, int)>, q: (int, int))
    requires Marks(comp, ny, nx, marked) && 0 <= q.0 < ny && 0 <= q.1 < nx
    modifies comp
    ensures Marks(comp, ny, nx, marked + {q})
  {
    comp[q.0, q.1] := true;
  }

  lemma AppendOne(x: seq<(int, int)>, y: seq<(int, int)>, q: (int, int))
    ensures (x + y) + [q] == x + (y + [q])
  {
  }

  /** The k-th of the nine offsets of the 3 x 3 footprint, row by row, the centre included. */
  function Offset(k: nat): (int, int) {
    (k / 3 - 1, k % 3 - 1)
  }

  /**
   * Visits the neighbours of the marked pixel p: afterwards every mask
   * pixel next to p is marked, and exactly the newly marked pixels were
   * queued after the old work list.
   */
  method VisitNeighbours(g: seq<seq<bool>>, ny: nat, nx: nat, comp: array2<bool>, p: (int, int),
                         work: seq<(int, int)>, ghost marked: set<(int, int)>, ghost seed: (int, int))
    returns (work': seq<(int, int)>, ghost marked': set<(int, int)>, ghost added: seq<(int, int)>)
    requires IsGrid(g, ny, nx) && FillSet(g, ny, nx, marked, seed) && Marks(comp, ny, nx, marked) && p in marked
    modifies comp
    ensures FillSet(g, ny, nx, marked', seed) && Marks(comp, ny, nx, marked')
    ensures marked <= marked'
    ensures work' == work + added
    ensures forall r :: r in added <==> r in marked' && r !in marked
    ensures forall q :: InMask(g, q) && Adjacent(p, q) ==> q in marked'
    ensures marked' == marked ==> added == []
    ensures marked' != marked ==> |Pixels(ny, nx) - marked'| < |Pixels(ny, nx) - marked|
  {
    work', marked', added := work, marked, [];
    for k := 0 to 9
      invariant FillSet(g, ny, nx, marked', seed) && Marks(comp, ny, nx, marked')
      invariant marked <= marked'
      invariant work' == work + added
      invariant forall r :: r in added <==> r in marked' && r !in marked
      invariant marked' == marked ==> added == []
      invariant forall l :: 0 <= l < k ==> NeighbourMarked(g, marked', p, Offset(l).0, Offset(l).1)
      invariant marked' != marked ==> |Pixels(ny, nx) - marked'| < |Pixels(ny, nx) - marked|
    {
      ghost var m0 := marked';
      var a, b := Offset(k).0, Offset(k).1;
      work', marked' := MarkNeighbour(g, ny, nx, comp, p, a, b, work', marked', seed);
      if marked' != m0 {
        var q := (p.0 + a, p.1 + b);
        AppendOne(work, added, q);
        added := added + [q];
      }
      forall l | 0 <= l < k + 1
        ensures NeighbourMarked(g, marked', p, Offset(l).0, Offset(l).1)
      {
        if l < k {
          assert NeighbourMarked(g, m0, p, Offset(l).0, Offset(l).1);
        }
      }
    }
    ClosedFromOffsets(g, marked', p);
  }

  /** Every mask pixel next to a marked pixel is marked, unless that marked pixel is still queued. */
  ghost predicate ClosedBeyond(g: seq<seq<bool>>, marked: set<(int, int)>, work: seq<(int, int)>) {
    forall r, q :: r in marked && InMask(g, q) && Adjacent(r, q) ==> q in marked || r in work
  }

  /** Visiting the neighbours of the popped pixel p restores `ClosedBeyond` for the new work list. */
  lemma ClosedBeyondStep(g: seq<seq<bool>>, before: set<(int, int)>, marked: set<(int, int)>, p: (int, int),
                         rest: seq<(int, int)>, added: seq<(int, int)>)
    requires ClosedBeyond(g, before, [p] + rest)
    requires before <= marked
    requires forall r :: r in added <==> r in marked && r !in before
    requires forall q :: InMask(g, q) && Adjacent(p, q) ==> q in marked
    ensures ClosedBeyond(g, marked, rest + added)
  {
    forall r, q | r in marked && InMask(g, q) && Adjacent(r, q)
      ensures q in marked || r in rest + added
    {
      if r !in before {
        assert r in added;
      } else if r != p && q !in before {
        assert r in [p] + rest;
        assert r in rest;
      }
    }
  }

  /**
   * One round of the fill: pops the first queued pixel and marks and
   * queues its unmarked mask neighbours. Either more pixels are marked or
   * the queue is shorter.
   */
  method FillStep(g: seq<seq<bool>>, ny: nat, nx: nat, comp: array2<bool>, work: seq<(int, int)>,
                  ghost marked: set<(int, int)>, ghost seed: (int, int))
    returns (work': seq<(int, int)>, ghost marked': set<(int, int)>)
    requires IsGrid(g, ny, nx) && FillSet(g, ny, nx, marked, seed) && Marks(comp, ny, nx, marked)
    requires |work| > 0 && (forall r :: r in work ==> r in marked) && ClosedBeyond(g, marked, work)
    modifies comp
    ensures FillSet(g, ny, nx, marked', seed) && Marks(comp, ny, nx, marked')
    ensures (forall r :: r in work' ==> r in marked') && ClosedBeyond(g, marked', work')
    ensures || |Pixels(ny, nx) - marked'| < |Pixels(ny, nx) - marked|
            || (marked' == marked && |work'| < |work|)
  {
    var p := work[0];
    var rest := work[1..];
    assert work == [p] + rest;
    ghost var added;
    work', marked', added := VisitNeighbours(g, ny, nx, comp, p, rest, marked, seed);
    ClosedBeyondStep(g, marked, marked', p, rest, added);
  }

  /**
   * `labeled_array == labeled_array[ic, jc]` for the 8-connected labelling
   * of a segmap holding the seed (ic, jc): a flood fill from the seed.
   */
  method SeedComponent(g: seq<seq<bool>>, ny: nat, nx: nat, ic: nat, jc: nat) returns (comp: array2<bool>)
    requires IsGrid(g, ny, nx) && ic < ny && jc < nx && g[ic][jc]
    ensures fresh(comp)
    ensures comp.Length0 == ny && comp.Length1 == nx
    ensures comp[ic, jc]
    ensures forall i, j :: 0 <= i < ny && 0 <= j < nx && comp[i, j] ==> g[i][j]
    ensures forall i, j, k, l ::
      (0 <= i < ny && 0 <= j < nx && 0 <= k < ny && 0 <= l < nx &&
       comp[i, j] && g[k][l] && Adjacent((i, j), (k, l))) ==> comp[k, l]
    ensures forall s {:trigger Closed(g, s)} :: Closed(g, s) && (ic, jc) in s ==>
      forall i, j :: 0 <= i < ny && 0 <= j < nx && comp[i, j] ==> (i, j) in s
  {
    ghost var seed: (int, int) := (ic, jc);
    comp := new bool[ny, nx]((i, j) => false);
    comp[ic, jc] := true;
    var work: seq<(int, int)> := [(ic, jc)];
    ghost var marked: set<(int, int)> := {seed};
    while |work| > 0
      invariant FillSet(g, ny, nx, marked, seed) && Marks(comp, ny, nx, marked)
      invariant forall r :: r in work ==> r in marked
      invariant ClosedBeyond(g, marked, work)
      decreases |Pixels(ny, nx) - marked|, |work|
    {
      work, marked := FillStep(g, ny, nx, comp, work, marked, seed);
    }
    ComponentProperties(g, ny, nx, comp, marked, seed);
  }

  /** The finished fill, read on the array. */
  lemma ComponentProperties(g: seq<seq<bool>>, ny: nat, nx: nat, comp: array2<bool>,
                            marked: set<(int, int)>, seed: (int, int))
    requires IsGrid(g, ny, nx) && FillSet(g, ny, nx, marked, seed) && Marks(comp, ny, nx, marked)
    requires ClosedBeyond(g, marked, [])
    ensures forall i, j :: 0 <= i < ny && 0 <= j < nx && comp[i, j] ==> g[i][j]
    ensures forall i, j, k, l ::
      (0 <= i < ny && 0 <= j < nx && 0 <= k < ny && 0 <= l < nx &&
       comp[i, j] && g[k][l] && Adjacent((i, j), (k, l))) ==> comp[k, l]
    ensures forall s {:trigger Closed(g, s)} :: Closed(g, s) && seed in s ==>
      forall i, j :: 0 <= i < ny && 0 <= j < nx && comp[i, j] ==> (i, j) in s
  {
    forall i, j | 0 <= i < ny && 0 <= j < nx && comp[i, j]
      ensures g[i][j]
    {
      assert InMask(g, (i, j));
    }
    forall i, j, k, l | 0 <= i < ny && 0 <= j < nx && 0 <= k < ny && 0 <= l < nx &&
                        comp[i, j] && g[k][l] && Adjacent((i, j), (k, l))
      ensures comp[k, l]
    {
      assert InMask(g, (k, l));
    }
  }
}
