/**
 * The recursive labelling of one basin: a cell still without a label, and
 * every unlabelled cell whose flow path passes through it, gets the basin id.
 */
module WatershedBasins {
  import opened Grid
  import opened Drainage
  import opened WatershedDirections

  /** Label of a cell outside every basin; also the basin raster's no-data value. */
  const NoBasin := -1

  /**
   * Labels `m` agree with `taken` on the upslope area of `c`: exactly the
   * cells of `taken` carry a basin.
   */
  ghost predicate Agrees(d: Dem, m: map<Cell, int>, c: Cell, taken: set<Cell>)
  {
    forall a | d.z.InWindow(a) && Reaches(d, a, c) :: a in m && (m[a] != NoBasin <==> a in taken)
  }

  /** Within the upslope area of `c`, everything above a cell of `taken` is in `taken`. */
  ghost predicate ClosedUp(d: Dem, c: Cell, taken: set<Cell>)
  {
    forall a, b | a in taken && Reaches(d, a, c) && Reaches(d, b, a) && d.z.InWindow(b) :: b in taken
  }

  /** The cells of the upslope area of `c` already visited after the neighbours `0 .. i-1`. */
  ghost function Done(d: Dem, c: Cell, i: int): set<Cell>
    requires 0 <= i <= 8
  {
    Upslope(d, c) - Branches(d, c, i)
  }

  /** The rasters `getBasin` works on: the directions, and basins of the same shape. */
  ghost predicate Rasters(d: Dem, dirs: array2<int>, w: array2<int>)
    reads dirs
  {
    DirsOk(d, dirs) && Shaped(w, d) && dirs != w
  }

  /** The labels of `w` agree with `taken` above `c`, and `taken` is closed upslope. */
  ghost predicate Ready(d: Dem, w: array2<int>, c: Cell, taken: set<Cell>)
    reads w
  {
    Agrees(d, Snapshot(w), c, taken) && ClosedUp(d, c, taken)
  }

  /** The upslope area neighbour `i` adds to that of `c`: its own, if it drains into `c`. */
  ghost function Inflow(d: Dem, c: Cell, i: int): set<Cell>
  {
    if 0 <= i < 8 && Drains(d, c, i) then Upslope(d, Neighbour(c, i)) else {}
  }

  /**
   * After the neighbours `0 .. i-1` of `c`: labels `m` are `m0` with the
   * visited unlabelled cells painted `id`, and `n` counts what is visited.
   */
  ghost predicate Progress(d: Dem, m0: map<Cell, int>, m: map<Cell, int>, c: Cell, i: int, taken: set<Cell>, id: int, n: int)
  {
    0 <= i <= 8 && m == Paint(m0, Done(d, c, i) - taken, id)
      && n + |Branches(d, c, i) - taken| == |Upslope(d, c) - taken|
  }

  /**
   * `getBasin`: a window cell still without a basin gets label `id`, and so,
   * recursively, do the unlabelled neighbours draining into it.  `taken`
   * names the cells of the upslope area that already carry a label, and is
   * closed upslope.  Exactly the unlabelled cells of the upslope area get
   * `id`, and the result is their number.
   */
  method GetBasin(d: Dem, dirs: array2<int>, w: array2<int>, id: int, c: Cell, ghost taken: set<Cell>) returns (n: int)
    requires Rasters(d, dirs, w) && Ready(d, w, c, taken)
    modifies w
    ensures Snapshot(w) == Paint(old(Snapshot(w)), Upslope(d, c) - taken, id)
    ensures n == |Upslope(d, c) - taken|
    decreases Height(d, c), 3
  {
    var basin := ReadInt(w, c, NoBasin);
    var dir := ReadInt(dirs, c, DirNoData);
    if basin != NoBasin || dir == DirNoData {
      if d.z.InWindow(c) {
        assert Snapshot(w)[c] == basin;
      }
      NothingFree(d, c, taken);
      PaintNothing(Snapshot(w), id);
      return 0;
    }
    assert d.z.InWindow(c) && Snapshot(w)[c] == NoBasin;
    n := Expand(d, dirs, w, id, c, taken);
  }

  /** `getBasin` past its test: label `c` and visit the eight neighbours. */
  method Expand(d: Dem, dirs: array2<int>, w: array2<int>, id: int, c: Cell, ghost taken: set<Cell>) returns (n: int)
    requires Rasters(d, dirs, w) && Ready(d, w, c, taken) && d.z.InWindow(c) && c !in taken
    modifies w
    ensures Snapshot(w) == Paint(old(Snapshot(w)), Upslope(d, c) - taken, id)
    ensures n == |Upslope(d, c) - taken|
    decreases Height(d, c), 2
  {
    ghost var m0 := Snapshot(w);
    Store(w, c, id);
    n := 1;
    BasinStart(d, m0, c, taken, id);
    for i := 0 to 8
      invariant Rasters(d, dirs, w) && Progress(d, m0, Snapshot(w), c, i, taken, id, n)
    {
      var m := ExpandStep(d, dirs, w, id, c, i, taken, m0, n);
      n := n + m;
    }
    BasinEnd(d, m0, Snapshot(w), c, taken, id, n);
  }

  /** One turn of `getBasin`'s loop, with its bookkeeping. */
  method ExpandStep(d: Dem, dirs: array2<int>, w: array2<int>, id: int, c: Cell, i: int, ghost taken: set<Cell>,
                    ghost m0: map<Cell, int>, ghost n: int) returns (m: int)
    requires Rasters(d, dirs, w) && i < 8 && Progress(d, m0, Snapshot(w), c, i, taken, id, n)
    requires Agrees(d, m0, c, taken) && ClosedUp(d, c, taken)
    modifies w
    ensures Progress(d, m0, Snapshot(w), c, i + 1, taken, id, n + m)
    decreases Height(d, c), 1
  {
    ghost var mL := Snapshot(w);
    StepBefore(d, m0, c, i, taken, id);
    m := VisitNeighbour(d, dirs, w, id, c, i, taken);
    StepAfter(d, m0, mL, Snapshot(w), c, i, taken, id, n, m);
  }

  /** Before visiting neighbour `i`: what `getBasin` needs there holds. */
  lemma StepBefore(d: Dem, m0: map<Cell, int>, c: Cell, i: int, taken: set<Cell>, id: int)
    requires 0 <= i < 8 && Agrees(d, m0, c, taken) && ClosedUp(d, c, taken)
    ensures Drains(d, c, i) ==>
      Agrees(d, Paint(m0, Done(d, c, i) - taken, id), Neighbour(c, i), taken) && ClosedUp(d, Neighbour(c, i), taken)
  {
    if Drains(d, c, i) {
      DoneStep(d, c, i);
      NeighbourAgrees(d, m0, c, i, taken, id);
      BranchFree(d, c, i, taken);
    }
  }

  /** After visiting neighbour `i`: the progress moves on by one neighbour. */
  lemma StepAfter(d: Dem, m0: map<Cell, int>, mL: map<Cell, int>, m1: map<Cell, int>, c: Cell, i: int,
                  taken: set<Cell>, id: int, n: int, m: int)
    requires i < 8 && Progress(d, m0, mL, c, i, taken, id, n)
    requires m1 == Paint(mL, Inflow(d, c, i) - taken, id) && m == |Inflow(d, c, i) - taken|
    ensures Progress(d, m0, m1, c, i + 1, taken, id, n + m)
  {
    StepCount(d, c, i, taken);
    StepPaint(d, m0, c, i, taken, id);
  }

  /** The cells neighbour `i` adds are counted apart from the later branches. */
  lemma StepCount(d: Dem, c: Cell, i: int, taken: set<Cell>)
    requires 0 <= i < 8
    ensures |Branches(d, c, i) - taken| == |Inflow(d, c, i) - taken| + |Branches(d, c, i + 1) - taken|
  {
    if Drains(d, c, i) {
      BranchCount(d, c, i, taken);
    } else {
      assert Branches(d, c, i) == Branches(d, c, i + 1);
    }
  }

  /** Painting what neighbour `i` adds extends the painted visited part by one neighbour. */
  lemma StepPaint(d: Dem, m0: map<Cell, int>, c: Cell, i: int, taken: set<Cell>, id: int)
    requires 0 <= i < 8
    ensures Paint(Paint(m0, Done(d, c, i) - taken, id), Inflow(d, c, i) - taken, id)
         == Paint(m0, Done(d, c, i + 1) - taken, id)
  {
    DoneStep(d, c, i);
    PaintTwice(m0, Done(d, c, i) - taken, Inflow(d, c, i) - taken, id);
    assert (Done(d, c, i) - taken) + (Inflow(d, c, i) - taken) == Done(d, c, i + 1) - taken;
  }

  /** When all eight neighbours are visited, the whole upslope area is. */
  lemma BasinEnd(d: Dem, m0: map<Cell, int>, m: map<Cell, int>, c: Cell, taken: set<Cell>, id: int, n: int)
    requires Progress(d, m0, m, c, 8, taken, id, n)
    ensures m == Paint(m0, Upslope(d, c) - taken, id) && n == |Upslope(d, c) - taken|
  {
    assert Done(d, c, 8) == Upslope(d, c);
  }

  /** The labels of a draining neighbour's upslope area are still the original ones. */
  lemma NeighbourAgrees(d: Dem, m0: map<Cell, int>, c: Cell, i: int, taken: set<Cell>, id: int)
    requires 0 <= i < 8 && Drains(d, c, i) && Agrees(d, m0, c, taken)
    requires Done(d, c, i) !! Upslope(d, Neighbour(c, i))
    ensures Agrees(d, Paint(m0, Done(d, c, i) - taken, id), Neighbour(c, i), taken)
  {
    forall a | d.z.InWindow(a) && Reaches(d, a, Neighbour(c, i))
      ensures a in m0 && a !in Done(d, c, i) && Reaches(d, a, c)
    {
      ReachesThrough(d, a, c, i);
      InUpslope(d, a, Neighbour(c, i));
    }
  }

  /**
   * One turn of `getBasin`'s loop: neighbour `i` is expanded when it drains
   * into `c` and has no label yet.
   */
  method VisitNeighbour(d: Dem, dirs: array2<int>, w: array2<int>, id: int, c: Cell, i: int, ghost taken: set<Cell>)
    returns (m: int)
    requires Rasters(d, dirs, w) && 0 <= i < 8 && (Drains(d, c, i) ==> Ready(d, w, Neighbour(c, i), taken))
    modifies w
    ensures Snapshot(w) == Paint(old(Snapshot(w)), Inflow(d, c, i) - taken, id) && m == |Inflow(d, c, i) - taken|
    decreases Height(d, c), 0
  {
    var nb := Neighbour(c, i);
    StoredDrains(d, dirs, c, i);
    if ReadInt(dirs, nb, DirNoData) == i {
      DrainsUphill(d, c, i);
      if ReadInt(w, nb, NoBasin) == NoBasin {
        m := GetBasin(d, dirs, w, id, nb, taken);
        return;
      }
      Labelled(d, w, nb, taken);
    }
    PaintNothing(Snapshot(w), id);
    m := 0;
  }

  /** A neighbour that already carries a label leaves nothing to label. */
  lemma Labelled(d: Dem, w: array2<int>, c: Cell, taken: set<Cell>)
    requires Shaped(w, d) && Ready(d, w, c, taken) && ReadInt(w, c, NoBasin) != NoBasin
    ensures Upslope(d, c) - taken == {}
  {
    assert c == Cell(c.x, c.y) && Snapshot(w)[c] != NoBasin;
    NothingFree(d, c, taken);
  }

  /** A labelled or off-window cell leaves nothing to label. */
  lemma NothingFree(d: Dem, c: Cell, taken: set<Cell>)
    requires (!d.z.InWindow(c) || c in taken) && ClosedUp(d, c, taken)
    ensures Upslope(d, c) - taken == {}
  {
    forall a | a in Upslope(d, c)
      ensures a in taken
    {
      InUpslope(d, a, c);
      if a != c {
        ReachesDescends(d, a, c);
      }
    }
  }

  /** Labelling `c` itself starts the progress. */
  lemma BasinStart(d: Dem, m0: map<Cell, int>, c: Cell, taken: set<Cell>, id: int)
    requires d.z.InWindow(c) && c !in taken && Agrees(d, m0, c, taken)
    ensures Progress(d, m0, m0[c := id], c, 0, taken, id, 1)
  {
    UpslopeSplit(d, c);
    SplitOff(Upslope(d, c), Branches(d, c, 0), c, taken);
    PaintOne(m0, c, id);
  }

  /** A set made of `c` and a rest without `c`: taking the rest away leaves `c`, and the counts differ by one. */
  lemma SplitOff(u: set<Cell>, b: set<Cell>, c: Cell, taken: set<Cell>)
    requires u == {c} + b && c !in b && c !in taken
    ensures u - b - taken == {c}
    ensures |u - taken| == 1 + |b - taken|
  {
    DiffUnion({c}, b, taken);
    assert {c} - taken == {c};
  }

  /** Visiting neighbour `i` adds its upslope area, if it drains into `c`. */
  lemma DoneStep(d: Dem, c: Cell, i: int)
    requires 0 <= i < 8
    ensures Drains(d, c, i) ==> Done(d, c, i + 1) == Done(d, c, i) + Upslope(d, Neighbour(c, i))
    ensures Drains(d, c, i) ==> Done(d, c, i) !! Upslope(d, Neighbour(c, i))
    ensures !Drains(d, c, i) ==> Done(d, c, i + 1) == Done(d, c, i)
  {
    if Drains(d, c, i) {
      BranchDisjoint(d, c, i);
      var n := Neighbour(c, i);
      forall a | a in Upslope(d, n)
        ensures a in Upslope(d, c)
      {
        InUpslope(d, a, n);
        InUpslope(d, a, c);
        ReachesThrough(d, a, c, i);
      }
    }
  }

  /** The branch of draining neighbour `i` and the later branches are counted apart. */
  lemma BranchCount(d: Dem, c: Cell, i: int, taken: set<Cell>)
    requires 0 <= i < 8 && Drains(d, c, i)
    ensures |Branches(d, c, i) - taken| == |Upslope(d, Neighbour(c, i)) - taken| + |Branches(d, c, i + 1) - taken|
  {
    BranchDisjoint(d, c, i);
    DiffUnion(Upslope(d, Neighbour(c, i)), Branches(d, c, i + 1), taken);
  }

  /** Closure carries over to a draining neighbour. */
  lemma BranchFree(d: Dem, c: Cell, i: int, taken: set<Cell>)
    requires 0 <= i < 8 && Drains(d, c, i) && ClosedUp(d, c, taken)
    ensures ClosedUp(d, Neighbour(c, i), taken)
  {
    forall a | Reaches(d, a, Neighbour(c, i))
      ensures Reaches(d, a, c)
    {
      ReachesThrough(d, a, c, i);
    }
  }
}
