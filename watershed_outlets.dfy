/**
 * The outlets of watershed labelling: every river cell at the border of the
 * channel network, every user-defined outlet, and every branch above a
 * junction of the network.
 */
module WatershedOutlets {
  import opened Grid
  import opened Drainage
  import opened Cells
  import opened WatershedDirections

  /** Neighbour `i` holds direction `i` in `ds` and a positive network value. */
  predicate RiverInflow(net: Layer<int>, ds: map<Cell, int>, c: Cell, i: int)
  {
    0 <= i < 8 && DirAt(ds, Neighbour(c, i)) == i && net.Get(Neighbour(c, i)) > 0 && !net.IsNoData(net.Get(Neighbour(c, i)))
  }

  /** Neighbour `i` is a river cell whose D8 successor is `c`. */
  predicate RiverBranch(d: Dem, net: Layer<int>, c: Cell, i: int)
  {
    0 <= i < 8 && Drains(d, c, i) && net.Get(Neighbour(c, i)) > 0 && !net.IsNoData(net.Get(Neighbour(c, i)))
  }

  /** The neighbours `addOutlet` finds upslope are the river cells draining into `c`. */
  lemma InflowIsBranch(d: Dem, net: Layer<int>, ds: map<Cell, int>, c: Cell, i: int)
    requires DirsMap(d, ds)
    ensures RiverInflow(net, ds, c, i) <==> RiverBranch(d, net, c, i)
  {
    if 0 <= i < 8 {
      MapDrains(d, ds, c, i);
    }
  }

  /** The upslope river neighbours of `c` among directions `0 .. k-1`, in direction order. */
  function UpRivers(net: Layer<int>, ds: map<Cell, int>, c: Cell, k: nat): seq<Cell>
  {
    Select(i => RiverInflow(net, ds, c, i), i => if 0 <= i < 8 then Neighbour(c, i) else c, k)
  }

  /** Direction `i` extends the list by its neighbour when that is an upslope river cell. */
  lemma UpRiversStep(net: Layer<int>, ds: map<Cell, int>, c: Cell, i: int)
    requires 0 <= i < 8
    ensures UpRivers(net, ds, c, i + 1) == UpRivers(net, ds, c, i) + if RiverInflow(net, ds, c, i) then [Neighbour(c, i)] else []
  {
  }

  /** The outlet record of a cell: its position and its elevation. */
  function Entry(z: Layer<real>, c: Cell): GridCell
  {
    GridCell(c.x, c.y, z.Get(c))
  }

  function Entries(z: Layer<real>, s: seq<Cell>): (r: seq<GridCell>)
    ensures |r| == |s| && forall k | 0 <= k < |s| :: r[k] == Entry(z, s[k])
  {
    if |s| == 0 then [] else Entries(z, s[..|s| - 1]) + [Entry(z, s[|s| - 1])]
  }

  /** The positions of a list of outlet records. */
  function Positions(r: seq<GridCell>): (p: seq<Cell>)
    ensures |p| == |r| && forall k | 0 <= k < |r| :: p[k] == r[k].Pos()
  {
    seq(|r|, k requires 0 <= k < |r| => r[k].Pos())
  }

  /**
   * The outlets of a junction with upslope river neighbours `ups`: none for
   * a single branch; otherwise all of them, the first one recorded with the
   * junction's own elevation.
   */
  function JunctionOutlets(z: Layer<real>, c: Cell, ups: seq<Cell>): seq<GridCell>
  {
    if |ups| <= 1 then [] else [GridCell(ups[0].x, ups[0].y, z.Get(c))] + Entries(z, ups[1..])
  }

  /**
   * The outlets `addOutlet` appends for cell `c`, reading directions from
   * `ds`.  For a window cell the stored direction is at least -1, so the
   * neighbour index `(dir + 4) % 8` is the same under Java's remainder.
   */
  function CellOutlets(z: Layer<real>, net: Layer<int>, ds: map<Cell, int>, c: Cell): seq<GridCell>
  {
    var v := net.Get(c);
    var dir := DirAt(ds, c);
    if !IsRiver(net, v) then []
    else if !IsRiver(net, net.Get(Neighbour(c, (dir + 4) % 8))) || v < 0 || (dir == -1 && !z.IsNoData(z.Get(c))) then
      [Entry(z, c)]
    else JunctionOutlets(z, c, UpRivers(net, ds, c, 8))
  }

  /**
   * The junction rule: two or more branches give one outlet per branch, in
   * order, the first at the junction's elevation and the others at their
   * own; a single branch gives none.
   */
  lemma JunctionShape(z: Layer<real>, c: Cell, ups: seq<Cell>)
    ensures var r := JunctionOutlets(z, c, ups);
      && (|ups| <= 1 ==> r == [])
      && (|ups| > 1 ==>
            Positions(r) == ups && r[0].value == z.Get(c) && forall k | 1 <= k < |r| :: r[k].value == z.Get(r[k].Pos()))
  {
    if |ups| > 1 {
      var r := JunctionOutlets(z, c, ups);
      forall k | 1 <= k < |r|
        ensures r[k] == Entry(z, ups[k])
      {
        assert r[k] == Entries(z, ups[1..])[k - 1];
      }
    }
  }

  /** One more upslope river neighbour: what the junction rule adds for it. */
  lemma JunctionStep(z: Layer<real>, c: Cell, ups: seq<Cell>, u: Cell)
    ensures JunctionOutlets(z, c, ups + [u]) == JunctionOutlets(z, c, ups) +
      if |ups| == 0 then [] else if |ups| == 1 then [GridCell(ups[0].x, ups[0].y, z.Get(c)), Entry(z, u)] else [Entry(z, u)]
  {
    if |ups| >= 1 {
      assert (ups + [u])[0] == ups[0];
      assert (ups + [u])[1..] == ups[1..] + [u];
      EntriesSnoc(z, ups[1..], u);
    }
  }

  lemma EntriesSnoc(z: Layer<real>, s: seq<Cell>, u: Cell)
    ensures Entries(z, s + [u]) == Entries(z, s) + [Entry(z, u)]
  {
    assert (s + [u])[..|s|] == s;
  }

  /** `addOutlet` for a window cell. */
  method AddOutlet(z: Layer<real>, net: Layer<int>, dirs: array2<int>, c: Cell, outlets: seq<GridCell>) returns (outlets': seq<GridCell>)
    requires dirs.Length0 == z.nx && dirs.Length1 == z.ny && z.InWindow(c)
    ensures outlets' == outlets + CellOutlets(z, net, Snapshot(dirs), c)
  {
    var network := net.Get(c);
    var dir := dirs[c.x, c.y];
    ghost var ds := Snapshot(dirs);
    ReadSnapshot(dirs, c, DirNoData);
    assert dir == DirAt(ds, c);
    OwnOutlet(z, net, ds, c);
    var dz := z.Get(c);
    var nextNetwork := net.Get(Neighbour(c, (dir + 4) % 8));
    if net.IsNoData(network) || network == 0 {
      outlets' := outlets;
    } else if net.IsNoData(nextNetwork) || nextNetwork == 0 {
      outlets' := outlets + [GridCell(c.x, c.y, dz)];
    } else if network < 0 {
      outlets' := outlets + [GridCell(c.x, c.y, dz)];
    } else if dir == -1 && !z.IsNoData(dz) {
      outlets' := outlets + [GridCell(c.x, c.y, dz)];
    } else {
      JunctionCase(z, net, ds, c);
      outlets' := JunctionScan(z, net, dirs, c, outlets);
    }
  }

  /** The loop of `addOutlet` over the eight neighbours of a junction. */
  method JunctionScan(z: Layer<real>, net: Layer<int>, dirs: array2<int>, c: Cell, outlets: seq<GridCell>) returns (outlets': seq<GridCell>)
    ensures outlets' == outlets + JunctionOutlets(z, c, UpRivers(net, Snapshot(dirs), c, 8))
  {
    var upX, upY, upZ, count := 0, 0, 0.0, 0;
    outlets' := outlets;
    for i := 0 to 8
      invariant count == |UpRivers(net, Snapshot(dirs), c, i)|
      invariant count > 0 ==> Cell(upX, upY) == UpRivers(net, Snapshot(dirs), c, i)[0] && upZ == z.Get(c)
      invariant outlets' == outlets + JunctionOutlets(z, c, UpRivers(net, Snapshot(dirs), c, i))
    {
      var n := Neighbour(c, i);
      ReadSnapshot(dirs, n, DirNoData);
      ghost var ups := UpRivers(net, Snapshot(dirs), c, i);
      UpRiversStep(net, Snapshot(dirs), c, i);
      if ReadInt(dirs, n, DirNoData) == i {
        var v := net.Get(n);
        if v > 0 && !net.IsNoData(v) {
          JunctionStep(z, c, ups, n);
          if count > 0 {
            if count == 1 {
              outlets' := outlets' + [GridCell(upX, upY, upZ)];
            }
            outlets' := outlets' + [GridCell(n.x, n.y, z.Get(n))];
          } else {
            upX, upY := n.x, n.y;
            upZ := z.Get(c);
          }
          count := count + 1;
        }
      }
    }
  }

  /** `CellOutlets` as a function of the cell alone. */
  function OutletsAt(z: Layer<real>, net: Layer<int>, ds: map<Cell, int>): Cell -> seq<GridCell>
  {
    c => CellOutlets(z, net, ds, c)
  }

  /** The outlets of every window cell, in scan order. */
  function AllOutlets(z: Layer<real>, net: Layer<int>, ds: map<Cell, int>): seq<GridCell>
  {
    ScanCat(OutletsAt(z, net, ds), z.nx, z.ny)
  }

  /** The outlets depend on the network only through what it reads at each cell. */
  lemma SameNetworkOutlets(z: Layer<real>, n1: Layer<int>, n2: Layer<int>, ds: map<Cell, int>)
    requires SameReadings(n1, n2)
    ensures AllOutlets(z, n1, ds) == AllOutlets(z, n2, ds)
  {
    forall c: Cell
      ensures OutletsAt(z, n1, ds)(c) == OutletsAt(z, n2, ds)(c)
    {
      SameCellOutlets(z, n1, n2, ds, c);
    }
    ScanCatAgree(OutletsAt(z, n1, ds), OutletsAt(z, n2, ds), z.nx, z.ny);
  }

  lemma SameCellOutlets(z: Layer<real>, n1: Layer<int>, n2: Layer<int>, ds: map<Cell, int>, c: Cell)
    requires SameReadings(n1, n2)
    ensures CellOutlets(z, n1, ds, c) == CellOutlets(z, n2, ds, c)
  {
    forall i | 0 <= i < 8
      ensures RiverInflow(n1, ds, c, i) == RiverInflow(n2, ds, c, i)
    {
      assert n1.Get(Neighbour(c, i)) == n2.Get(Neighbour(c, i));
    }
    SelectAgree(i => RiverInflow(n1, ds, c, i), i => RiverInflow(n2, ds, c, i),
                i => if 0 <= i < 8 then Neighbour(c, i) else c, 8);
    assert UpRivers(n1, ds, c, 8) == UpRivers(n2, ds, c, 8);
    assert n1.Get(c) == n2.Get(c);
    var dir := DirAt(ds, c);
    var n := Neighbour(c, (dir + 4) % 8);
    assert n1.Get(n) == n2.Get(n);
    assert IsRiver(n1, n1.Get(c)) == IsRiver(n2, n2.Get(c)) && IsRiver(n1, n1.Get(n)) == IsRiver(n2, n2.Get(n));
  }

  /** `getOutlets`: `addOutlet` on every cell, row by row. */
  method GetOutlets(z: Layer<real>, net: Layer<int>, dirs: array2<int>) returns (outlets: seq<GridCell>)
    requires dirs.Length0 == z.nx && dirs.Length1 == z.ny
    ensures outlets == AllOutlets(z, net, Snapshot(dirs))
  {
    outlets := [];
    for y := 0 to z.ny
      invariant outlets == ScanCat(OutletsAt(z, net, Snapshot(dirs)), z.nx, y)
    {
      outlets := RowOutlets(z, net, dirs, y, outlets);
    }
  }

  /** The inner loop of `getOutlets`: `addOutlet` on every cell of row `y`. */
  method RowOutlets(z: Layer<real>, net: Layer<int>, dirs: array2<int>, y: int, outlets: seq<GridCell>)
    returns (outlets': seq<GridCell>)
    requires dirs.Length0 == z.nx && dirs.Length1 == z.ny && 0 <= y < z.ny
    ensures outlets' == outlets + RowCat(OutletsAt(z, net, Snapshot(dirs)), y, z.nx)
  {
    ghost var f := OutletsAt(z, net, Snapshot(dirs));
    outlets' := outlets;
    for x := 0 to z.nx
      invariant outlets' == outlets + RowCat(f, y, x)
    {
      ghost var before := outlets';
      outlets' := AddOutlet(z, net, dirs, Cell(x, y), outlets');
      RowCatStep(f, y, x, outlets, outlets'[|before|..]);
    }
  }

  /** The outlet list holds exactly the outlets of the window's cells. */
  lemma OutletsMembers(z: Layer<real>, net: Layer<int>, ds: map<Cell, int>, g: GridCell)
    ensures g in AllOutlets(z, net, ds) <==> exists c | z.InWindow(c) :: g in CellOutlets(z, net, ds, c)
  {
    ScanCatMembers(OutletsAt(z, net, ds), z.nx, z.ny, g);
  }

  /**
   * The cell `addOutlet` compares with: the D8 successor, or the neighbour
   * in direction 3 when the cell has no direction (the stored -1 plus 4).
   */
  function Downstream(d: Dem, c: Cell): (r: Cell)
    ensures Dir(d, c) >= 0 ==> r == Next(d, c)
    ensures Dir(d, c) < 0 ==> r == Neighbour(c, 3)
  {
    if Dir(d, c) >= 0 then OppositeTwice(Dir(d, c)); Neighbour(c, (StoredDir(d, c) + 4) % 8)
    else Neighbour(c, (StoredDir(d, c) + 4) % 8)
  }

  /**
   * The outlet kinds of `addOutlet` in D8 terms: no outlet off the network;
   * the cell itself when its successor is off the network, when it is a
   * user-defined outlet (a negative network value), or when it has valid
   * elevation but no downslope direction.
   */
  lemma OutletRules(d: Dem, net: Layer<int>, ds: map<Cell, int>, c: Cell)
    requires DirAt(ds, c) == StoredDir(d, c)
    ensures !IsRiver(net, net.Get(c)) ==> CellOutlets(d.z, net, ds, c) == []
    ensures IsRiver(net, net.Get(c))
      && (!IsRiver(net, net.Get(Downstream(d, c))) || net.Get(c) < 0 || (Dir(d, c) < 0 && d.z.Valid(c)))
      ==> CellOutlets(d.z, net, ds, c) == [Entry(d.z, c)]
  {
    var dir := DirAt(ds, c);
    assert Neighbour(c, (dir + 4) % 8) == Downstream(d, c);
    OwnOutlet(d.z, net, ds, c);
  }

  /** The cases in which `addOutlet` records the cell itself, on the stored directions. */
  lemma OwnOutlet(z: Layer<real>, net: Layer<int>, ds: map<Cell, int>, c: Cell)
    ensures !IsRiver(net, net.Get(c)) ==> CellOutlets(z, net, ds, c) == []
    ensures var dir := DirAt(ds, c);
      IsRiver(net, net.Get(c))
      && (!IsRiver(net, net.Get(Neighbour(c, (dir + 4) % 8))) || net.Get(c) < 0 || (dir == -1 && !z.IsNoData(z.Get(c))))
      ==> CellOutlets(z, net, ds, c) == [Entry(z, c)]
  {
  }

  /**
   * The junction split: at a river cell that is none of those outlet kinds,
   * the outlets are exactly its upslope river neighbours, one each, when
   * there are two or more of them, and there are none otherwise.
   */
  lemma JunctionSplit(d: Dem, net: Layer<int>, ds: map<Cell, int>, c: Cell)
    requires DirsMap(d, ds) && d.z.InWindow(c)
    requires IsRiver(net, net.Get(c)) && IsRiver(net, net.Get(Downstream(d, c))) && net.Get(c) > 0
    requires !(Dir(d, c) < 0 && d.z.Valid(c))
    ensures var r := CellOutlets(d.z, net, ds, c);
      var n := |set i | 0 <= i < 8 && RiverBranch(d, net, c, i)|;
      && (n <= 1 ==> r == [])
      && (n > 1 ==> |r| == n && forall a :: a in Positions(r) <==> exists i | 0 <= i < 8 :: RiverBranch(d, net, c, i) && a == Neighbour(c, i))
  {
    assert DirAt(ds, c) == StoredDir(d, c);
    JunctionCase(d.z, net, ds, c);
    var ups := UpRivers(net, ds, c, 8);
    JunctionShape(d.z, c, ups);
    BranchSet(d, net, ds, c);
    BranchList(d, net, ds, c);
  }

  /** The list `addOutlet` scans holds exactly the river branches of `c`. */
  lemma BranchList(d: Dem, net: Layer<int>, ds: map<Cell, int>, c: Cell)
    requires DirsMap(d, ds)
    ensures forall a :: a in UpRivers(net, ds, c, 8) <==> exists i | 0 <= i < 8 :: RiverBranch(d, net, c, i) && a == Neighbour(c, i)
  {
    forall a
      ensures a in UpRivers(net, ds, c, 8) <==> exists i | 0 <= i < 8 :: RiverBranch(d, net, c, i) && a == Neighbour(c, i)
    {
      BranchMembers(d, net, ds, c, a);
    }
  }

  /**
   * The elevations recorded at a junction: the first branch gets the
   * junction's own elevation, every later branch its own.
   */
  lemma JunctionElevations(d: Dem, net: Layer<int>, ds: map<Cell, int>, c: Cell)
    requires DirAt(ds, c) == StoredDir(d, c)
    requires IsRiver(net, net.Get(c)) && IsRiver(net, net.Get(Downstream(d, c))) && net.Get(c) > 0
    requires !(Dir(d, c) < 0 && d.z.Valid(c))
    ensures var r := CellOutlets(d.z, net, ds, c);
      |r| > 0 ==> r[0].value == d.z.Get(c) && forall k | 1 <= k < |r| :: r[k].value == d.z.Get(r[k].Pos())
  {
    JunctionCase(d.z, net, ds, c);
    JunctionShape(d.z, c, UpRivers(net, ds, c, 8));
  }

  /** The junction branch of `addOutlet`, on the stored directions. */
  lemma JunctionCase(z: Layer<real>, net: Layer<int>, ds: map<Cell, int>, c: Cell)
    requires IsRiver(net, net.Get(c)) && IsRiver(net, net.Get(Neighbour(c, (DirAt(ds, c) + 4) % 8))) && net.Get(c) > 0
    requires !(DirAt(ds, c) == -1 && !z.IsNoData(z.Get(c)))
    ensures CellOutlets(z, net, ds, c) == JunctionOutlets(z, c, UpRivers(net, ds, c, 8))
  {
  }

  /** Cell `a` is on the list `addOutlet` scans exactly when it is a river branch of `c`. */
  lemma BranchMembers(d: Dem, net: Layer<int>, ds: map<Cell, int>, c: Cell, a: Cell)
    requires DirsMap(d, ds)
    ensures a in UpRivers(net, ds, c, 8) <==> exists i | 0 <= i < 8 :: RiverBranch(d, net, c, i) && a == Neighbour(c, i)
  {
    var p := i => RiverInflow(net, ds, c, i);
    var f := i => if 0 <= i < 8 then Neighbour(c, i) else c;
    SelectMembers(p, f, 8, a);
    forall i | 0 <= i < 8
      ensures p(i) == RiverBranch(d, net, c, i) && f(i) == Neighbour(c, i)
    {
      InflowIsBranch(d, net, ds, c, i);
    }
  }

  /** The list `addOutlet` scans has one entry per river branch. */
  lemma BranchSet(d: Dem, net: Layer<int>, ds: map<Cell, int>, c: Cell)
    requires DirsMap(d, ds)
    ensures |UpRivers(net, ds, c, 8)| == |set i | 0 <= i < 8 && RiverBranch(d, net, c, i)|
  {
    var p := i => RiverInflow(net, ds, c, i);
    SelectCount(p, i => if 0 <= i < 8 then Neighbour(c, i) else c, 8);
    forall i | 0 <= i < 8
      ensures p(i) == RiverBranch(d, net, c, i)
    {
      InflowIsBranch(d, net, ds, c, i);
    }
    assert (set i | 0 <= i < 8 && p(i)) == set i | 0 <= i < 8 && RiverBranch(d, net, c, i);
  }

  /** Every outlet lies in the window, on a river cell. */
  lemma OutletsAreRiverCells(d: Dem, net: Layer<int>, ds: map<Cell, int>, c: Cell)
    requires DirsMap(d, ds) && d.z.InWindow(c)
    ensures forall g | g in CellOutlets(d.z, net, ds, c) :: d.z.InWindow(g.Pos()) && IsRiver(net, net.Get(g.Pos()))
  {
    OutletSources(d.z, net, ds, c);
    forall g | g in CellOutlets(d.z, net, ds, c)
      ensures d.z.InWindow(g.Pos()) && IsRiver(net, net.Get(g.Pos()))
    {
      if !(g.Pos() == c && IsRiver(net, net.Get(c))) {
        BranchIsRiverCell(d, net, ds, c, g.Pos());
      }
    }
  }

  /** An outlet of `addOutlet` is the river cell itself or one of the branches it scans. */
  lemma OutletSources(z: Layer<real>, net: Layer<int>, ds: map<Cell, int>, c: Cell)
    ensures forall g | g in CellOutlets(z, net, ds, c) ::
      (g.Pos() == c && IsRiver(net, net.Get(c))) || g.Pos() in UpRivers(net, ds, c, 8)
  {
    var ups := UpRivers(net, ds, c, 8);
    var r := CellOutlets(z, net, ds, c);
    if r == JunctionOutlets(z, c, ups) && |ups| > 1 {
      JunctionShape(z, c, ups);
      forall g | g in r
        ensures g.Pos() in ups
      {
        var k :| 0 <= k < |r| && r[k] == g;
        assert Positions(r)[k] in ups;
      }
    }
  }

  /** A branch `addOutlet` finds is a window river cell. */
  lemma BranchIsRiverCell(d: Dem, net: Layer<int>, ds: map<Cell, int>, c: Cell, u: Cell)
    requires DirsMap(d, ds) && u in UpRivers(net, ds, c, 8)
    ensures d.z.InWindow(u) && IsRiver(net, net.Get(u))
  {
    BranchMembers(d, net, ds, c, u);
    var i :| 0 <= i < 8 && RiverBranch(d, net, c, i) && u == Neighbour(c, i);
    DrainsUphill(d, c, i);
  }

  /** Every listed outlet is a window river cell. */
  lemma AllOutletsInWindow(d: Dem, net: Layer<int>, ds: map<Cell, int>, g: GridCell)
    requires DirsMap(d, ds) && g in AllOutlets(d.z, net, ds)
    ensures d.z.InWindow(g.Pos()) && IsRiver(net, net.Get(g.Pos()))
  {
    OutletsMembers(d.z, net, ds, g);
    var c :| d.z.InWindow(c) && g in CellOutlets(d.z, net, ds, c);
    OutletsAreRiverCells(d, net, ds, c);
  }
}
