/**
 * The first step of watershed labelling: a raster that records, for every
 * cell, the direction in which its D8 successor sees it, so that a cell's
 * upslope neighbours are found by comparing one stored value.
 */
module WatershedDirections {
  import opened Grid
  import opened Drainage

  /** No-data value of the host's temporary integer raster that holds the directions. */
  const DirNoData := -99999

  /**
   * The value the directions raster holds for a cell: -1 without a downslope
   * direction, otherwise the direction in which the next cell sees this one.
   */
  function StoredDir(d: Dem, c: Cell): (r: int)
    ensures -1 <= r < 8
    ensures r == -1 <==> Dir(d, c) < 0
    ensures r >= 0 ==> Neighbour(Next(d, c), r) == c
  {
    if Dir(d, c) < 0 then -1
    else
      OppositeNeighbour(c, Dir(d, c));
      (Dir(d, c) + 4) % 8
  }

  /** The directions raster holds `StoredDir` on the whole window. */
  ghost predicate DirsOk(d: Dem, dirs: array2<int>)
    reads dirs
  {
    Shaped(dirs, d) && forall x, y | 0 <= x < d.z.nx && 0 <= y < d.z.ny :: dirs[x, y] == StoredDir(d, Cell(x, y))
  }

  /** `prepareDirectionsLayer`: one row-by-row pass over the window. */
  method PrepareDirections(d: Dem) returns (dirs: array2<int>)
    ensures fresh(dirs) && DirsOk(d, dirs)
  {
    dirs := new int[d.z.nx, d.z.ny];
    for y := 0 to d.z.ny
      invariant Shaped(dirs, d)
      invariant forall i, j | 0 <= i < d.z.nx && 0 <= j < y :: dirs[i, j] == StoredDir(d, Cell(i, j))
    {
      PrepareRow(d, dirs, y);
    }
  }

  /** The inner loop of `prepareDirectionsLayer`: row `y`; the other rows keep their values. */
  method PrepareRow(d: Dem, dirs: array2<int>, y: int)
    requires Shaped(dirs, d) && 0 <= y < d.z.ny
    modifies dirs
    ensures forall i, j | 0 <= i < d.z.nx && 0 <= j < d.z.ny ::
      dirs[i, j] == if j == y then StoredDir(d, Cell(i, j)) else old(dirs[i, j])
  {
    for x := 0 to d.z.nx
      invariant forall i, j | 0 <= i < d.z.nx && 0 <= j < d.z.ny ::
        dirs[i, j] == if j == y && i < x then StoredDir(d, Cell(i, j)) else old(dirs[i, j])
    {
      var dir := Dir(d, Cell(x, y));
      if dir < 0 {
        dirs[x, y] := -1;
      } else {
        dirs[x, y] := (dir + 4) % 8;
      }
    }
  }

  /** Reading direction `i` in the neighbour `i` of `c` means exactly that it drains into `c`. */
  lemma StoredDrains(d: Dem, dirs: array2<int>, c: Cell, i: int)
    requires DirsOk(d, dirs) && 0 <= i < 8
    ensures ReadInt(dirs, Neighbour(c, i), DirNoData) == i <==> Drains(d, c, i)
  {
    var n := Neighbour(c, i);
    OppositeTwice(i);
    if d.z.InWindow(n) {
      assert n == Cell(n.x, n.y);
      assert dirs[n.x, n.y] == StoredDir(d, n);
      if Dir(d, n) >= 0 {
        OppositeTwice(Dir(d, n));
      }
    } else {
      assert !d.z.Valid(n);
    }
  }

  /** The directions raster as a map: the value the host reads at `c`, no-data off the window. */
  function DirAt(ds: map<Cell, int>, c: Cell): int
  {
    if c in ds then ds[c] else DirNoData
  }

  /** The map holds `StoredDir` on exactly the window. */
  ghost predicate DirsMap(d: Dem, ds: map<Cell, int>)
  {
    (forall c :: c in ds <==> d.z.InWindow(c)) && forall c | c in ds :: ds[c] == StoredDir(d, c)
  }

  /** A prepared directions raster, as a map. */
  lemma DirsSnapshot(d: Dem, dirs: array2<int>)
    requires DirsOk(d, dirs)
    ensures DirsMap(d, Snapshot(dirs))
  {
    forall c | c in Snapshot(dirs)
      ensures Snapshot(dirs)[c] == StoredDir(d, c)
    {
      assert dirs[c.x, c.y] == StoredDir(d, Cell(c.x, c.y));
    }
  }

  /** On the map, too, reading direction `i` in neighbour `i` means draining into `c`. */
  lemma MapDrains(d: Dem, ds: map<Cell, int>, c: Cell, i: int)
    requires DirsMap(d, ds) && 0 <= i < 8
    ensures DirAt(ds, Neighbour(c, i)) == i <==> Drains(d, c, i)
  {
    var n := Neighbour(c, i);
    OppositeTwice(i);
    if d.z.InWindow(n) {
      if Dir(d, n) >= 0 {
        OppositeTwice(Dir(d, n));
      }
    } else {
      assert !d.z.Valid(n);
    }
  }

  /** What `prepareDirectionsLayer` stores, as a map over the window. */
  ghost function StoredDirs(d: Dem): map<Cell, int>
  {
    map x, y | 0 <= x < d.z.nx && 0 <= y < d.z.ny :: Cell(x, y) := StoredDir(d, Cell(x, y))
  }

  /** A prepared directions raster holds exactly `StoredDirs`. */
  lemma DirsAreStored(d: Dem, dirs: array2<int>)
    requires DirsOk(d, dirs)
    ensures Snapshot(dirs) == StoredDirs(d) && DirsMap(d, StoredDirs(d))
  {
    DirsSnapshot(d, dirs);
    SameMaps(d, Snapshot(dirs));
  }

  /** `DirsMap` pins the map down. */
  lemma SameMaps(d: Dem, ds: map<Cell, int>)
    requires DirsMap(d, ds)
    ensures ds == StoredDirs(d)
  {
    assert ds.Keys == StoredDirs(d).Keys by {
      forall c | c in StoredDirs(d)
        ensures c in ds
      {
      }
    }
  }
}
