/**
 * Sink filling after Planchon and Darboux: every valid cell starts at a
 * very high water level except the border cells, which start at their own
 * elevation; water is then drained upward from the border, and repeated
 * scans in eight orders lower each level to the lowest neighbour level plus
 * a minimum slope, never below the cell's own elevation.
 */
module FillSinks {
  import opened Grid

  /** The level every inner valid cell starts at. */
  const InitElevation := 50000.0

  /** The depth past which `dryUpwardCell` stops recursing. */
  const MaxDepth := 32000

  /** The cap on the number of relaxation iterations. */
  const MaxIterations := 1000

  // The scan tables: scan `s` starts at row `StartR`, column `StartC`, steps by
  // `StepR`, `StepC`, and on leaving the grid jumps by `WrapR`, `WrapC`.

  function StartR(s: int, ny: int): int
    requires 0 <= s < 8
  {
    [0, ny - 1, 0, ny - 1, 0, ny - 1, 0, ny - 1][s]
  }

  function StartC(s: int, nx: int): int
    requires 0 <= s < 8
  {
    [0, nx - 1, nx - 1, 0, nx - 1, 0, 0, nx - 1][s]
  }

  function StepR(s: int): int
    requires 0 <= s < 8
  {
    [0, 0, 1, -1, 0, 0, 1, -1][s]
  }

  function StepC(s: int): int
    requires 0 <= s < 8
  {
    [1, -1, 0, 0, -1, 1, 0, 0][s]
  }

  function WrapR(s: int, ny: int): int
    requires 0 <= s < 8
  {
    [1, -1, -ny + 1, ny - 1, 1, -1, -ny + 1, ny - 1][s]
  }

  function WrapC(s: int, nx: int): int
    requires 0 <= s < 8
  {
    [-nx + 1, nx - 1, -1, 1, nx - 1, -nx + 1, 1, -1][s]
  }

  predicate Inside(nx: int, ny: int, col: int, row: int)
  {
    0 <= row < ny && 0 <= col < nx
  }

  /** Where `nextCell` moves the scan, and whether it is still inside the grid. */
  datatype Move = Move(col: int, row: int, more: bool)

  function NextPos(s: int, nx: int, ny: int, col: int, row: int): (m: Move)
    requires 0 <= s < 8
    ensures m.more ==> Inside(nx, ny, m.col, m.row)
  {
    var r1 := row + StepR(s);
    var c1 := col + StepC(s);
    if Inside(nx, ny, c1, r1) then Move(c1, r1, true)
    else
      var r2 := r1 + WrapR(s, ny);
      var c2 := c1 + WrapC(s, nx);
      Move(c2, r2, Inside(nx, ny, c2, r2))
  }

  // Each scan seen in its own frame: `FrameP` counts along the line the scan
  // walks, `FrameQ` counts the lines, both from the scan's starting corner.

  predicate AlongColumns(s: int)
    requires 0 <= s < 8
  {
    StepC(s) != 0
  }

  function SizeP(s: int, nx: int, ny: int): int
    requires 0 <= s < 8
  {
    if AlongColumns(s) then nx else ny
  }

  function SizeQ(s: int, nx: int, ny: int): int
    requires 0 <= s < 8
  {
    if AlongColumns(s) then ny else nx
  }

  function FrameP(s: int, nx: int, ny: int, col: int, row: int): int
    requires 0 <= s < 8
  {
    if StepC(s) == 1 then col
    else if StepC(s) == -1 then nx - 1 - col
    else if StepR(s) == 1 then row
    else ny - 1 - row
  }

  function FrameQ(s: int, nx: int, ny: int, col: int, row: int): int
    requires 0 <= s < 8
  {
    if s == 0 || s == 4 then row
    else if s == 1 || s == 5 then ny - 1 - row
    else if s == 3 || s == 6 then col
    else nx - 1 - col
  }

  predicate InFrame(s: int, nx: int, ny: int, p: int, q: int)
    requires 0 <= s < 8
  {
    0 <= p < SizeP(s, nx, ny) && 0 <= q < SizeQ(s, nx, ny)
  }

  /** Every scan starts at the corner of its frame. */
  lemma StartCorner(s: int, nx: int, ny: int)
    requires 0 <= s < 8
    ensures FrameP(s, nx, ny, StartC(s, nx), StartR(s, ny)) == 0
    ensures FrameQ(s, nx, ny, StartC(s, nx), StartR(s, ny)) == 0
  {
  }

  /** A position is inside the grid exactly when it is inside the frame. */
  lemma FrameInside(s: int, nx: int, ny: int, col: int, row: int)
    requires 0 <= s < 8
    ensures Inside(nx, ny, col, row) <==> InFrame(s, nx, ny, FrameP(s, nx, ny, col, row), FrameQ(s, nx, ny, col, row))
  {
  }

  /** Different positions have different frame coordinates. */
  lemma FrameInjective(s: int, nx: int, ny: int, c1: int, r1: int, c2: int, r2: int)
    requires 0 <= s < 8
    requires FrameP(s, nx, ny, c1, r1) == FrameP(s, nx, ny, c2, r2)
    requires FrameQ(s, nx, ny, c1, r1) == FrameQ(s, nx, ny, c2, r2)
    ensures c1 == c2 && r1 == r2
  {
  }

  /**
   * In its frame, `nextCell` moves one step along the line; past the end of
   * the line it goes to the next line, at position 1 rather than 0.
   */
  lemma FrameNext(s: int, nx: int, ny: int, col: int, row: int)
    requires 0 <= s < 8 && Inside(nx, ny, col, row)
    ensures var m := NextPos(s, nx, ny, col, row);
      var p := FrameP(s, nx, ny, col, row);
      var q := FrameQ(s, nx, ny, col, row);
      && (p + 1 < SizeP(s, nx, ny) ==> FrameP(s, nx, ny, m.col, m.row) == p + 1 && FrameQ(s, nx, ny, m.col, m.row) == q)
      && (p + 1 >= SizeP(s, nx, ny) ==> FrameP(s, nx, ny, m.col, m.row) == 1 && FrameQ(s, nx, ny, m.col, m.row) == q + 1)
      && (m.more <==> InFrame(s, nx, ny, FrameP(s, nx, ny, m.col, m.row), FrameQ(s, nx, ny, m.col, m.row)))
  {
    FrameInside(s, nx, ny, col, row);
    var m := NextPos(s, nx, ny, col, row);
    FrameInside(s, nx, ny, m.col, m.row);
    FrameInside(s, nx, ny, col + StepC(s), row + StepR(s));
  }

  /** The positions a scan stops at: the first line, and every later line from position 1. */
  predicate OnPath(s: int, nx: int, ny: int, c: Cell)
    requires 0 <= s < 8
  {
    FrameQ(s, nx, ny, c.x, c.y) == 0 || FrameP(s, nx, ny, c.x, c.y) >= 1
  }

  /** Cell `c` is on the path of scan `s` and comes before position `col`, `row`. */
  predicate Done(s: int, nx: int, ny: int, c: Cell, col: int, row: int)
    requires 0 <= s < 8
  {
    var p, q := FrameP(s, nx, ny, c.x, c.y), FrameQ(s, nx, ny, c.x, c.y);
    var p', q' := FrameP(s, nx, ny, col, row), FrameQ(s, nx, ny, col, row);
    OnPath(s, nx, ny, c) && (q < q' || (q == q' && p < p'))
  }

  /** After `nextCell`, the cells done are those done before and the cell just left. */
  lemma DoneStep(s: int, nx: int, ny: int, col: int, row: int, c: Cell)
    requires 0 <= s < 8 && Inside(nx, ny, col, row) && Inside(nx, ny, c.x, c.y)
    ensures var m := NextPos(s, nx, ny, col, row);
      Done(s, nx, ny, c, m.col, m.row) <==> Done(s, nx, ny, c, col, row) || (c == Cell(col, row) && OnPath(s, nx, ny, c))
  {
    FrameNext(s, nx, ny, col, row);
    FrameInside(s, nx, ny, c.x, c.y);
    if FrameP(s, nx, ny, c.x, c.y) == FrameP(s, nx, ny, col, row) && FrameQ(s, nx, ny, c.x, c.y) == FrameQ(s, nx, ny, col, row) {
      FrameInjective(s, nx, ny, c.x, c.y, col, row);
    }
  }

  /** Each position a scan stops at inside the grid is on its path. */
  lemma NextOnPath(s: int, nx: int, ny: int, col: int, row: int)
    requires 0 <= s < 8 && Inside(nx, ny, col, row)
    ensures var m := NextPos(s, nx, ny, col, row);
      OnPath(s, nx, ny, Cell(m.col, m.row))
  {
    FrameNext(s, nx, ny, col, row);
  }

  /** When `nextCell` leaves the grid, every cell on the path is done. */
  lemma DoneAtEnd(s: int, nx: int, ny: int, col: int, row: int, c: Cell)
    requires 0 <= s < 8 && Inside(nx, ny, col, row) && Inside(nx, ny, c.x, c.y)
    requires !NextPos(s, nx, ny, col, row).more && OnPath(s, nx, ny, c)
    ensures var m := NextPos(s, nx, ny, col, row);
      Done(s, nx, ny, c, m.col, m.row)
  {
    FrameNext(s, nx, ny, col, row);
    FrameInside(s, nx, ny, c.x, c.y);
    FrameInside(s, nx, ny, col, row);
  }

  /**
   * One move of a scan: the next position is on the path and further along
   * the frame, the cell left behind joins the cells done, and when the scan
   * leaves the grid every cell on the path is done.
   */
  lemma ScanAdvances(s: int, nx: int, ny: int, col: int, row: int)
    requires 0 <= s < 8 && Inside(nx, ny, col, row)
    ensures var m := NextPos(s, nx, ny, col, row);
      && OnPath(s, nx, ny, Cell(m.col, m.row))
      && (m.more ==> InFrame(s, nx, ny, FrameP(s, nx, ny, m.col, m.row), FrameQ(s, nx, ny, m.col, m.row)))
      && (m.more ==> (FrameQ(s, nx, ny, m.col, m.row) > FrameQ(s, nx, ny, col, row)
                      || (FrameQ(s, nx, ny, m.col, m.row) == FrameQ(s, nx, ny, col, row) && FrameP(s, nx, ny, m.col, m.row) > FrameP(s, nx, ny, col, row))))
      && (forall x, y | 0 <= x < nx && 0 <= y < ny ::
           Done(s, nx, ny, Cell(x, y), m.col, m.row) <==> Done(s, nx, ny, Cell(x, y), col, row) || (Cell(x, y) == Cell(col, row) && OnPath(s, nx, ny, Cell(x, y))))
      && (!m.more ==> forall x, y | 0 <= x < nx && 0 <= y < ny && OnPath(s, nx, ny, Cell(x, y)) :: Done(s, nx, ny, Cell(x, y), m.col, m.row))
  {
    FrameNext(s, nx, ny, col, row);
    NextOnPath(s, nx, ny, col, row);
    var m := NextPos(s, nx, ny, col, row);
    forall x, y | 0 <= x < nx && 0 <= y < ny
      ensures Done(s, nx, ny, Cell(x, y), m.col, m.row) <==> Done(s, nx, ny, Cell(x, y), col, row) || (Cell(x, y) == Cell(col, row) && OnPath(s, nx, ny, Cell(x, y)))
      ensures !m.more && OnPath(s, nx, ny, Cell(x, y)) ==> Done(s, nx, ny, Cell(x, y), m.col, m.row)
    {
      DoneStep(s, nx, ny, col, row, Cell(x, y));
      if !m.more && OnPath(s, nx, ny, Cell(x, y)) {
        DoneAtEnd(s, nx, ny, col, row, Cell(x, y));
      }
    }
  }

  /** The cells a scan skips lie on the edge of the grid where it starts. */
  lemma SkippedOnEdge(s: int, nx: int, ny: int, c: Cell)
    requires 0 <= s < 8 && Inside(nx, ny, c.x, c.y) && !OnPath(s, nx, ny, c)
    ensures c.x == 0 || c.x == nx - 1 || c.y == 0 || c.y == ny - 1
  {
  }

  // Levels and what the phases may do to them.

  /** A valid cell with a no-data neighbour, a neighbour off the grid included. */
  predicate IsBorder(z: Layer<real>, c: Cell)
  {
    z.Valid(c) && exists i | 0 <= i < 8 :: !z.Valid(Neighbour(c, i))
  }

  /** A valid cell on the edge of the grid is a border cell. */
  lemma EdgeIsBorder(z: Layer<real>, c: Cell)
    requires z.Valid(c) && (c.x == 0 || c.x == z.nx - 1 || c.y == 0 || c.y == z.ny - 1)
    ensures IsBorder(z, c)
  {
    if c.x == 0 {
      assert !z.Valid(Neighbour(c, 6));
    } else if c.x == z.nx - 1 {
      assert !z.Valid(Neighbour(c, 2));
    } else if c.y == 0 {
      assert !z.Valid(Neighbour(c, 4));
    } else {
      assert !z.Valid(Neighbour(c, 0));
    }
  }

  /** The level `initAltitude` gives a cell. */
  function InitLevel(z: Layer<real>, noData: real, c: Cell): real
  {
    if !z.Valid(c) then noData else if IsBorder(z, c) then z.Get(c) else InitElevation
  }

  /** Every valid elevation lies below the initial level. */
  ghost predicate BelowInit(z: Layer<real>)
  {
    forall c | z.Valid(c) :: z.Get(c) < InitElevation
  }

  /**
   * What drying may do to the level of cell `c`: leave it, or bring a cell
   * still at the initial level down (or up) to its own elevation.
   */
  predicate Dried(z: Layer<real>, o: real, n: real, c: Cell)
  {
    n == o || (o == InitElevation && z.Valid(c) && n == z.Get(c))
  }

  /**
   * What filling may do to the level of cell `c`: a level that changes is
   * a valid cell's and not below its elevation, and a level at the cell's
   * own elevation stays there.
   */
  predicate Relaxed(z: Layer<real>, o: real, n: real, c: Cell)
  {
    && (n == o || (z.Valid(c) && z.Get(c) <= n))
    && (z.Valid(c) && o == z.Get(c) ==> n == o)
  }

  lemma DriedTrans(z: Layer<real>, o: real, m: real, n: real, c: Cell)
    requires Dried(z, o, m, c) && Dried(z, m, n, c)
    ensures Dried(z, o, n, c)
  {
  }

  lemma RelaxedTrans(z: Layer<real>, o: real, m: real, n: real, c: Cell)
    requires Relaxed(z, o, m, c) && Relaxed(z, m, n, c)
    ensures Relaxed(z, o, n, c)
  {
  }

  lemma DriedRelaxed(z: Layer<real>, o: real, n: real, c: Cell)
    requires Dried(z, o, n, c)
    ensures Relaxed(z, o, n, c)
  {
  }

  /** With every elevation below the initial level, drying never raises a level. */
  lemma DriedLowers(z: Layer<real>, o: real, n: real, c: Cell)
    requires Dried(z, o, n, c) && BelowInit(z)
    ensures n <= o
  {
  }

  /** The level of cell `c` in raster `a`, read as the host does. */
  function LevelIn(a: array2<real>, noData: real, c: Cell): real
    reads a
  {
    ReadReal(a, c, noData)
  }

  /**
   * Neighbour `i` of cell `x`, `y` is still at the initial level and its
   * elevation is at least the level of `x`, `y` plus the minimum drop:
   * `dryUpwardCell` would dry it.
   */
  predicate Wet(z: Layer<real>, eps: seq<real>, a: array2<real>, noData: real, x: int, y: int, i: int)
    requires |eps| == 8 && 0 <= i < 8
    reads a
  {
    WetLevels(z, Neighbour(Cell(x, y), i), LevelIn(a, noData, Neighbour(Cell(x, y), i)), LevelIn(a, noData, Cell(x, y)) + eps[i])
  }

  /** Cell `n` at level `level` is wet next to a cell whose level plus the drop is `floor`. */
  predicate WetLevels(z: Layer<real>, n: Cell, level: real, floor: real)
  {
    z.Valid(n) && level == InitElevation && z.Get(n) >= floor
  }

  /** With every elevation below the initial level, a dried cell never turns wet. */
  lemma DriedStaysDry(z: Layer<real>, n: Cell, o: real, m: real, floor: real)
    requires BelowInit(z) && Dried(z, o, m, n) && !WetLevels(z, n, o, floor)
    ensures !WetLevels(z, n, m, floor)
  {
  }

  /**
   * Cell `c` is settled: it is not valid, or its level is at most its
   * elevation, or no valid neighbour's level plus the minimum drop lies at
   * or below its elevation or below its level.  A pass over a settled cell
   * changes nothing.
   */
  ghost predicate Stable(z: Layer<real>, eps: seq<real>, a: array2<real>, noData: real, c: Cell)
    requires |eps| == 8
    reads a
  {
    || !z.Valid(c)
    || LevelIn(a, noData, c) <= z.Get(c)
    || forall i | 0 <= i < 8 && z.Valid(Neighbour(c, i)) ::
         z.Get(c) < LevelIn(a, noData, Neighbour(c, i)) + eps[i] && LevelIn(a, noData, c) <= LevelIn(a, noData, Neighbour(c, i)) + eps[i]
  }

  /** The minimum drop to each neighbour: the minimum slope times the distance to it. */
  function Drops(d: Dem, minSlope: real): (e: seq<real>)
    ensures |e| == 8 && forall i | 0 <= i < 8 :: e[i] == minSlope * Dist(d, i)
  {
    seq(8, i requires 0 <= i < 8 => minSlope * Dist(d, i))
  }

  /** The drop towards a neighbour equals the drop back from it. */
  predicate Symmetric(eps: seq<real>)
    requires |eps| == 8
  {
    eps[4] == eps[0] && eps[5] == eps[1] && eps[6] == eps[2] && eps[7] == eps[3]
  }

  lemma DropsSymmetric(d: Dem, minSlope: real)
    ensures Symmetric(Drops(d, minSlope))
  {
  }

  /** With symmetric drops, the drop back from neighbour `i` is the drop to it. */
  lemma DropBack(eps: seq<real>, i: int)
    requires |eps| == 8 && Symmetric(eps) && 0 <= i < 8
    ensures 0 <= (i + 4) % 8 < 8 && eps[(i + 4) % 8] == eps[i]
  {
  }

  /** Neighbour `i` of `c` is valid and its level plus the drop to it lies at or below the level of `c`. */
  ghost predicate DrainsTo(z: Layer<real>, eps: seq<real>, a: array2<real>, noData: real, c: Cell, i: int)
    requires |eps| == 8 && 0 <= i < 8
    reads a
  {
    z.Valid(Neighbour(c, i)) && LevelIn(a, noData, Neighbour(c, i)) + eps[i] <= LevelIn(a, noData, c)
  }

  /**
   * Cell `c` drains: it is not valid, or it is a border cell, or it is
   * still at the initial level, or water leaves it for a valid neighbour
   * at least the minimum drop lower.
   */
  ghost predicate Draining(z: Layer<real>, eps: seq<real>, a: array2<real>, noData: real, c: Cell)
    requires |eps| == 8
    reads a
  {
    || !z.Valid(c)
    || IsBorder(z, c)
    || LevelIn(a, noData, c) >= InitElevation
    || exists i | 0 <= i < 8 :: DrainsTo(z, eps, a, noData, c, i)
  }

  /** Every cell of the window drains. */
  ghost predicate Drained(z: Layer<real>, eps: seq<real>, a: array2<real>, noData: real)
    requires |eps| == 8
    reads a
  {
    forall x, y | 0 <= x < z.nx && 0 <= y < z.ny :: Draining(z, eps, a, noData, Cell(x, y))
  }

  /** The positive part of a drop. */
  function Pos(r: real): (p: real)
    ensures p >= 0.0 && p >= r
  {
    if r > 0.0 then r else 0.0
  }

  /**
   * Every elevation leaves room below the initial level for one side drop
   * per column of the window.
   */
  ghost predicate Headroom(z: Layer<real>, eps: seq<real>)
    requires |eps| == 8
  {
    forall c | z.Valid(c) :: z.Get(c) + z.nx as real * Pos(eps[6]) < InitElevation
  }

  lemma ColumnsRoom(nx: int, x: int, p: real)
    requires 0 <= x < nx && p >= 0.0
    ensures 0.0 <= (nx - x) as real * p <= nx as real * p
    ensures (nx - x + 1) as real * p == (nx - x) as real * p + p
  {
  }

  /**
   * A valid cell of a settled surface whose border cells are at their
   * elevation is at most its elevation, or at most its left neighbour's
   * level plus the side drop.
   */
  lemma SettledCell(z: Layer<real>, eps: seq<real>, a: array2<real>, noData: real, c: Cell)
    requires |eps| == 8 && a.Length0 == z.nx && a.Length1 == z.ny
    requires Grounded(z, a) && Stable(z, eps, a, noData, c) && z.Valid(c)
    ensures z.InWindow(c)
    ensures || a[c.x, c.y] <= z.Get(c)
            || (z.Valid(Neighbour(c, 6)) && a[c.x, c.y] <= LevelIn(a, noData, Neighbour(c, 6)) + eps[6])
  {
    if !z.Valid(Neighbour(c, 6)) {
      assert IsBorder(z, c);
    }
  }

  /**
   * On a settled surface whose border cells are at their elevation, a
   * valid cell in column `x` lies below the initial level by at least one
   * side drop per column from it to the right edge: going left, either a
   * cell is at most its elevation (a border cell included) or it is at
   * most its left neighbour's level plus the side drop.
   */
  lemma {:induction false} SettledBelow(z: Layer<real>, eps: seq<real>, a: array2<real>, noData: real, x: int, y: int)
    requires |eps| == 8 && a.Length0 == z.nx && a.Length1 == z.ny
    requires Grounded(z, a) && Headroom(z, eps)
    requires forall i, j | 0 <= i < z.nx && 0 <= j < z.ny :: Stable(z, eps, a, noData, Cell(i, j))
    requires 0 <= x < z.nx && 0 <= y < z.ny && z.Valid(Cell(x, y))
    ensures a[x, y] < InitElevation - (z.nx - x) as real * Pos(eps[6])
    decreases x
  {
    var c := Cell(x, y);
    var p := Pos(eps[6]);
    ColumnsRoom(z.nx, x, p);
    SettledCell(z, eps, a, noData, c);
    if a[x, y] <= z.Get(c) {
      assert z.Get(c) + z.nx as real * p < InitElevation;
    } else {
      var n := Neighbour(c, 6);
      assert n == Cell(x - 1, y) && z.Valid(n);
      SettledBelow(z, eps, a, noData, x - 1, y);
      assert a[x, y] <= a[x - 1, y] + eps[6];
    }
  }

  /** With headroom, a settled surface whose border cells are at their elevation lies below the initial level. */
  lemma SettledBelowInit(z: Layer<real>, eps: seq<real>, a: array2<real>, noData: real)
    requires |eps| == 8 && a.Length0 == z.nx && a.Length1 == z.ny
    requires Grounded(z, a) && Headroom(z, eps)
    requires forall i, j | 0 <= i < z.nx && 0 <= j < z.ny :: Stable(z, eps, a, noData, Cell(i, j))
    ensures forall x, y | 0 <= x < z.nx && 0 <= y < z.ny && z.Valid(Cell(x, y)) :: a[x, y] < InitElevation
  {
    forall x, y | 0 <= x < z.nx && 0 <= y < z.ny && z.Valid(Cell(x, y))
      ensures a[x, y] < InitElevation
    {
      SettledBelow(z, eps, a, noData, x, y);
    }
  }

  /** Every border cell of the window is at its own elevation. */
  ghost predicate Grounded(z: Layer<real>, a: array2<real>)
    reads a
  {
    forall x, y | 0 <= x < a.Length0 && 0 <= y < a.Length1 && IsBorder(z, Cell(x, y)) :: a[x, y] == z.Get(Cell(x, y))
  }

  /**
   * A scan that settles every cell on its path settles the whole window
   * when the border cells are at their elevation: the cells it skips lie on
   * the edge, so they are border cells.
   */
  lemma PathCovers(z: Layer<real>, eps: seq<real>, a: array2<real>, noData: real, s: int)
    requires |eps| == 8 && 0 <= s < 8 && a.Length0 == z.nx && a.Length1 == z.ny
    requires Grounded(z, a)
    requires forall x, y | 0 <= x < z.nx && 0 <= y < z.ny && OnPath(s, z.nx, z.ny, Cell(x, y)) :: Stable(z, eps, a, noData, Cell(x, y))
    ensures forall x, y | 0 <= x < z.nx && 0 <= y < z.ny :: Stable(z, eps, a, noData, Cell(x, y))
  {
    forall x, y | 0 <= x < z.nx && 0 <= y < z.ny && !OnPath(s, z.nx, z.ny, Cell(x, y)) && z.Valid(Cell(x, y))
      ensures Stable(z, eps, a, noData, Cell(x, y))
    {
      SkippedOnEdge(s, z.nx, z.ny, Cell(x, y));
      EdgeIsBorder(z, Cell(x, y));
    }
  }

  /**
   * What a level reached from the initial level by drying and relaxation
   * is: a no-data cell keeps the no-data value, a border cell its
   * elevation, and, when every elevation lies below the initial level, a
   * valid cell lies between its elevation and its initial level.
   */
  lemma FilledBounds(z: Layer<real>, noData: real, c: Cell, n: real)
    requires Relaxed(z, InitLevel(z, noData, c), n, c)
    requires BelowInit(z) ==> n <= InitLevel(z, noData, c)
    ensures !z.Valid(c) ==> n == noData
    ensures IsBorder(z, c) ==> n == z.Get(c)
    ensures BelowInit(z) && z.Valid(c) ==> z.Get(c) <= n <= InitElevation
  {
  }

  /**
   * The state of the algorithm: the elevation model, the minimum drop to
   * each neighbour, the filled levels and the border flags, the recursion
   * depth of `dryUpwardCell` and the scan position.
   */
  class SinkFiller {
    const d: Dem
    const eps: seq<real>
    const noData: real
    const borderNoData: int
    const filled: array2<real>
    const border: array2<int>
    var depth: int
    var row: int
    var col: int

    ghost predicate Valid()
      reads this
    {
      && |eps| == 8
      && filled.Length0 == d.z.nx && filled.Length1 == d.z.ny
      && border.Length0 == d.z.nx && border.Length1 == d.z.ny
    }

    /** The drops are symmetric and every cell of the window drains (see `Drained`). */
    ghost predicate AllDrain()
      requires |eps| == 8
      reads filled
    {
      Symmetric(eps) && Drained(d.z, eps, filled, noData)
    }

    /**
     * Lowering levels keeps every cell draining as long as each cell whose
     * level changed drains afterwards: the neighbour an unchanged cell drains
     * to has only gone down.
     */
    twostate lemma Lowered()
      requires Valid() && old(AllDrain())
      requires forall x, y | 0 <= x < d.z.nx && 0 <= y < d.z.ny :: filled[x, y] <= old(filled[x, y])
      requires forall x, y | 0 <= x < d.z.nx && 0 <= y < d.z.ny && filled[x, y] != old(filled[x, y]) ::
        Draining(d.z, eps, filled, noData, Cell(x, y))
      ensures AllDrain()
    {
      forall x, y | 0 <= x < d.z.nx && 0 <= y < d.z.ny && filled[x, y] == old(filled[x, y])
        ensures Draining(d.z, eps, filled, noData, Cell(x, y))
      {
        var c := Cell(x, y);
        assert old(Draining(d.z, eps, filled, noData, c));
        if d.z.Valid(c) && !IsBorder(d.z, c) && LevelIn(filled, noData, c) < InitElevation {
          var i :| 0 <= i < 8 && old(DrainsTo(d.z, eps, filled, noData, c, i));
          assert DrainsTo(d.z, eps, filled, noData, c, i);
        }
      }
    }

    /** Border flags 1 mark valid cells only. */
    ghost predicate Flagged()
      reads border
    {
      forall x, y | 0 <= x < border.Length0 && 0 <= y < border.Length1 && border[x, y] == 1 :: d.z.Valid(Cell(x, y))
    }

    /**
     * The minimum drop to neighbour `i` is the minimum slope times the
     * distance to that neighbour; `minSlope` is the tangent of the minimum
     * angle.
     */
    constructor(d: Dem, minSlope: real, noData: real, borderNoData: int)
      ensures Valid() && fresh(filled) && fresh(border) && depth == 0
      ensures this.d == d && this.noData == noData && this.borderNoData == borderNoData
      ensures eps == Drops(d, minSlope)
    {
      this.d := d;
      this.eps := Drops(d, minSlope);
      this.noData := noData;
      this.borderNoData := borderNoData;
      this.filled := new real[d.z.nx, d.z.ny]((x, y) => noData);
      this.border := new int[d.z.nx, d.z.ny]((x, y) => borderNoData);
      this.depth := 0;
    }

    /** Whether some neighbour of `c`, off the grid included, is no-data. */
    method HasNoDataNeighbour(c: Cell) returns (b: bool)
      ensures b <==> exists i | 0 <= i < 8 :: !d.z.Valid(Neighbour(c, i))
    {
      b := false;
      var i := 0;
      while i < 8 && !b
        invariant 0 <= i <= 8
        invariant b <==> exists j | 0 <= j < i :: !d.z.Valid(Neighbour(c, j))
      {
        if d.z.IsNoData(d.z.Get(Neighbour(c, i))) {
          b := true;
        }
        i := i + 1;
      }
    }

    /** Sets the initial level and the border flag of one valid cell. */
    method InitCell(x: int, y: int)
      requires Valid() && 0 <= x < d.z.nx && 0 <= y < d.z.ny
      modifies filled, border
      ensures d.z.Valid(Cell(x, y)) ==> filled[x, y] == InitLevel(d.z, noData, Cell(x, y))
      ensures d.z.Valid(Cell(x, y)) ==> border[x, y] == if IsBorder(d.z, Cell(x, y)) then 1 else old(border[x, y])
      ensures !d.z.Valid(Cell(x, y)) ==> filled[x, y] == old(filled[x, y]) && border[x, y] == old(border[x, y])
      ensures forall i, j | 0 <= i < d.z.nx && 0 <= j < d.z.ny && (i, j) != (x, y) ::
        filled[i, j] == old(filled[i, j]) && border[i, j] == old(border[i, j])
    {
      var c := Cell(x, y);
      var value := d.z.Get(c);
      if !d.z.IsNoData(value) {
        var isBorder := HasNoDataNeighbour(c);
        if isBorder {
          border[x, y] := 1;
          filled[x, y] := d.z.Get(c);
        } else {
          filled[x, y] := InitElevation;
        }
      }
    }

    /**
     * `initAltitude`: both rasters are set to no-data; then each valid cell
     * with a no-data neighbour is flagged 1 and keeps its elevation, and
     * every other valid cell starts at the initial level.
     */
    method InitAltitude()
      requires Valid()
      modifies filled, border
      ensures forall x, y | 0 <= x < d.z.nx && 0 <= y < d.z.ny ::
        filled[x, y] == InitLevel(d.z, noData, Cell(x, y))
        && border[x, y] == if IsBorder(d.z, Cell(x, y)) then 1 else borderNoData
    {
      forall i, j | 0 <= i < d.z.nx && 0 <= j < d.z.ny {
        border[i, j] := borderNoData;
      }
      forall i, j | 0 <= i < d.z.nx && 0 <= j < d.z.ny {
        filled[i, j] := noData;
      }
      for x := 0 to d.z.nx
        invariant forall i, j | 0 <= i < d.z.nx && 0 <= j < d.z.ny ::
          filled[i, j] == (if i < x then InitLevel(d.z, noData, Cell(i, j)) else noData)
          && border[i, j] == if i < x && IsBorder(d.z, Cell(i, j)) then 1 else borderNoData
      {
        for y := 0 to d.z.ny
          invariant forall i, j | 0 <= i < d.z.nx && 0 <= j < d.z.ny ::
            filled[i, j] == (if i < x || (i == x && j < y) then InitLevel(d.z, noData, Cell(i, j)) else noData)
            && border[i, j] == if (i < x || (i == x && j < y)) && IsBorder(d.z, Cell(i, j)) then 1 else borderNoData
        {
          InitCell(x, y);
        }
      }
    }

    /** Dries neighbour `i` of `x`, `y` when it is wet: it gets its own elevation. */
    method DryNeighbour(x: int, y: int, i: int) returns (wrote: bool)
      requires Valid() && 0 <= i < 8
      modifies filled
      ensures wrote <==> old(Wet(d.z, eps, filled, noData, x, y, i))
      ensures forall a, b | 0 <= a < filled.Length0 && 0 <= b < filled.Length1 ::
        filled[a, b] == if wrote && Cell(a, b) == Neighbour(Cell(x, y), i) then d.z.Get(Cell(a, b)) else old(filled[a, b])
      ensures BelowInit(d.z) && d.z.Valid(Cell(x, y)) && old(AllDrain()) ==> AllDrain()
    {
      var n := Neighbour(Cell(x, y), i);
      var zw := ReadReal(filled, n, noData);
      var zn := d.z.Get(n);
      wrote := false;
      if !d.z.IsNoData(zn) && zw == InitElevation {
        zw := ReadReal(filled, Cell(x, y), noData) + eps[i];
        if zn >= zw {
          filled[n.x, n.y] := zn;
          wrote := true;
          if BelowInit(d.z) && d.z.Valid(Cell(x, y)) && old(AllDrain()) {
            // The drying cell is the one the dried cell drains to.
            OppositeNeighbour(Cell(x, y), i);
            DropBack(eps, i);
            assert DrainsTo(d.z, eps, filled, noData, n, (i + 4) % 8);
            Lowered();
          }
        }
      }
    }

    /**
     * `dryUpwardCell`: up to the depth cap, every wet neighbour of `x`, `y`
     * is dried and drying goes on from it.  Levels only ever go from the
     * initial level to the cell's elevation; at the cap nothing changes;
     * and below the cap, when `x`, `y` is valid and at its own elevation and
     * every elevation lies below the initial level, no neighbour is left wet.
     */
    method DryUpwardCell(x: int, y: int)
      requires Valid() && 0 <= depth <= MaxDepth
      modifies this, filled
      decreases MaxDepth + 1 - depth, 0
      ensures Valid() && depth == old(depth) && row == old(row) && col == old(col)
      ensures forall a, b | 0 <= a < filled.Length0 && 0 <= b < filled.Length1 ::
        Dried(d.z, old(filled[a, b]), filled[a, b], Cell(a, b))
      ensures old(depth) == MaxDepth ==>
        forall a, b | 0 <= a < filled.Length0 && 0 <= b < filled.Length1 :: filled[a, b] == old(filled[a, b])
      ensures old(depth) < MaxDepth && BelowInit(d.z) && d.z.Valid(Cell(x, y)) && old(LevelIn(filled, noData, Cell(x, y))) == d.z.Get(Cell(x, y)) ==>
        forall i | 0 <= i < 8 :: !Wet(d.z, eps, filled, noData, x, y, i)
      ensures BelowInit(d.z) && d.z.Valid(Cell(x, y)) && old(AllDrain()) ==> AllDrain()
    {
      ghost var dry := BelowInit(d.z) && d.z.Valid(Cell(x, y)) && LevelIn(filled, noData, Cell(x, y)) == d.z.Get(Cell(x, y));
      ghost var drains := BelowInit(d.z) && d.z.Valid(Cell(x, y)) && AllDrain();
      depth := depth + 1;
      if depth <= MaxDepth {
        for i := 0 to 8
          invariant Valid() && depth == old(depth) + 1 && row == old(row) && col == old(col)
          invariant forall a, b | 0 <= a < filled.Length0 && 0 <= b < filled.Length1 ::
            Dried(d.z, old(filled[a, b]), filled[a, b], Cell(a, b))
          invariant dry ==> LevelIn(filled, noData, Cell(x, y)) == d.z.Get(Cell(x, y))
          invariant dry ==> forall j | 0 <= j < i :: !Wet(d.z, eps, filled, noData, x, y, j)
          invariant drains ==> AllDrain()
        {
          label Head:
          DryStep(x, y, i);
          forall a, b | 0 <= a < filled.Length0 && 0 <= b < filled.Length1 {
            DriedTrans(d.z, old(filled[a, b]), old@Head(filled[a, b]), filled[a, b], Cell(a, b));
          }
        }
      }
      depth := depth - 1;
    }

    /** One cell of the first phase: drying starts from it when its border flag is 1. */
    method BorderStep(x: int, y: int)
      requires Valid() && depth == 0 && 0 <= x < d.z.nx && 0 <= y < d.z.ny
      modifies this, filled
      ensures Valid() && depth == 0 && row == old(row) && col == old(col)
      ensures forall a, b | 0 <= a < filled.Length0 && 0 <= b < filled.Length1 ::
        Dried(d.z, old(filled[a, b]), filled[a, b], Cell(a, b))
      ensures BelowInit(d.z) && border[x, y] == 1 && IsBorder(d.z, Cell(x, y)) && old(filled[x, y]) == d.z.Get(Cell(x, y)) ==>
        forall j | 0 <= j < 8 :: !Wet(d.z, eps, filled, noData, x, y, j)
      ensures BelowInit(d.z) && (border[x, y] == 1 ==> d.z.Valid(Cell(x, y))) && old(AllDrain()) ==> AllDrain()
    {
      if border[x, y] == 1 {
        DryUpwardCell(x, y);
      }
    }

    /**
     * The first phase: drying starts from every cell flagged 1 in the
     * border raster, column by column.  Levels only go from the initial
     * level to the cell's elevation, so the border cells stay at their
     * elevation.
     */
    method DryBorders()
      requires Valid() && depth == 0
      modifies this, filled
      ensures Valid() && depth == 0 && row == old(row) && col == old(col)
      ensures forall a, b | 0 <= a < filled.Length0 && 0 <= b < filled.Length1 ::
        Dried(d.z, old(filled[a, b]), filled[a, b], Cell(a, b))
      ensures old(Grounded(d.z, filled)) ==> Grounded(d.z, filled)
      ensures BelowInit(d.z) && Flagged() && old(AllDrain()) ==> AllDrain()
    {
      ghost var drains := BelowInit(d.z) && Flagged() && AllDrain();
      for x := 0 to d.z.nx
        invariant Valid() && depth == 0 && row == old(row) && col == old(col)
        invariant forall a, b | 0 <= a < filled.Length0 && 0 <= b < filled.Length1 ::
          Dried(d.z, old(filled[a, b]), filled[a, b], Cell(a, b))
        invariant drains ==> AllDrain()
      {
        for y := 0 to d.z.ny
          invariant Valid() && depth == 0 && row == old(row) && col == old(col)
          invariant forall a, b | 0 <= a < filled.Length0 && 0 <= b < filled.Length1 ::
            Dried(d.z, old(filled[a, b]), filled[a, b], Cell(a, b))
          invariant drains ==> AllDrain()
        {
          label Head:
          BorderStep(x, y);
          forall a, b | 0 <= a < filled.Length0 && 0 <= b < filled.Length1 {
            DriedTrans(d.z, old(filled[a, b]), old@Head(filled[a, b]), filled[a, b], Cell(a, b));
          }
        }
      }
    }

    /** `nextCell`: moves the scan position by the tables of scan `s`. */
    method NextCell(s: int) returns (more: bool)
      requires 0 <= s < 8
      modifies this
      ensures depth == old(depth)
      ensures Move(col, row, more) == NextPos(s, d.z.nx, d.z.ny, old(col), old(row))
    {
      row := row + StepR(s);
      col := col + StepC(s);
      if row < 0 || col < 0 || row >= d.z.ny || col >= d.z.nx {
        row := row + WrapR(s, d.z.ny);
        col := col + WrapC(s, d.z.nx);
        if row < 0 || col < 0 || row >= d.z.ny || col >= d.z.nx {
          return false;
        }
      }
      return true;
    }

    /** Sets the level of cell `c` of the window. */
    method SetLevel(c: Cell, v: real)
      requires Valid() && d.z.InWindow(c)
      modifies filled
      ensures forall a, b | 0 <= a < filled.Length0 && 0 <= b < filled.Length1 ::
        filled[a, b] == if Cell(a, b) == c then v else old(filled[a, b])
    {
      filled[c.x, c.y] := v;
    }

    /**
     * One cell of a relaxation scan, at the scan position: a valid cell
     * above its elevation looks at its valid neighbours in turn.  When its
     * elevation reaches a neighbour's level plus the drop, it goes down to
     * its elevation, drying starts from it, and the turn ends; otherwise,
     * when that sum lies below the level the cell had on entry, the cell
     * takes it.  A pass that changes nothing leaves a settled cell.
     */
    method ProcessCell() returns (changed: bool)
      requires Valid() && depth == 0
      modifies this, filled
      ensures Valid() && depth == 0 && row == old(row) && col == old(col)
      ensures forall a, b | 0 <= a < filled.Length0 && 0 <= b < filled.Length1 ::
        Relaxed(d.z, old(filled[a, b]), filled[a, b], Cell(a, b))
      ensures BelowInit(d.z) ==> forall a, b | 0 <= a < filled.Length0 && 0 <= b < filled.Length1 :: filled[a, b] <= old(filled[a, b])
      ensures !changed ==> forall a, b | 0 <= a < filled.Length0 && 0 <= b < filled.Length1 :: filled[a, b] == old(filled[a, b])
      ensures !changed ==> Stable(d.z, eps, filled, noData, Cell(col, row))
      ensures BelowInit(d.z) && old(AllDrain()) ==> AllDrain()
    {
      var own := Cell(col, row);
      var z := d.z.Get(own);
      var wz := ReadReal(filled, own, noData);
      changed := false;
      if !d.z.IsNoData(z) && wz > z {
        changed := LookAround(z, wz);
        forall a, b | 0 <= a < filled.Length0 && 0 <= b < filled.Length1
          ensures Relaxed(d.z, old(filled[a, b]), filled[a, b], Cell(a, b))
          ensures BelowInit(d.z) ==> filled[a, b] <= old(filled[a, b])
        {
          if Cell(a, b) != own {
            DriedRelaxed(d.z, old(filled[a, b]), filled[a, b], Cell(a, b));
            if BelowInit(d.z) {
              DriedLowers(d.z, old(filled[a, b]), filled[a, b], Cell(a, b));
            }
          }
        }
      }
    }

    /**
     * The neighbour loop of `processCell` on the cell at the scan position,
     * whose elevation is `z` and whose level on entry was `wz`: it stops at
     * the first neighbour that lowers the cell.
     */
    method LookAround(z: real, wz: real) returns (changed: bool)
      requires Valid() && depth == 0
      requires d.z.Valid(Cell(col, row)) && z == d.z.Get(Cell(col, row)) && z < wz
      requires wz == LevelIn(filled, noData, Cell(col, row))
      modifies this, filled
      ensures Valid() && depth == 0 && row == old(row) && col == old(col)
      ensures forall a, b | 0 <= a < filled.Length0 && 0 <= b < filled.Length1 && Cell(a, b) != Cell(col, row) ::
        Dried(d.z, old(filled[a, b]), filled[a, b], Cell(a, b))
      ensures BelowInit(d.z) && old(AllDrain()) ==> AllDrain()
      ensures changed ==> z <= filled[col, row] < wz
      ensures !changed ==> forall a, b | 0 <= a < filled.Length0 && 0 <= b < filled.Length1 :: filled[a, b] == old(filled[a, b])
      ensures !changed ==> forall j | 0 <= j < 8 && d.z.Valid(Neighbour(Cell(col, row), j)) ::
        z < LevelIn(filled, noData, Neighbour(Cell(col, row), j)) + eps[j] && wz <= LevelIn(filled, noData, Neighbour(Cell(col, row), j)) + eps[j]
    {
      var own := Cell(col, row);
      ghost var drains := BelowInit(d.z) && AllDrain();
      changed := false;
      var i := 0;
      var stop := false;
      while i < 8 && !stop
        invariant 0 <= i <= 8
        invariant Valid() && depth == 0 && row == old(row) && col == old(col)
        invariant forall a, b | 0 <= a < filled.Length0 && 0 <= b < filled.Length1 && Cell(a, b) != own ::
          Dried(d.z, old(filled[a, b]), filled[a, b], Cell(a, b))
        invariant changed ==> z <= filled[own.x, own.y] < wz
        invariant !changed ==> forall a, b | 0 <= a < filled.Length0 && 0 <= b < filled.Length1 :: filled[a, b] == old(filled[a, b])
        invariant !changed ==> forall j | 0 <= j < i && d.z.Valid(Neighbour(own, j)) ::
          z < LevelIn(filled, noData, Neighbour(own, j)) + eps[j] && wz <= LevelIn(filled, noData, Neighbour(own, j)) + eps[j]
        invariant stop ==> changed
        invariant !stop ==> forall a, b | 0 <= a < filled.Length0 && 0 <= b < filled.Length1 && Cell(a, b) != own ::
          filled[a, b] == old(filled[a, b])
        invariant drains ==> AllDrain()
      {
        label Head:
        var wrote;
        wrote, stop := LookAt(i, z, wz);
        forall a, b | 0 <= a < filled.Length0 && 0 <= b < filled.Length1 && Cell(a, b) != own {
          DriedTrans(d.z, old(filled[a, b]), old@Head(filled[a, b]), filled[a, b], Cell(a, b));
        }
        if drains && !wrote {
          Lowered@Head();
        } else if drains && !stop {
          // Only this cell has changed since entry, and it drains to neighbour `i`.
          Lowered();
        }
        changed := changed || wrote;
        i := i + 1;
      }
    }

    /**
     * Looks at neighbour `i` of the cell at the scan position, whose
     * elevation is `z` and whose level on entry was `wz`.
     */
    method LookAt(i: int, z: real, wz: real) returns (wrote: bool, stop: bool)
      requires Valid() && depth == 0 && 0 <= i < 8
      requires d.z.Valid(Cell(col, row)) && z == d.z.Get(Cell(col, row)) && z < wz
      modifies this, filled
      ensures Valid() && depth == 0 && row == old(row) && col == old(col)
      ensures forall a, b | 0 <= a < filled.Length0 && 0 <= b < filled.Length1 && Cell(a, b) != Cell(col, row) ::
        Dried(d.z, old(filled[a, b]), filled[a, b], Cell(a, b))
      ensures wrote ==> z <= filled[col, row] < wz
      ensures !wrote ==> forall a, b | 0 <= a < filled.Length0 && 0 <= b < filled.Length1 :: filled[a, b] == old(filled[a, b])
      ensures !wrote && d.z.Valid(Neighbour(Cell(col, row), i)) ==>
        z < LevelIn(filled, noData, Neighbour(Cell(col, row), i)) + eps[i] && wz <= LevelIn(filled, noData, Neighbour(Cell(col, row), i)) + eps[i]
      ensures stop ==> wrote
      ensures !stop ==> forall a, b | 0 <= a < filled.Length0 && 0 <= b < filled.Length1 && Cell(a, b) != Cell(col, row) ::
        filled[a, b] == old(filled[a, b])
      ensures wrote && !stop ==> DrainsTo(d.z, eps, filled, noData, Cell(col, row), i)
      ensures stop && BelowInit(d.z) && old(AllDrain()) && z <= old(LevelIn(filled, noData, Cell(col, row))) ==> AllDrain()
    {
      var own := Cell(col, row);
      var n := Neighbour(own, i);
      var z2 := d.z.Get(n);
      wrote, stop := false, false;
      if !d.z.IsNoData(z2) {
        var wzn := ReadReal(filled, n, noData) + eps[i];
        if z >= wzn {
          SetLevel(own, z);
          if BelowInit(d.z) && old(AllDrain()) && z <= old(LevelIn(filled, noData, own)) {
            // The neighbour that let the cell down to its elevation is the one it drains to.
            assert DrainsTo(d.z, eps, filled, noData, own, i);
            Lowered();
          }
          label Set:
          DryUpwardCell(col, row);
          assert Dried(d.z, old@Set(filled[own.x, own.y]), filled[own.x, own.y], own);
          wrote, stop := true, true;
        } else if wz > wzn {
          SetLevel(own, wzn);
          wrote := true;
        }
      }
    }

    /** One turn of the loop of `dryUpwardCell`: dry neighbour `i` if it is wet, and go on from it. */
    method DryStep(x: int, y: int, i: int)
      requires Valid() && 1 <= depth <= MaxDepth && 0 <= i < 8
      modifies this, filled
      decreases MaxDepth + 1 - depth, 1
      ensures Valid() && depth == old(depth) && row == old(row) && col == old(col)
      ensures forall a, b | 0 <= a < filled.Length0 && 0 <= b < filled.Length1 ::
        Dried(d.z, old(filled[a, b]), filled[a, b], Cell(a, b))
      ensures BelowInit(d.z) && d.z.Valid(Cell(x, y)) && old(LevelIn(filled, noData, Cell(x, y))) == d.z.Get(Cell(x, y)) ==>
        && LevelIn(filled, noData, Cell(x, y)) == d.z.Get(Cell(x, y))
        && !Wet(d.z, eps, filled, noData, x, y, i)
        && forall j | 0 <= j < 8 && old(!Wet(d.z, eps, filled, noData, x, y, j)) :: !Wet(d.z, eps, filled, noData, x, y, j)
      ensures BelowInit(d.z) && d.z.Valid(Cell(x, y)) && old(AllDrain()) ==> AllDrain()
    {
      var wrote := DryNeighbour(x, y, i);
      label Mid:
      if wrote {
        var n := Neighbour(Cell(x, y), i);
        DryUpwardCell(n.x, n.y);
        forall a, b | 0 <= a < filled.Length0 && 0 <= b < filled.Length1 {
          DriedTrans(d.z, old(filled[a, b]), old@Mid(filled[a, b]), filled[a, b], Cell(a, b));
        }
      }
      var c := Cell(x, y);
      if BelowInit(d.z) && d.z.Valid(c) && old(LevelIn(filled, noData, c)) == d.z.Get(c) {
        assert LevelIn(filled, noData, c) == d.z.Get(c);
        forall j | 0 <= j < 8 && old(!Wet(d.z, eps, filled, noData, x, y, j))
          ensures !Wet(d.z, eps, filled, noData, x, y, j)
        {
          var n := Neighbour(c, j);
          if d.z.Valid(n) {
            DriedStaysDry(d.z, n, old(filled[n.x, n.y]), filled[n.x, n.y], d.z.Get(c) + eps[j]);
          }
        }
        if wrote {
          var n := Neighbour(c, i);
          DriedStaysDry(d.z, n, old@Mid(filled[n.x, n.y]), filled[n.x, n.y], d.z.Get(c) + eps[i]);
        }
      }
    }

    /**
     * One relaxation scan in order `s`: from the scan's starting corner,
     * every cell up to where `nextCell` leaves the grid is processed.  A
     * scan that changes nothing has left every cell on its path settled.
     */
    method Scan(s: int) returns (changed: bool)
      requires Valid() && depth == 0 && 0 <= s < 8
      modifies this, filled
      ensures Valid() && depth == 0
      ensures forall a, b | 0 <= a < filled.Length0 && 0 <= b < filled.Length1 ::
        Relaxed(d.z, old(filled[a, b]), filled[a, b], Cell(a, b))
      ensures BelowInit(d.z) ==> forall a, b | 0 <= a < filled.Length0 && 0 <= b < filled.Length1 :: filled[a, b] <= old(filled[a, b])
      ensures old(Grounded(d.z, filled)) ==> Grounded(d.z, filled)
      ensures !changed ==> forall a, b | 0 <= a < filled.Length0 && 0 <= b < filled.Length1 :: filled[a, b] == old(filled[a, b])
      ensures !changed ==> forall x, y | 0 <= x < d.z.nx && 0 <= y < d.z.ny && OnPath(s, d.z.nx, d.z.ny, Cell(x, y)) ::
        Stable(d.z, eps, filled, noData, Cell(x, y))
      ensures BelowInit(d.z) && old(AllDrain()) ==> AllDrain()
    {
      ghost var drains := BelowInit(d.z) && AllDrain();
      var nx, ny := d.z.nx, d.z.ny;
      row := StartR(s, ny);
      col := StartC(s, nx);
      StartCorner(s, nx, ny);
      FrameInside(s, nx, ny, col, row);
      forall x, y | 0 <= x < nx && 0 <= y < ny
        ensures !Done(s, nx, ny, Cell(x, y), col, row)
      {
        FrameInside(s, nx, ny, x, y);
      }
      changed := false;
      var more := true;
      while more
        invariant Valid() && depth == 0
        invariant more && nx > 0 && ny > 0 ==> Inside(nx, ny, col, row) && OnPath(s, nx, ny, Cell(col, row))
        invariant more && nx > 0 && ny > 0 ==> InFrame(s, nx, ny, FrameP(s, nx, ny, col, row), FrameQ(s, nx, ny, col, row))
        invariant forall a, b | 0 <= a < filled.Length0 && 0 <= b < filled.Length1 ::
          Relaxed(d.z, old(filled[a, b]), filled[a, b], Cell(a, b))
        invariant BelowInit(d.z) ==> forall a, b | 0 <= a < filled.Length0 && 0 <= b < filled.Length1 :: filled[a, b] <= old(filled[a, b])
        invariant !changed ==> forall a, b | 0 <= a < filled.Length0 && 0 <= b < filled.Length1 :: filled[a, b] == old(filled[a, b])
        invariant !changed ==> StableDone(s, col, row)
        invariant !more ==> AllDone(s, col, row)
        invariant drains ==> AllDrain()
        decreases more, SizeQ(s, nx, ny) - FrameQ(s, nx, ny, col, row), SizeP(s, nx, ny) - FrameP(s, nx, ny, col, row)
      {
        label Head:
        var touched;
        touched, more := Visit(s);
        forall a, b | 0 <= a < filled.Length0 && 0 <= b < filled.Length1
          ensures Relaxed(d.z, old(filled[a, b]), filled[a, b], Cell(a, b))
        {
          RelaxedTrans(d.z, old(filled[a, b]), old@Head(filled[a, b]), filled[a, b], Cell(a, b));
        }
        changed := changed || touched;
      }
    }

    /** Every cell of the window done by scan `s` at position `col`, `row` is settled. */
    ghost predicate StableDone(s: int, col: int, row: int)
      requires Valid() && 0 <= s < 8
      reads this, filled
    {
      forall x, y | 0 <= x < d.z.nx && 0 <= y < d.z.ny && Done(s, d.z.nx, d.z.ny, Cell(x, y), col, row) ::
        Stable(d.z, eps, filled, noData, Cell(x, y))
    }

    /** Every cell of the window on the path of scan `s` is done at position `col`, `row`. */
    ghost predicate AllDone(s: int, col: int, row: int)
      requires 0 <= s < 8
      reads this
    {
      forall x, y | 0 <= x < d.z.nx && 0 <= y < d.z.ny && OnPath(s, d.z.nx, d.z.ny, Cell(x, y)) ::
        Done(s, d.z.nx, d.z.ny, Cell(x, y), col, row)
    }

    /**
     * Processes the cell at the scan position and moves on with `nextCell`:
     * the position moves forward along the scan's path, and an untouched
     * cell joins the settled ones.
     */
    method Visit(s: int) returns (touched: bool, more: bool)
      requires Valid() && depth == 0 && 0 <= s < 8
      requires d.z.nx > 0 && d.z.ny > 0 ==> Inside(d.z.nx, d.z.ny, col, row)
      modifies this, filled
      ensures Valid() && depth == 0
      ensures Move(col, row, more) == NextPos(s, d.z.nx, d.z.ny, old(col), old(row))
      ensures forall a, b | 0 <= a < filled.Length0 && 0 <= b < filled.Length1 ::
        Relaxed(d.z, old(filled[a, b]), filled[a, b], Cell(a, b))
      ensures BelowInit(d.z) ==> forall a, b | 0 <= a < filled.Length0 && 0 <= b < filled.Length1 :: filled[a, b] <= old(filled[a, b])
      ensures !touched ==> forall a, b | 0 <= a < filled.Length0 && 0 <= b < filled.Length1 :: filled[a, b] == old(filled[a, b])
      ensures !touched && old(StableDone(s, col, row)) ==> StableDone(s, col, row)
      ensures more && d.z.nx > 0 && d.z.ny > 0 ==> OnPath(s, d.z.nx, d.z.ny, Cell(col, row))
      ensures more && d.z.nx > 0 && d.z.ny > 0 ==> InFrame(s, d.z.nx, d.z.ny, FrameP(s, d.z.nx, d.z.ny, col, row), FrameQ(s, d.z.nx, d.z.ny, col, row))
      ensures more ==>
        || FrameQ(s, d.z.nx, d.z.ny, col, row) > old(FrameQ(s, d.z.nx, d.z.ny, col, row))
        || (FrameQ(s, d.z.nx, d.z.ny, col, row) == old(FrameQ(s, d.z.nx, d.z.ny, col, row))
            && FrameP(s, d.z.nx, d.z.ny, col, row) > old(FrameP(s, d.z.nx, d.z.ny, col, row)))
      ensures !more ==> AllDone(s, col, row)
      ensures BelowInit(d.z) && old(AllDrain()) ==> AllDrain()
    {
      ghost var pc, pr := col, row;
      ghost var drains := BelowInit(d.z) && AllDrain();
      touched := ProcessCell();
      assert drains ==> AllDrain();
      more := NextCell(s);
      var nx, ny := d.z.nx, d.z.ny;
      if Inside(nx, ny, pc, pr) {
        ScanAdvances(s, nx, ny, pc, pr);
      }
    }

    /**
     * One iteration of the second phase: the eight scans in turn, stopping
     * after the first that changes nothing, in which case every cell of
     * the window is settled.
     */
    method Iteration() returns (converged: bool)
      requires Valid() && depth == 0 && Grounded(d.z, filled)
      modifies this, filled
      ensures Valid() && depth == 0 && Grounded(d.z, filled)
      ensures forall a, b | 0 <= a < filled.Length0 && 0 <= b < filled.Length1 ::
        Relaxed(d.z, old(filled[a, b]), filled[a, b], Cell(a, b))
      ensures BelowInit(d.z) ==> forall a, b | 0 <= a < filled.Length0 && 0 <= b < filled.Length1 :: filled[a, b] <= old(filled[a, b])
      ensures converged ==> forall x, y | 0 <= x < d.z.nx && 0 <= y < d.z.ny :: Stable(d.z, eps, filled, noData, Cell(x, y))
      ensures BelowInit(d.z) && old(AllDrain()) ==> AllDrain()
    {
      ghost var drains := BelowInit(d.z) && AllDrain();
      converged := false;
      var s := 0;
      while s < 8 && !converged
        invariant 0 <= s <= 8
        invariant Valid() && depth == 0 && Grounded(d.z, filled)
        invariant forall a, b | 0 <= a < filled.Length0 && 0 <= b < filled.Length1 ::
          Relaxed(d.z, old(filled[a, b]), filled[a, b], Cell(a, b))
        invariant BelowInit(d.z) ==> forall a, b | 0 <= a < filled.Length0 && 0 <= b < filled.Length1 :: filled[a, b] <= old(filled[a, b])
        invariant converged ==> forall x, y | 0 <= x < d.z.nx && 0 <= y < d.z.ny :: Stable(d.z, eps, filled, noData, Cell(x, y))
        invariant drains ==> AllDrain()
      {
        label Head:
        var changed := Scan(s);
        forall a, b | 0 <= a < filled.Length0 && 0 <= b < filled.Length1
          ensures Relaxed(d.z, old(filled[a, b]), filled[a, b], Cell(a, b))
        {
          RelaxedTrans(d.z, old(filled[a, b]), old@Head(filled[a, b]), filled[a, b], Cell(a, b));
        }
        if !changed {
          PathCovers(d.z, eps, filled, noData, s);
        }
        converged := !changed;
        s := s + 1;
      }
    }

    /**
     * The second phase: iterations until one converges, at most
     * `MaxIterations` of them.  When it stops early, every cell is settled.
     */
    method Relax() returns (iterations: int, converged: bool)
      requires Valid() && depth == 0 && Grounded(d.z, filled)
      modifies this, filled
      ensures Valid() && depth == 0 && Grounded(d.z, filled)
      ensures forall a, b | 0 <= a < filled.Length0 && 0 <= b < filled.Length1 ::
        Relaxed(d.z, old(filled[a, b]), filled[a, b], Cell(a, b))
      ensures BelowInit(d.z) ==> forall a, b | 0 <= a < filled.Length0 && 0 <= b < filled.Length1 :: filled[a, b] <= old(filled[a, b])
      ensures 0 <= iterations <= MaxIterations && (!converged ==> iterations == MaxIterations)
      ensures converged ==> forall x, y | 0 <= x < d.z.nx && 0 <= y < d.z.ny :: Stable(d.z, eps, filled, noData, Cell(x, y))
      ensures BelowInit(d.z) && old(AllDrain()) ==> AllDrain()
    {
      ghost var drains := BelowInit(d.z) && AllDrain();
      iterations, converged := 0, false;
      while iterations < MaxIterations && !converged
        invariant 0 <= iterations <= MaxIterations
        invariant Valid() && depth == 0 && Grounded(d.z, filled)
        invariant forall a, b | 0 <= a < filled.Length0 && 0 <= b < filled.Length1 ::
          Relaxed(d.z, old(filled[a, b]), filled[a, b], Cell(a, b))
        invariant BelowInit(d.z) ==> forall a, b | 0 <= a < filled.Length0 && 0 <= b < filled.Length1 :: filled[a, b] <= old(filled[a, b])
        invariant converged ==> forall x, y | 0 <= x < d.z.nx && 0 <= y < d.z.ny :: Stable(d.z, eps, filled, noData, Cell(x, y))
        invariant drains ==> AllDrain()
      {
        label Head:
        converged := Iteration();
        forall a, b | 0 <= a < filled.Length0 && 0 <= b < filled.Length1
          ensures Relaxed(d.z, old(filled[a, b]), filled[a, b], Cell(a, b))
        {
          RelaxedTrans(d.z, old(filled[a, b]), old@Head(filled[a, b]), filled[a, b], Cell(a, b));
        }
        iterations := iterations + 1;
      }
    }
  }

  /**
   * The algorithm: initial levels, drying from the border, then the
   * relaxation scans.  The result keeps no-data cells at the no-data
   * value and border cells at their elevation; when every elevation lies
   * below the initial level, every valid cell lies between its elevation
   * and its initial level; and when the scans converge, every cell is
   * settled.  When every elevation lies below the initial level (and the
   * border raster's no-data value is not the flag 1), every valid inner
   * cell below the initial level drains to a valid neighbour at least the
   * minimum drop lower; and when the scans converge on elevations that
   * leave room for one side drop per column, no valid cell is left at the
   * initial level.
   */
  method Fill(d: Dem, minSlope: real, noData: real, borderNoData: int) returns (filled: array2<real>, converged: bool)
    ensures fresh(filled) && filled.Length0 == d.z.nx && filled.Length1 == d.z.ny
    ensures forall x, y | 0 <= x < d.z.nx && 0 <= y < d.z.ny ::
      && (!d.z.Valid(Cell(x, y)) ==> filled[x, y] == noData)
      && (IsBorder(d.z, Cell(x, y)) ==> filled[x, y] == d.z.Get(Cell(x, y)))
      && (BelowInit(d.z) && d.z.Valid(Cell(x, y)) ==> d.z.Get(Cell(x, y)) <= filled[x, y] <= InitElevation)
    ensures converged ==> forall x, y | 0 <= x < d.z.nx && 0 <= y < d.z.ny :: Stable(d.z, Drops(d, minSlope), filled, noData, Cell(x, y))
    ensures BelowInit(d.z) && borderNoData != 1 ==> Drained(d.z, Drops(d, minSlope), filled, noData)
    ensures converged && Headroom(d.z, Drops(d, minSlope)) ==>
      forall x, y | 0 <= x < d.z.nx && 0 <= y < d.z.ny && d.z.Valid(Cell(x, y)) :: filled[x, y] < InitElevation
  {
    var f := new SinkFiller(d, minSlope, noData, borderNoData);
    f.InitAltitude();
    label Init:
    if BelowInit(d.z) && borderNoData != 1 {
      // Every valid inner cell starts at the initial level, and only border cells are flagged.
      DropsSymmetric(d, minSlope);
      forall x, y | 0 <= x < d.z.nx && 0 <= y < d.z.ny
        ensures Draining(d.z, f.eps, f.filled, noData, Cell(x, y))
      {
      }
      assert f.AllDrain();
      assert f.Flagged();
    }
    f.DryBorders();
    label Dry:
    var iterations;
    iterations, converged := f.Relax();
    filled := f.filled;
    forall x, y | 0 <= x < d.z.nx && 0 <= y < d.z.ny
      ensures !d.z.Valid(Cell(x, y)) ==> filled[x, y] == noData
      ensures IsBorder(d.z, Cell(x, y)) ==> filled[x, y] == d.z.Get(Cell(x, y))
      ensures BelowInit(d.z) && d.z.Valid(Cell(x, y)) ==> d.z.Get(Cell(x, y)) <= filled[x, y] <= InitElevation
    {
      var c := Cell(x, y);
      DriedRelaxed(d.z, old@Init(filled[x, y]), old@Dry(filled[x, y]), c);
      RelaxedTrans(d.z, old@Init(filled[x, y]), old@Dry(filled[x, y]), filled[x, y], c);
      if BelowInit(d.z) {
        DriedLowers(d.z, old@Init(filled[x, y]), old@Dry(filled[x, y]), c);
      }
      FilledBounds(d.z, noData, c, filled[x, y]);
    }
    if converged && Headroom(d.z, f.eps) {
      SettledBelowInit(d.z, f.eps, filled, noData);
    }
  }
}
