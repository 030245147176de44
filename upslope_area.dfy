/**
 * Upslope area of an outlet zone: every cell whose D8 flow path passes
 * through a valid cell of the zone layer is marked VISITED (1); the others
 * keep NOT_VISITED (0), which becomes the result's no-data value.
 */
module UpslopeAreaFromArea {
  import opened Grid
  import opened Drainage

  const NotVisited := 0
  const Visited := 1

  predicate InArray(w: array2<int>, a: Cell)
  {
    0 <= a.x < w.Length0 && 0 <= a.y < w.Length1
  }

  predicate Marked(w: array2<int>, a: Cell)
    reads w
  {
    InArray(w, a) && w[a.x, a.y] != NotVisited
  }

  /** Within the upslope area of `c`, the marked cells are closed upslope. */
  ghost predicate ClosedWithin(d: Dem, w: array2<int>, c: Cell)
    reads w
  {
    forall a, b | Marked(w, a) && Reaches(d, a, c) && Reaches(d, b, a) && InArray(w, b) :: Marked(w, b)
  }

  /**
   * `calculateUpslopeAreaFromPoint`: a visited cell is left alone; otherwise
   * a valid cell is marked and the neighbours draining into it are visited.
   */
  method FromPoint(d: Dem, w: array2<int>, c: Cell)
    requires Shaped(w, d) && d.z.InWindow(c)
    requires ClosedWithin(d, w, c)
    modifies w
    ensures d.z.Valid(c) || old(w[c.x, c.y]) != NotVisited ==>
      forall b | InArray(w, b) && Reaches(d, b, c) :: Marked(w, b)
    ensures forall x, y | 0 <= x < w.Length0 && 0 <= y < w.Length1 ::
      w[x, y] == old(w[x, y]) || (Reaches(d, Cell(x, y), c) && old(w[x, y]) == NotVisited && w[x, y] == Visited)
    ensures !d.z.Valid(c) ==> forall x, y | 0 <= x < w.Length0 && 0 <= y < w.Length1 :: w[x, y] == old(w[x, y])
    decreases Height(d, c)
  {
    if w[c.x, c.y] != NotVisited {
      forall b | InArray(w, b) && Reaches(d, b, c)
        ensures Marked(w, b)
      {
        assert Marked(w, c) && Reaches(d, c, c);
      }
      return;
    }
    if !d.z.Valid(c) {
      return;
    }
    w[c.x, c.y] := Visited;
    forall b | InArray(w, b)
      ensures Covered(d, c, b, 0) <==> b == c
    {
      CoveredEnds(d, c, b);
    }
    forall a, b | Marked(w, a) && a != c && Reaches(d, a, c) && Reaches(d, b, a) && InArray(w, b)
      ensures Marked(w, b)
    {
      assert old(Marked(w, a));
    }
    for i := 0 to 8
      invariant forall x, y | 0 <= x < w.Length0 && 0 <= y < w.Length1 ::
        w[x, y] == old(w[x, y]) || (Reaches(d, Cell(x, y), c) && old(w[x, y]) == NotVisited && w[x, y] == Visited)
      invariant forall b | InArray(w, b) && Covered(d, c, b, i) :: Marked(w, b)
      invariant forall a, b | Marked(w, a) && a != c && Reaches(d, a, c) && Reaches(d, b, a) && InArray(w, b) :: Marked(w, b)
    {
      var n := Neighbour(c, i);
      forall b | InArray(w, b)
        ensures Covered(d, c, b, i + 1) <==> Covered(d, c, b, i) || (Drains(d, c, i) && Reaches(d, b, n))
      {
        CoveredStep(d, c, i, b);
      }
      if d.z.Valid(n) {
        var dir := Dir(d, n);
        if dir >= 0 && (i + 4) % 8 == dir {
          DrainsUphill(d, c, i);
          forall a | Reaches(d, a, n)
            ensures a != c && Reaches(d, a, c)
          {
            BranchIff(d, c, i, a);
          }
          assert ClosedWithin(d, w, n);
          label L:
          FromPoint(d, w, n);
          forall a, b | Marked(w, a) && a != c && Reaches(d, a, c) && Reaches(d, b, a) && InArray(w, b)
            ensures Marked(w, b)
          {
            if old@L(w[a.x, a.y]) == NotVisited {
              ReachesTrans(d, b, a, n);
            } else {
              assert old@L(Marked(w, a));
            }
          }
          forall a | InArray(w, a) && Reaches(d, a, n)
            ensures Reaches(d, a, c)
          {
            ReachesThrough(d, a, c, i);
          }
        }
      }
    }
    forall b | InArray(w, b) && Reaches(d, b, c)
      ensures Marked(w, b)
    {
      CoveredEnds(d, c, b);
    }
  }

  /** Cell `s` is a zone cell with data in both layers. */
  predicate ZoneSeed(d: Dem, zone: Layer<real>, s: Cell)
  {
    d.z.InWindow(s) && zone.Valid(s) && d.z.Valid(s)
  }

  /**
   * The flow path of `a` passes through a zone seed scanned before column
   * `x` of row `y`.
   */
  predicate DrainsToZone(d: Dem, zone: Layer<real>, a: Cell, x: int, y: int)
    decreases Depth(d, a)
  {
    (ZoneSeed(d, zone, a) && Before(a, x, y))
    || (Dir(d, a) >= 0 && (DirDescends(d, a); DrainsToZone(d, zone, Next(d, a), x, y)))
  }

  /** `DrainsToZone` holds exactly when the path of `a` reaches an eligible seed. */
  lemma {:induction false} DrainsToZoneWitness(d: Dem, zone: Layer<real>, a: Cell, x: int, y: int) returns (s: Cell)
    requires DrainsToZone(d, zone, a, x, y)
    ensures ZoneSeed(d, zone, s) && Before(s, x, y) && Reaches(d, a, s)
    decreases Depth(d, a)
  {
    if ZoneSeed(d, zone, a) && Before(a, x, y) {
      s := a;
    } else {
      DirDescends(d, a);
      s := DrainsToZoneWitness(d, zone, Next(d, a), x, y);
    }
  }

  lemma {:induction false} DrainsToZoneFromSeed(d: Dem, zone: Layer<real>, a: Cell, s: Cell, x: int, y: int)
    requires ZoneSeed(d, zone, s) && Before(s, x, y) && Reaches(d, a, s)
    ensures DrainsToZone(d, zone, a, x, y)
    decreases Depth(d, a)
  {
    if a != s {
      DirDescends(d, a);
      DrainsToZoneFromSeed(d, zone, Next(d, a), s, x, y);
    }
  }

  /** Scanning seed `Cell(x, y)` adds exactly the cells whose path reaches it. */
  lemma {:induction false} DrainsToZoneStep(d: Dem, zone: Layer<real>, a: Cell, x: int, y: int)
    ensures DrainsToZone(d, zone, a, x + 1, y) <==>
      DrainsToZone(d, zone, a, x, y) || (ZoneSeed(d, zone, Cell(x, y)) && Reaches(d, a, Cell(x, y)))
  {
    if DrainsToZone(d, zone, a, x + 1, y) {
      var s := DrainsToZoneWitness(d, zone, a, x + 1, y);
      if s != Cell(x, y) {
        DrainsToZoneFromSeed(d, zone, a, s, x, y);
      }
    }
    if DrainsToZone(d, zone, a, x, y) {
      var s := DrainsToZoneWitness(d, zone, a, x, y);
      DrainsToZoneFromSeed(d, zone, a, s, x + 1, y);
    }
    if ZoneSeed(d, zone, Cell(x, y)) && Reaches(d, a, Cell(x, y)) {
      DrainsToZoneFromSeed(d, zone, a, Cell(x, y), x + 1, y);
    }
  }

  /** Moving the scan position without passing a window cell changes nothing. */
  lemma {:induction false} DrainsToZoneSame(d: Dem, zone: Layer<real>, a: Cell, x: int, y: int, x': int, y': int)
    requires forall c: Cell | d.z.InWindow(c) :: Before(c, x, y) <==> Before(c, x', y')
    ensures DrainsToZone(d, zone, a, x, y) ==> DrainsToZone(d, zone, a, x', y')
  {
    if DrainsToZone(d, zone, a, x, y) {
      var s := DrainsToZoneWitness(d, zone, a, x, y);
      DrainsToZoneFromSeed(d, zone, a, s, x', y');
    }
  }

  /** The end of a row is the start of the next. */
  lemma DrainsToZoneRow(d: Dem, zone: Layer<real>, a: Cell, y: int)
    ensures DrainsToZone(d, zone, a, d.z.nx, y) <==> DrainsToZone(d, zone, a, 0, y + 1)
  {
    DrainsToZoneSame(d, zone, a, d.z.nx, y, 0, y + 1);
    DrainsToZoneSame(d, zone, a, 0, y + 1, d.z.nx, y);
  }

  /** Cells upslope of a cell draining to the zone drain to the zone. */
  lemma {:induction false} DrainsToZoneUpslope(d: Dem, zone: Layer<real>, a: Cell, b: Cell, x: int, y: int)
    requires DrainsToZone(d, zone, a, x, y) && Reaches(d, b, a)
    ensures DrainsToZone(d, zone, b, x, y)
  {
    var s := DrainsToZoneWitness(d, zone, a, x, y);
    ReachesTrans(d, b, a, s);
    DrainsToZoneFromSeed(d, zone, b, s, x, y);
  }

  /** The marks are those of a scan that has expanded every zone cell before column `x` of row `y`. */
  ghost predicate ScannedTo(d: Dem, zone: Layer<real>, w: array2<int>, x: int, y: int)
    reads w
  {
    forall i, j | 0 <= i < w.Length0 && 0 <= j < w.Length1 ::
      w[i, j] == if DrainsToZone(d, zone, Cell(i, j), x, y) then Visited else NotVisited
  }

  /**
   * `calculateUpslopeArea`: rows then columns, every cell with zone data is
   * expanded.  The result is VISITED exactly on the cells whose flow path
   * passes through a zone cell that has data in both layers.
   */
  method UpslopeArea(d: Dem, zone: Layer<real>) returns (w: array2<int>)
    ensures fresh(w) && Shaped(w, d)
    ensures forall x, y | 0 <= x < w.Length0 && 0 <= y < w.Length1 ::
      w[x, y] == if DrainsToZone(d, zone, Cell(x, y), 0, d.z.ny) then Visited else NotVisited
  {
    w := new int[d.z.nx, d.z.ny]((x, y) => NotVisited);
    forall i, j | 0 <= i < w.Length0 && 0 <= j < w.Length1
      ensures !DrainsToZone(d, zone, Cell(i, j), 0, 0)
    {
      NothingBefore(d, zone, Cell(i, j));
    }
    for y := 0 to d.z.ny
      invariant ScannedTo(d, zone, w, 0, y)
    {
      for x := 0 to d.z.nx
        invariant ScannedTo(d, zone, w, x, y)
      {
        ScanCell(d, zone, w, x, y);
      }
      RowScanned(d, zone, w, y);
    }
  }

  /** Before the scan starts no path reaches a scanned seed. */
  lemma NothingBefore(d: Dem, zone: Layer<real>, a: Cell)
    ensures !DrainsToZone(d, zone, a, 0, 0)
  {
    if DrainsToZone(d, zone, a, 0, 0) {
      var s := DrainsToZoneWitness(d, zone, a, 0, 0);
    }
  }

  /** A scanned row leaves the marks of the start of the next row. */
  lemma RowScanned(d: Dem, zone: Layer<real>, w: array2<int>, y: int)
    requires Shaped(w, d) && ScannedTo(d, zone, w, d.z.nx, y)
    ensures ScannedTo(d, zone, w, 0, y + 1)
  {
    forall i, j | 0 <= i < w.Length0 && 0 <= j < w.Length1
      ensures DrainsToZone(d, zone, Cell(i, j), d.z.nx, y) <==> DrainsToZone(d, zone, Cell(i, j), 0, y + 1)
    {
      DrainsToZoneRow(d, zone, Cell(i, j), y);
    }
  }

  /** One cell of the scan: a zone cell is expanded from. */
  method ScanCell(d: Dem, zone: Layer<real>, w: array2<int>, x: int, y: int)
    requires Shaped(w, d) && 0 <= x < d.z.nx && 0 <= y < d.z.ny && ScannedTo(d, zone, w, x, y)
    modifies w
    ensures ScannedTo(d, zone, w, x + 1, y)
  {
    forall i, j | 0 <= i < w.Length0 && 0 <= j < w.Length1
      ensures DrainsToZone(d, zone, Cell(i, j), x + 1, y) <==>
        DrainsToZone(d, zone, Cell(i, j), x, y) || (ZoneSeed(d, zone, Cell(x, y)) && Reaches(d, Cell(i, j), Cell(x, y)))
    {
      DrainsToZoneStep(d, zone, Cell(i, j), x, y);
    }
    if !zone.IsNoData(zone.Get(Cell(x, y))) {
      forall a, b | Marked(w, a) && Reaches(d, a, Cell(x, y)) && Reaches(d, b, a) && InArray(w, b)
        ensures Marked(w, b)
      {
        DrainsToZoneUpslope(d, zone, a, b, x, y);
      }
      FromPoint(d, w, Cell(x, y));
    }
  }

  /** After the whole scan a cell is marked iff its flow path meets a zone seed. */
  lemma UpslopeAreaMeaning(d: Dem, zone: Layer<real>, a: Cell)
    ensures DrainsToZone(d, zone, a, 0, d.z.ny) <==> exists s :: ZoneSeed(d, zone, s) && Reaches(d, a, s)
  {
    if DrainsToZone(d, zone, a, 0, d.z.ny) {
      var s := DrainsToZoneWitness(d, zone, a, 0, d.z.ny);
    }
    if exists s :: ZoneSeed(d, zone, s) && Reaches(d, a, s) {
      var s :| ZoneSeed(d, zone, s) && Reaches(d, a, s);
      DrainsToZoneFromSeed(d, zone, a, s, 0, d.z.ny);
    }
  }
}
