/**
 * Watersheds by size: a cell becomes a forced outlet when it drains into a
 * cell whose flow accumulation falls in another multiple of the size
 * parameter.  The forced outlets are written as -1 into an integer raster
 * whose no-data value is 0, and that raster is handed to the watershed
 * labeller as its channel network, with the labeller's minimum basin size
 * left at 0.
 */
module WatershedsBySize {
  import opened Grid
  import opened Drainage
  import opened WatershedOutlets
  import Watersheds
  import WatershedDirections

  /** The no-data value of the outlets raster, which it starts filled with. */
  const OutletNoData := 0

  /** The only value `setOutlet` writes. */
  const Forced := -1

  const IntMax := 2147483647
  const IntMin := -2147483648

  /**
   * Java's `(int)` cast of a double: truncation toward zero, saturating at
   * the bounds of the 32-bit range.
   */
  function JavaInt(r: real): (n: int)
    ensures IntMin <= n <= IntMax
    ensures IntMin as real < r < IntMax as real ==>
      (r >= 0.0 ==> n as real <= r < n as real + 1.0) && (r < 0.0 ==> n as real - 1.0 < r <= n as real)
    ensures r >= IntMax as real ==> n == IntMax
    ensures r <= IntMin as real ==> n == IntMin
  {
    if r >= IntMax as real then IntMax else if r <= IntMin as real then IntMin else Trunc(r)
  }

  /**
   * `(int) (v / size)` as Java evaluates it.  A zero size divides to an
   * infinity, which saturates, or to NaN for `0 / 0`, which casts to 0.
   */
  function SizeClass(v: real, size: real): (k: int)
    ensures IntMin <= k <= IntMax
    ensures size > 0.0 && v >= 0.0 ==> k >= 0
    ensures size == 0.0 ==> (k == 0 <==> v == 0.0)
  {
    if size != 0.0 then JavaInt(v / size)
    else if v > 0.0 then IntMax
    else if v < 0.0 then IntMin
    else 0
  }

  /**
   * For a positive size and a non-negative accumulation below the 32-bit
   * range, the class is the number of whole multiples of the size the
   * accumulation holds.
   */
  lemma SizeClassMeaning(v: real, size: real)
    requires size > 0.0 && 0.0 <= v && v / size < IntMax as real
    ensures SizeClass(v, size) >= 0
    ensures SizeClass(v, size) as real * size <= v < (SizeClass(v, size) + 1) as real * size
  {
    var k := SizeClass(v, size);
    var q := v / size;
    assert q * size == v;
    assert k as real <= q < k as real + 1.0;
    ScaleLe(k as real, q, size);
    ScaleLt(q, k as real + 1.0, size);
    assert q * size < (k as real + 1.0) * size;
    assert (k + 1) as real == k as real + 1.0;
  }

  lemma ScaleLe(a: real, b: real, s: real)
    requires a <= b && s > 0.0
    ensures a * s <= b * s
  {
    assert b * s - a * s == (b - a) * s;
  }

  lemma ScaleLt(a: real, b: real, s: real)
    requires a < b && s > 0.0
    ensures a * s < b * s
  {
    assert b * s - a * s == (b - a) * s;
  }

  /** With a zero size all positive accumulations share one class. */
  lemma ZeroSize(v: real, w: real)
    requires v > 0.0 && w > 0.0
    ensures SizeClass(v, 0.0) == SizeClass(w, 0.0) == IntMax
  {
  }

  /**
   * Cell `a` is one that `setOutlet` at `c` marks once it has examined the
   * directions `0 .. k-1`: a valid cell whose D8 successor is `c`, seen from
   * `c` in one of those directions, whose size class differs from `c`'s.
   */
  predicate MarkedFrom(d: Dem, acc: Layer<real>, size: real, c: Cell, a: Cell, k: int)
  {
    && d.z.Valid(a) && Dir(d, a) >= 0 && Next(d, a) == c
    && (Dir(d, a) + 4) % 8 < k
    && SizeClass(acc.Get(a), size) != SizeClass(acc.Get(c), size)
  }

  /** Examining direction `i` adds exactly neighbour `i`, when it drains into `c` with another class. */
  lemma MarkedStep(d: Dem, acc: Layer<real>, size: real, c: Cell, i: int, a: Cell)
    requires 0 <= i < 8
    ensures MarkedFrom(d, acc, size, c, a, i + 1) <==>
      MarkedFrom(d, acc, size, c, a, i)
      || (a == Neighbour(c, i) && d.z.Valid(a) && Drains(d, c, i)
          && SizeClass(acc.Get(a), size) != SizeClass(acc.Get(c), size))
  {
    OppositeNeighbour(c, i);
    if Dir(d, a) >= 0 {
      OppositeNeighbour(a, Dir(d, a));
      OppositeTwice(Dir(d, a));
      if a == Neighbour(c, i) && Drains(d, c, i) {
        assert Dir(d, a) == (i + 4) % 8;
      }
    }
  }

  /**
   * `setOutlet`: every valid neighbour of `c` whose direction points back
   * at `c` and whose size class differs from `c`'s is set to -1; nothing
   * else changes.
   */
  method SetOutlet(d: Dem, acc: Layer<real>, size: real, outlets: array2<int>, c: Cell)
    requires Shaped(outlets, d)
    modifies outlets
    ensures forall x, y | 0 <= x < outlets.Length0 && 0 <= y < outlets.Length1 ::
      outlets[x, y] == if MarkedFrom(d, acc, size, c, Cell(x, y), 8) then Forced else old(outlets[x, y])
  {
    var own := SizeClass(acc.Get(c), size);
    for i := 0 to 8
      invariant forall x, y | 0 <= x < outlets.Length0 && 0 <= y < outlets.Length1 ::
        outlets[x, y] == if MarkedFrom(d, acc, size, c, Cell(x, y), i) then Forced else old(outlets[x, y])
    {
      forall x, y | 0 <= x < outlets.Length0 && 0 <= y < outlets.Length1 {
        MarkedStep(d, acc, size, c, i, Cell(x, y));
      }
      var nb := Neighbour(c, i);
      if d.z.Valid(nb) {
        var dir := Dir(d, nb);
        if dir >= 0 && (i + 4) % 8 == dir {
          if own != SizeClass(acc.Get(nb), size) {
            outlets[nb.x, nb.y] := Forced;
          }
        }
      }
    }
  }

  /**
   * Cell `a` is a forced outlet: a valid cell draining into a cell with a
   * valid accumulation that lies in another size class.
   */
  predicate IsForced(d: Dem, acc: Layer<real>, size: real, a: Cell)
  {
    && d.z.Valid(a) && Dir(d, a) >= 0 && acc.Valid(Next(d, a))
    && SizeClass(acc.Get(a), size) != SizeClass(acc.Get(Next(d, a)), size)
  }

  /** Cell `c` comes before column `x`, row `y` in the column-by-column scan of `calculateOutlets`. */
  predicate ColumnBefore(c: Cell, x: int, y: int)
  {
    c.x < x || (c.x == x && c.y < y)
  }

  /** A forced outlet is marked by `setOutlet` at its successor, and only there. */
  lemma ForcedMarked(d: Dem, acc: Layer<real>, size: real, c: Cell, a: Cell)
    requires acc.Valid(c)
    ensures MarkedFrom(d, acc, size, c, a, 8) <==> IsForced(d, acc, size, a) && Next(d, a) == c
  {
    if Dir(d, a) >= 0 {
      OppositeNeighbour(a, Dir(d, a));
    }
  }

  /**
   * `calculateOutlets`: after the scan, the outlets raster holds -1 exactly
   * on the forced outlets and its no-data value everywhere else.
   */
  method CalculateOutlets(d: Dem, acc: Layer<real>, size: real) returns (outlets: array2<int>)
    ensures fresh(outlets) && Shaped(outlets, d)
    ensures forall x, y | 0 <= x < outlets.Length0 && 0 <= y < outlets.Length1 ::
      outlets[x, y] == if IsForced(d, acc, size, Cell(x, y)) then Forced else OutletNoData
  {
    outlets := new int[d.z.nx, d.z.ny]((x, y) => OutletNoData);
    var x := 0;
    while x < d.z.nx
      invariant 0 <= x <= d.z.nx
      invariant forall i, j | 0 <= i < outlets.Length0 && 0 <= j < outlets.Length1 ::
        outlets[i, j] == if IsForced(d, acc, size, Cell(i, j)) && ColumnBefore(Next(d, Cell(i, j)), x, 0) then Forced else OutletNoData
    {
      ScanColumn(d, acc, size, outlets, x);
      x := x + 1;
    }
  }

  /** One column of the scan in `calculateOutlets`: every row of column `x`, in order. */
  method ScanColumn(d: Dem, acc: Layer<real>, size: real, outlets: array2<int>, x: int)
    requires Shaped(outlets, d) && 0 <= x < d.z.nx
    requires forall i, j | 0 <= i < outlets.Length0 && 0 <= j < outlets.Length1 ::
      outlets[i, j] == if IsForced(d, acc, size, Cell(i, j)) && ColumnBefore(Next(d, Cell(i, j)), x, 0) then Forced else OutletNoData
    modifies outlets
    ensures forall i, j | 0 <= i < outlets.Length0 && 0 <= j < outlets.Length1 ::
      outlets[i, j] == if IsForced(d, acc, size, Cell(i, j)) && ColumnBefore(Next(d, Cell(i, j)), x + 1, 0) then Forced else OutletNoData
  {
    var y := 0;
    while y < d.z.ny
      invariant 0 <= y <= d.z.ny
      invariant forall i, j | 0 <= i < outlets.Length0 && 0 <= j < outlets.Length1 ::
        outlets[i, j] == if IsForced(d, acc, size, Cell(i, j)) && ColumnBefore(Next(d, Cell(i, j)), x, y) then Forced else OutletNoData
    {
      VisitCell(d, acc, size, outlets, x, y);
      y := y + 1;
    }
  }

  /** One step of the scan: cell (`x`, `y`) marks its forced outlets when its accumulation is valid. */
  method VisitCell(d: Dem, acc: Layer<real>, size: real, outlets: array2<int>, x: int, y: int)
    requires Shaped(outlets, d)
    requires forall i, j | 0 <= i < outlets.Length0 && 0 <= j < outlets.Length1 ::
      outlets[i, j] == if IsForced(d, acc, size, Cell(i, j)) && ColumnBefore(Next(d, Cell(i, j)), x, y) then Forced else OutletNoData
    modifies outlets
    ensures forall i, j | 0 <= i < outlets.Length0 && 0 <= j < outlets.Length1 ::
      outlets[i, j] == if IsForced(d, acc, size, Cell(i, j)) && ColumnBefore(Next(d, Cell(i, j)), x, y + 1) then Forced else OutletNoData
  {
    var c := Cell(x, y);
    if !acc.IsNoData(acc.Get(c)) {
      SetOutlet(d, acc, size, outlets, c);
      forall i, j | 0 <= i < outlets.Length0 && 0 <= j < outlets.Length1 {
        ForcedMarked(d, acc, size, c, Cell(i, j));
      }
    }
  }

  /**
   * The outlets raster as the labeller reads it: -1 on the forced outlets
   * and the no-data value 0 elsewhere, inside and outside the window.
   */
  function Network(d: Dem, acc: Layer<real>, size: real): (net: Layer<int>)
    ensures net.nx == d.z.nx && net.ny == d.z.ny && net.noData == OutletNoData
  {
    Layer(d.z.nx, d.z.ny, (x: int, y: int) => if IsForced(d, acc, size, Cell(x, y)) then Forced else OutletNoData, OutletNoData)
  }

  /**
   * Read as a channel network, the outlets raster makes every forced outlet
   * an outlet of its own and no other cell an outlet at all.
   */
  lemma ForcedOutlets(d: Dem, acc: Layer<real>, size: real, ds: map<Cell, int>, c: Cell)
    requires WatershedDirections.DirsMap(d, ds) && d.z.InWindow(c)
    ensures CellOutlets(d.z, Network(d, acc, size), ds, c) ==
      if IsForced(d, acc, size, c) then [Entry(d.z, c)] else []
  {
    assert c in ds;
    OutletRules(d, Network(d, acc, size), ds, c);
  }

  /** With a minimum size of 0 no basin is too small, so step `j` hands out id `j + 1`. */
  lemma {:induction false} NoneTooSmall(u: seq<set<Cell>>, j: int)
    requires 0 <= j <= |u|
    ensures Watersheds.Counter(u, 0, j) == j
  {
    if j > 0 {
      NoneTooSmall(u, j - 1);
    }
  }

  /**
   * `processAlgorithm`: marks the forced outlets, then hands the outlets
   * raster to the watershed labeller as its channel network, with a minimum
   * size of 0.  The accumulation layer `acc` is the D8 flow accumulation of
   * the DEM.
   */
  method BasinsBySize(d: Dem, acc: Layer<real>, size: real) returns (basins: array2<int>)
    ensures fresh(basins) && Shaped(basins, d)
    ensures var e := Inner(d); var s := Watersheds.SortedOutlets(e, Network(d, acc, size));
      Snapshot(basins) == Watersheds.Labels(Watersheds.Unlabelled(d.z), Watersheds.Areas(e, s), 0, |s|)
  {
    var outlets := CalculateOutlets(d, acc, size);
    var net := AsLayer(outlets, OutletNoData);
    assert SameReadings(net, Network(d, acc, size)) by {
      forall c: Cell
        ensures net.Get(c) == Network(d, acc, size).Get(c)
      {
        if net.InWindow(c) {
          assert c == Cell(c.x, c.y);
        }
      }
    }
    SameNetworkOutlets(Inner(d).z, net, Network(d, acc, size), WatershedDirections.StoredDirs(Inner(d)));
    basins := Watersheds.CalculateBasins(d, net, 0);
  }
}
