/**
 * Raster windows, grid cells, the eight-neighbour table and the terrain
 * primitives of the host raster wrapper that every hydrology algorithm uses.
 */
module Grid {

  /** An optional value, for inputs the algorithms may be given or not. */
  datatype Option<T> = None | Some(value: T)

  /** A grid cell: column `x`, row `y`. */
  datatype Cell = Cell(x: int, y: int)

  /**
   * A read-only raster layer over an `nx` by `ny` window.  Reading a cell
   * outside the window yields the layer's no-data value, as the host wrapper
   * does; a value equal to `noData` is the no-data marker.
   */
  datatype Layer<T(==)> = Layer(nx: nat, ny: nat, value: (int, int) -> T, noData: T)
  {
    predicate InWindow(c: Cell)
    {
      0 <= c.x < nx && 0 <= c.y < ny
    }

    function Get(c: Cell): T
    {
      if InWindow(c) then value(c.x, c.y) else noData
    }

    predicate IsNoData(v: T)
    {
      v == noData
    }

    predicate Valid(c: Cell)
    {
      !IsNoData(Get(c))
    }
  }

  /**
   * An elevation model: the elevation layer, the distances to a neighbour
   * across a side (`cellSize`) and across a corner (`diagonal`), and the
   * host's two directions to the next downslope cell for every cell: the
   * default overload (`downslope`) and the one called with `false`
   * (`downslopeInner`), which also answers -1 at cells on the border of the
   * data.
   */
  datatype DemData = DemData(z: Layer<real>, cellSize: real, diagonal: real,
                             downslope: Cell -> int, downslopeInner: Cell -> int)

  /** The contract of both host downslope directions (see `Dir`): -1, or a valid, strictly lower neighbour. */
  ghost predicate DirectionOk(z: Layer<real>, c: Cell, r: int)
  {
    && -1 <= r < 8
    && (r >= 0 ==> z.Valid(c) && LowerIn(z, c, r))
  }

  /** Both directions keep their contract at every cell. */
  ghost predicate Directed(d: DemData)
  {
    forall c: Cell :: DirectionOk(d.z, c, d.downslope(c)) && DirectionOk(d.z, c, d.downslopeInner(c))
  }

  type Dem = d: DemData | d.cellSize > 0.0 && d.diagonal > 0.0 && Directed(d)
    witness DemData(Layer(0, 0, (x: int, y: int) => 0.0, 0.0), 1.0, 1.0, (c: Cell) => -1, (c: Cell) => -1)

  /** Column offsets of the eight neighbours, direction 0 being +y and turning clockwise. */
  function OffsetX(i: int): int
    requires 0 <= i < 8
  {
    [0, 1, 1, 1, 0, -1, -1, -1][i]
  }

  /** Row offsets of the eight neighbours. */
  function OffsetY(i: int): int
    requires 0 <= i < 8
  {
    [1, 1, 0, -1, -1, -1, 0, 1][i]
  }

  function Neighbour(c: Cell, i: int): Cell
    requires 0 <= i < 8
  {
    Cell(c.x + OffsetX(i), c.y + OffsetY(i))
  }

  /** Direction `(i + 4) % 8` is the opposite of direction `i`. */
  lemma OppositeNeighbour(c: Cell, i: int)
    requires 0 <= i < 8
    ensures 0 <= (i + 4) % 8 < 8
    ensures Neighbour(Neighbour(c, i), (i + 4) % 8) == c
    ensures Neighbour(c, i) != c
  {
  }

  lemma OppositeTwice(i: int)
    requires 0 <= i < 8
    ensures ((i + 4) % 8 + 4) % 8 == i
  {
  }

  /** Neighbour offsets only ever differ. */
  lemma NeighboursDistinct(c: Cell, i: int, j: int)
    requires 0 <= i < 8 && 0 <= j < 8 && i != j
    ensures Neighbour(c, i) != Neighbour(c, j)
  {
  }

  /** The host's distance to the neighbour in direction `i`. */
  function Dist(d: Dem, i: int): (r: real)
    ensures r > 0.0
  {
    if i % 2 == 0 then d.cellSize else d.diagonal
  }

  /** Neighbour `i` of `c` holds data and lies strictly below `c`. */
  predicate LowerIn(z: Layer<real>, c: Cell, i: int)
    requires 0 <= i < 8
  {
    z.Valid(Neighbour(c, i)) && z.Get(Neighbour(c, i)) < z.Get(c)
  }

  predicate Lower(d: Dem, c: Cell, i: int)
    requires 0 <= i < 8
  {
    LowerIn(d.z, c, i)
  }

  /** Valid cells of the window strictly above elevation `t`. */
  function Above(d: Dem, t: real): set<Cell>
  {
    set x: int, y: int | 0 <= x < d.z.nx && 0 <= y < d.z.ny && d.z.Valid(Cell(x, y)) && d.z.Get(Cell(x, y)) > t :: Cell(x, y)
  }

  /** Valid cells of the window strictly below elevation `t`. */
  function Below(d: Dem, t: real): set<Cell>
  {
    set x: int, y: int | 0 <= x < d.z.nx && 0 <= y < d.z.ny && d.z.Valid(Cell(x, y)) && d.z.Get(Cell(x, y)) < t :: Cell(x, y)
  }

  /** Termination measure of the upslope walks: how many cells are higher. */
  function Height(d: Dem, c: Cell): nat
  {
    |Above(d, d.z.Get(c))|
  }

  /** Termination measure of the downslope walks: how many cells are lower. */
  function Depth(d: Dem, c: Cell): nat
  {
    |Below(d, d.z.Get(c))|
  }

  lemma ProperSubsetCard<T>(a: set<T>, b: set<T>, e: T)
    requires a <= b && e in b && e !in a
    ensures |a| < |b|
  {
    assert b == a + (b - a);
    assert e in b - a;
  }

  /** A strictly higher valid cell has fewer cells above it, and more below. */
  lemma HigherCell(d: Dem, lo: Cell, hi: Cell)
    requires d.z.Valid(lo) && d.z.Valid(hi) && d.z.Get(lo) < d.z.Get(hi)
    ensures Height(d, hi) < Height(d, lo)
    ensures Depth(d, lo) < Depth(d, hi)
  {
    ProperSubsetCard(Above(d, d.z.Get(hi)), Above(d, d.z.Get(lo)), hi);
    ProperSubsetCard(Below(d, d.z.Get(lo)), Below(d, d.z.Get(hi)), lo);
  }

  /**
   * The host's direction to the next downslope cell (its internals are not
   * part of this model): -1, or a direction leading to a valid, strictly
   * lower neighbour of a valid cell.  Which lower neighbour it picks, and
   * when it answers -1, is the host's business.
   */
  function Dir(d: Dem, c: Cell): (r: int)
    ensures -1 <= r < 8
    ensures r >= 0 ==> d.z.Valid(c) && Lower(d, c, r)
  {
    assert Directed(d);
    d.downslope(c)
  }

  /**
   * The same model seen through the host's direction called with `false`:
   * an algorithm that calls that overload is modelled as taking `Inner(d)`,
   * whose `Dir` is the `false` overload.  It may answer -1 at any cell, in
   * particular at a valid cell next to no-data or to the edge of the grid.
   */
  function Inner(d: Dem): (e: Dem)
    ensures e.z == d.z && e.cellSize == d.cellSize && e.diagonal == d.diagonal
    ensures forall c: Cell :: Dir(e, c) == d.downslopeInner(c)
  {
    assert Directed(d);
    d.(downslope := d.downslopeInner)
  }

  /** Following the downslope direction moves to a cell with fewer cells below it. */
  lemma DirDescends(d: Dem, c: Cell)
    requires Dir(d, c) >= 0
    ensures Height(d, c) < Height(d, Neighbour(c, Dir(d, c)))
    ensures Depth(d, Neighbour(c, Dir(d, c))) < Depth(d, c)
  {
    HigherCell(d, Neighbour(c, Dir(d, c)), c);
  }

  /** A channel-network value of a river cell: neither no-data nor 0. */
  predicate IsRiver(net: Layer<int>, v: int)
  {
    !net.IsNoData(v) && v != 0
  }

  /** Java's `(int)` cast of a double: truncation toward zero. */
  function Trunc(r: real): (n: int)
    ensures r >= 0.0 ==> 0 <= n && n as real <= r < n as real + 1.0
    ensures r < 0.0 ==> n <= 0 && n as real - 1.0 < r <= n as real
  {
    if r >= 0.0 then r.Floor else -((-r).Floor)
  }

  /**
   * Java's `%` on doubles: `a` less a whole multiple of `b`, with the sign
   * of the dividend and smaller in size than the divisor.
   */
  function FMod(a: real, b: real): (m: real)
    requires b != 0.0
    ensures (a >= 0.0 ==> m >= 0.0) && (a <= 0.0 ==> m <= 0.0)
    ensures (b > 0.0 ==> -b < m < b) && (b < 0.0 ==> b < m < -b)
  {
    var q := Trunc(a / b);
    FModBounds(a, b, q);
    a - b * q as real
  }

  lemma FModBounds(a: real, b: real, q: int)
    requires b != 0.0 && q == Trunc(a / b)
    ensures var m := a - b * q as real;
      (a >= 0.0 ==> m >= 0.0) && (a <= 0.0 ==> m <= 0.0) &&
      (b > 0.0 ==> -b < m < b) && (b < 0.0 ==> b < m < -b)
  {
    var t := a / b;
    var f := t - q as real;
    assert a == b * t;
    assert a - b * q as real == b * f;
    assert -1.0 < f < 1.0;
    assert t >= 0.0 ==> f >= 0.0;
    assert t <= 0.0 ==> f <= 0.0;
    if b > 0.0 {
      assert a >= 0.0 ==> t >= 0.0;
      assert a <= 0.0 ==> t <= 0.0;
      assert b - b * f == b * (1.0 - f) && b + b * f == b * (1.0 + f);
      MulPos(b, 1.0 - f);
      MulPos(b, 1.0 + f);
    } else {
      assert a >= 0.0 ==> t <= 0.0;
      assert a <= 0.0 ==> t >= 0.0;
      assert -b - b * f == -b * (1.0 + f) && -b + b * f == -b * (1.0 - f);
      MulPos(-b, 1.0 + f);
      MulPos(-b, 1.0 - f);
    }
  }

  lemma MulPos(x: real, y: real)
    requires x > 0.0 && y > 0.0
    ensures x * y > 0.0
  {
  }

  lemma TruncOfInt(n: int)
    ensures Trunc(n as real) == n
  {
  }

  /** Reads of a mutable raster: cells outside the array read as `noData`. */
  function ReadReal(a: array2<real>, c: Cell, noData: real): real
    reads a
  {
    if 0 <= c.x < a.Length0 && 0 <= c.y < a.Length1 then a[c.x, c.y] else noData
  }

  function ReadInt(a: array2<int>, c: Cell, noData: int): int
    reads a
  {
    if 0 <= c.x < a.Length0 && 0 <= c.y < a.Length1 then a[c.x, c.y] else noData
  }

  /** Cell `c` comes before column `x` of row `y` in a row-by-row scan. */
  predicate Before(c: Cell, x: int, y: int)
  {
    c.y < y || (c.y == y && c.x < x)
  }

  /** The array has the window's shape. */
  predicate Shaped<T>(a: array2<T>, d: Dem)
  {
    a.Length0 == d.z.nx && a.Length1 == d.z.ny
  }

  /** Two layers over the same window with the same no-data value that read alike at every cell. */
  ghost predicate SameReadings(a: Layer<int>, b: Layer<int>)
  {
    a.nx == b.nx && a.ny == b.ny && a.noData == b.noData && forall c: Cell :: a.Get(c) == b.Get(c)
  }

  /**
   * A raster the host wrote, handed on to another algorithm as an input
   * layer: the window of the array, its values inside the window and the
   * no-data value `noData` outside.
   */
  method AsLayer(a: array2<int>, noData: int) returns (l: Layer<int>)
    ensures l.nx == a.Length0 && l.ny == a.Length1 && l.noData == noData
    ensures forall x, y | 0 <= x < a.Length0 && 0 <= y < a.Length1 :: l.Get(Cell(x, y)) == a[x, y]
  {
    var g := seq(a.Length0, x requires 0 <= x < a.Length0 reads a =>
      seq(a.Length1, y requires 0 <= y < a.Length1 reads a => a[x, y]));
    l := Layer(a.Length0, a.Length1, (x: int, y: int) => if 0 <= x < |g| && 0 <= y < |g[x]| then g[x][y] else noData, noData);
  }

  /** The contents of a raster array as a map from cells to values. */
  ghost function Snapshot<T>(a: array2<T>): map<Cell, T>
    reads a
  {
    map x, y | 0 <= x < a.Length0 && 0 <= y < a.Length1 :: Cell(x, y) := a[x, y]
  }

  /** `m` with the value of every key in `s` replaced by `v`. */
  function Paint<T>(m: map<Cell, T>, s: set<Cell>, v: T): (r: map<Cell, T>)
    ensures r.Keys == m.Keys
  {
    map a | a in m :: if a in s then v else m[a]
  }

  /** The value `Paint` leaves at one key. */
  lemma PaintAt<T>(m: map<Cell, T>, s: set<Cell>, v: T, a: Cell)
    requires a in m
    ensures Paint(m, s, v)[a] == if a in s then v else m[a]
  {
  }

  /** Reading an integer raster array is looking up its snapshot. */
  lemma ReadSnapshot(a: array2<int>, c: Cell, noData: int)
    ensures ReadInt(a, c, noData) == if c in Snapshot(a) then Snapshot(a)[c] else noData
  {
    if 0 <= c.x < a.Length0 && 0 <= c.y < a.Length1 {
      assert c == Cell(c.x, c.y);
    }
  }

  /** Painting twice with the same value paints the union. */
  lemma PaintTwice<T>(m: map<Cell, T>, s: set<Cell>, t: set<Cell>, v: T)
    ensures Paint(Paint(m, s, v), t, v) == Paint(m, s + t, v)
  {
  }

  /** Painting one key is an update. */
  lemma PaintOne<T>(m: map<Cell, T>, c: Cell, v: T)
    requires c in m
    ensures Paint(m, {c}, v) == m[c := v]
  {
  }

  lemma PaintNothing<T>(m: map<Cell, T>, v: T)
    ensures Paint(m, {}, v) == m
  {
  }

  /** Writes `v` at cell `c` of a raster array. */
  method Store<T>(a: array2<T>, c: Cell, v: T)
    requires 0 <= c.x < a.Length0 && 0 <= c.y < a.Length1
    modifies a
    ensures Snapshot(a) == old(Snapshot(a))[c := v]
  {
    a[c.x, c.y] := v;
  }

  /** The lists `f` gives for the cells of row `y`, columns `0 .. x-1`, one after the other. */
  function RowCat<T>(f: Cell -> seq<T>, y: int, x: nat): seq<T>
  {
    if x == 0 then [] else RowCat(f, y, x - 1) + f(Cell(x - 1, y))
  }

  /** The lists `f` gives for rows `0 .. y-1` of width `nx`, in scan order. */
  function ScanCat<T>(f: Cell -> seq<T>, nx: nat, y: nat): seq<T>
  {
    if y == 0 then [] else ScanCat(f, nx, y - 1) + RowCat(f, y - 1, nx)
  }

  /** Appending the list of the next cell extends the row. */
  lemma RowCatStep<T>(f: Cell -> seq<T>, y: int, x: nat, pre: seq<T>, t: seq<T>)
    requires t == f(Cell(x, y))
    ensures (pre + RowCat(f, y, x)) + t == pre + RowCat(f, y, x + 1)
  {
  }

  lemma {:induction false} RowCatMembers<T>(f: Cell -> seq<T>, y: int, x: nat, g: T)
    ensures g in RowCat(f, y, x) <==> exists c: Cell | 0 <= c.x < x && c.y == y :: g in f(c)
  {
    RowCatHas(f, y, x, g);
    if exists c: Cell | 0 <= c.x < x && c.y == y :: g in f(c) {
      var c: Cell :| 0 <= c.x < x && c.y == y && g in f(c);
      RowCatCovers(f, y, x, c, g);
    }
  }

  /** Every entry of a row comes from one of its cells. */
  lemma {:induction false} RowCatHas<T>(f: Cell -> seq<T>, y: int, x: nat, g: T)
    ensures g in RowCat(f, y, x) ==> exists c: Cell | 0 <= c.x < x && c.y == y :: g in f(c)
  {
    if x > 0 && g in RowCat(f, y, x) {
      var last := Cell(x - 1, y);
      if g in f(last) {
        assert 0 <= last.x < x && last.y == y;
      } else {
        assert g in RowCat(f, y, x - 1);
        RowCatHas(f, y, x - 1, g);
      }
    }
  }

  /** Every entry of a row's cell is in the row. */
  lemma {:induction false} RowCatCovers<T>(f: Cell -> seq<T>, y: int, x: nat, c: Cell, g: T)
    requires 0 <= c.x < x && c.y == y && g in f(c)
    ensures g in RowCat(f, y, x)
  {
    if c.x < x - 1 {
      RowCatCovers(f, y, x - 1, c, g);
    } else {
      assert c == Cell(x - 1, y);
    }
  }

  /** The scan holds exactly the entries of the listed cells' lists. */
  lemma {:induction false} ScanCatMembers<T>(f: Cell -> seq<T>, nx: nat, y: nat, g: T)
    ensures g in ScanCat(f, nx, y) <==> exists c: Cell | 0 <= c.x < nx && 0 <= c.y < y :: g in f(c)
  {
    ScanCatHas(f, nx, y, g);
    if exists c: Cell | 0 <= c.x < nx && 0 <= c.y < y :: g in f(c) {
      var c: Cell :| 0 <= c.x < nx && 0 <= c.y < y && g in f(c);
      ScanCatCovers(f, nx, y, c, g);
    }
  }

  /** Every entry of the scan comes from one of the scanned cells. */
  lemma {:induction false} ScanCatHas<T>(f: Cell -> seq<T>, nx: nat, y: nat, g: T)
    ensures g in ScanCat(f, nx, y) ==> exists c: Cell | 0 <= c.x < nx && 0 <= c.y < y :: g in f(c)
  {
    if y > 0 && g in ScanCat(f, nx, y) {
      var pre, row := ScanCat(f, nx, y - 1), RowCat(f, y - 1, nx);
      assert ScanCat(f, nx, y) == pre + row;
      if g in row {
        RowCatHas(f, y - 1, nx, g);
        var c: Cell :| 0 <= c.x < nx && c.y == y - 1 && g in f(c);
        assert 0 <= c.x < nx && 0 <= c.y < y;
      } else {
        assert g in pre;
        ScanCatHas(f, nx, y - 1, g);
      }
    }
  }

  /** Every entry of a scanned cell is in the scan. */
  lemma {:induction false} ScanCatCovers<T>(f: Cell -> seq<T>, nx: nat, y: nat, c: Cell, g: T)
    requires 0 <= c.x < nx && 0 <= c.y < y && g in f(c)
    ensures g in ScanCat(f, nx, y)
  {
    var pre, row := ScanCat(f, nx, y - 1), RowCat(f, y - 1, nx);
    assert ScanCat(f, nx, y) == pre + row;
    if c.y < y - 1 {
      ScanCatCovers(f, nx, y - 1, c, g);
      assert g in pre;
    } else {
      RowCatCovers(f, y - 1, nx, c, g);
      assert g in row;
    }
  }

  /** Lists built from functions that agree on every cell are the same. */
  lemma {:induction false} ScanCatAgree<T>(f: Cell -> seq<T>, g: Cell -> seq<T>, nx: nat, y: nat)
    requires forall c: Cell :: f(c) == g(c)
    ensures ScanCat(f, nx, y) == ScanCat(g, nx, y)
  {
    if y > 0 {
      ScanCatAgree(f, g, nx, y - 1);
      RowCatAgree(f, g, y - 1, nx);
    }
  }

  lemma {:induction false} RowCatAgree<T>(f: Cell -> seq<T>, g: Cell -> seq<T>, y: int, x: nat)
    requires forall c: Cell :: f(c) == g(c)
    ensures RowCat(f, y, x) == RowCat(g, y, x)
  {
    if x > 0 {
      RowCatAgree(f, g, y, x - 1);
    }
  }

  /** `f(i)` for the indices `i` in `0 .. k-1` that satisfy `p`, in index order. */
  function Select<T>(p: int -> bool, f: int -> T, k: nat): (r: seq<T>)
    ensures |r| <= k
  {
    if k == 0 then [] else Select(p, f, k - 1) + if p(k - 1) then [f(k - 1)] else []
  }

  lemma {:induction false} SelectMembers<T>(p: int -> bool, f: int -> T, k: nat, v: T)
    ensures v in Select(p, f, k) <==> exists i | 0 <= i < k :: p(i) && v == f(i)
  {
    if k > 0 {
      SelectMembers(p, f, k - 1, v);
    }
  }

  /** Selections by tests that agree below `k` are the same. */
  lemma {:induction false} SelectAgree<T>(p: int -> bool, q: int -> bool, f: int -> T, k: nat)
    requires forall i | 0 <= i < k :: p(i) == q(i)
    ensures Select(p, f, k) == Select(q, f, k)
  {
    if k > 0 {
      SelectAgree(p, q, f, k - 1);
    }
  }

  /** One entry per selected index. */
  lemma {:induction false} SelectCount<T>(p: int -> bool, f: int -> T, k: nat)
    ensures |Select(p, f, k)| == |set i | 0 <= i < k && p(i)|
  {
    if k > 0 {
      SelectCount(p, f, k - 1);
      var s := set i | 0 <= i < k - 1 && p(i);
      if p(k - 1) {
        assert (set i | 0 <= i < k && p(i)) == s + {k - 1};
      } else {
        assert (set i | 0 <= i < k && p(i)) == s;
      }
    }
  }
}
