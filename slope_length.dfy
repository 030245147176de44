/**
 * Slope length: the cells, sorted by elevation, are visited from the highest
 * to the lowest, and each passes its length plus the step to its D8
 * successor on to that successor, which keeps the largest length it is
 * offered.  With the slope-change threshold in use, a step onto a cell whose
 * slope is not steeper than the threshold times the current slope starts
 * the length afresh.  Cells without elevation or without a downslope
 * direction end as no-data.
 */
module SlopeLength {
  import opened Grid
  import opened Drainage
  import opened Cells
  import MaxValueUphill

  /** The parameters of a run: whether the threshold is used, its absolute value, and the host's slope per cell. */
  datatype Options = Options(useThreshold: bool, threshold: real, slope: Cell -> real)

  /** `Math.abs`. */
  function Abs(r: real): (a: real)
    ensures a >= 0.0 && (a == r || a == -r)
  {
    if r < 0.0 then -r else r
  }

  /** A cell with no elevation or no downslope direction, which `setLength` sets to no-data. */
  predicate Drops(d: Dem, a: Cell)
  {
    !d.z.Valid(a) || Dir(d, a) < 0
  }

  /** The length carries on from `a` to its successor: no threshold, or a steep enough successor. */
  predicate Continues(d: Dem, o: Options, a: Cell)
    requires Dir(d, a) >= 0
  {
    !o.useThreshold || Steeper(o, Next(d, a), a)
  }

  /** The slope at `n` exceeds the threshold times the slope at `a`. */
  predicate Steeper(o: Options, n: Cell, a: Cell)
  {
    Abs(o.slope(n)) > o.threshold * Abs(o.slope(a))
  }

  /** The neighbours of `c` that drain into it. */
  ghost function Drainers(d: Dem, c: Cell): set<Cell>
  {
    set k | 0 <= k < 8 && Drains(d, c, k) :: Neighbour(c, k)
  }

  /** The slope length of `c` once every cell upslope has passed its length on. */
  ghost function Length(d: Dem, o: Options, c: Cell): real
    decreases Height(d, c), 1
  {
    Partial(d, o, c, 0, 0.0, Drainers(d, c))
  }

  /** What a draining cell `a` offers its successor. */
  ghost function Offer(d: Dem, o: Options, a: Cell): real
    requires Dir(d, a) >= 0
    decreases Height(d, a), 2
  {
    if Continues(d, o, a) then Length(d, o, a) + Dist(d, Dir(d, a)) else Dist(d, Dir(d, a))
  }

  /**
   * The largest of `cur` and the offers of the drainers of `c` in the
   * directions `k .. 7` that lie in `done`, the cells already visited.
   */
  ghost function Partial(d: Dem, o: Options, c: Cell, k: int, cur: real, done: set<Cell>): real
    requires 0 <= k <= 8
    decreases Height(d, c), 0, 8 - k, 1
  {
    if k == 8 then cur
    else Partial(d, o, c, k + 1, Step(d, o, c, k, cur, done), done)
  }

  /** The running value after looking at direction `k`: the offer of a visited drainer there counts. */
  ghost function Step(d: Dem, o: Options, c: Cell, k: int, cur: real, done: set<Cell>): real
    requires 0 <= k < 8
    decreases Height(d, c), 0, 8 - k, 0
  {
    if Drains(d, c, k) && Neighbour(c, k) in done then (DrainsUphill(d, c, k); MaxValueUphill.Max(cur, Offer(d, o, Neighbour(c, k)))) else cur
  }

  /** Offering `v` up front is the same as offering it at the end. */
  lemma {:induction false} PartialMax(d: Dem, o: Options, c: Cell, k: int, cur: real, v: real, done: set<Cell>)
    requires 0 <= k <= 8
    ensures Partial(d, o, c, k, MaxValueUphill.Max(cur, v), done) == MaxValueUphill.Max(Partial(d, o, c, k, cur, done), v)
    decreases 8 - k
  {
    if k < 8 {
      if Drains(d, c, k) && Neighbour(c, k) in done {
        DrainsUphill(d, c, k);
        var e := Offer(d, o, Neighbour(c, k));
        MaxSwap(cur, v, e);
        PartialMax(d, o, c, k + 1, MaxValueUphill.Max(cur, e), v, done);
      } else {
        PartialMax(d, o, c, k + 1, cur, v, done);
      }
    }
  }

  lemma MaxSwap(a: real, b: real, c: real)
    ensures MaxValueUphill.Max(MaxValueUphill.Max(a, b), c) == MaxValueUphill.Max(MaxValueUphill.Max(a, c), b)
  {
  }

  /** Only which drainers of `c` lie in the visited set matters. */
  lemma {:induction false} PartialSame(d: Dem, o: Options, c: Cell, k: int, cur: real, done: set<Cell>, other: set<Cell>)
    requires 0 <= k <= 8
    requires forall j | k <= j < 8 && Drains(d, c, j) :: Neighbour(c, j) in done <==> Neighbour(c, j) in other
    ensures Partial(d, o, c, k, cur, done) == Partial(d, o, c, k, cur, other)
    decreases 8 - k
  {
    if k < 8 {
      assert Step(d, o, c, k, cur, done) == Step(d, o, c, k, cur, other);
      PartialSame(d, o, c, k + 1, Step(d, o, c, k, cur, done), done, other);
    }
  }

  /** With no drainer visited the running value is unchanged. */
  lemma {:induction false} PartialEmpty(d: Dem, o: Options, c: Cell, k: int, cur: real)
    requires 0 <= k <= 8
    ensures Partial(d, o, c, k, cur, {}) == cur
    decreases 8 - k
  {
    if k < 8 {
      PartialEmpty(d, o, c, k + 1, cur);
    }
  }

  /** Visiting drainer `j` of `c` adds its offer to the maximum. */
  lemma {:induction false} PartialAdd(d: Dem, o: Options, c: Cell, k: int, cur: real, done: set<Cell>, j: int)
    requires 0 <= k <= j < 8 && Drains(d, c, j)
    ensures Partial(d, o, c, k, cur, done + {Neighbour(c, j)}) ==
        MaxValueUphill.Max(Partial(d, o, c, k, cur, done), Offer(d, o, Neighbour(c, j)))
    decreases 8 - k
  {
    if k == j {
      PartialAddHere(d, o, c, cur, done, j);
    } else {
      var a := Neighbour(c, j);
      NeighboursDistinct(c, k, j);
      var next := Step(d, o, c, k, cur, done);
      assert Step(d, o, c, k, cur, done + {a}) == next;
      PartialAdd(d, o, c, k + 1, next, done, j);
      assert Partial(d, o, c, k, cur, done + {a}) == Partial(d, o, c, k + 1, next, done + {a});
      assert Partial(d, o, c, k, cur, done) == Partial(d, o, c, k + 1, next, done);
    }
  }

  lemma PartialAddHere(d: Dem, o: Options, c: Cell, cur: real, done: set<Cell>, j: int)
    requires 0 <= j < 8 && Drains(d, c, j)
    ensures Partial(d, o, c, j, cur, done + {Neighbour(c, j)}) ==
        MaxValueUphill.Max(Partial(d, o, c, j, cur, done), Offer(d, o, Neighbour(c, j)))
  {
    DrainsUphill(d, c, j);
    var a := Neighbour(c, j);
    var e := Offer(d, o, a);
    forall m | j < m < 8
      ensures Neighbour(c, m) != a
    {
      NeighboursDistinct(c, j, m);
    }
    assert Partial(d, o, c, j, cur, done + {a}) == Partial(d, o, c, j + 1, MaxValueUphill.Max(cur, e), done + {a});
    PartialSame(d, o, c, j + 1, MaxValueUphill.Max(cur, e), done + {a}, done);
    PartialMax(d, o, c, j + 1, cur, e, done);
    if a in done {
      assert Partial(d, o, c, j, cur, done) == Partial(d, o, c, j + 1, MaxValueUphill.Max(cur, e), done);
    } else {
      assert Partial(d, o, c, j, cur, done) == Partial(d, o, c, j + 1, cur, done);
    }
  }

  /** The running value only grows. */
  lemma {:induction false} PartialAtLeast(d: Dem, o: Options, c: Cell, k: int, cur: real, done: set<Cell>)
    requires 0 <= k <= 8
    ensures Partial(d, o, c, k, cur, done) >= cur
    decreases 8 - k
  {
    if k < 8 {
      PartialAtLeast(d, o, c, k + 1, Step(d, o, c, k, cur, done), done);
    }
  }

  /** The running value is `cur` or the offer of a visited drainer. */
  lemma {:induction false} PartialPicks(d: Dem, o: Options, c: Cell, k: int, cur: real, done: set<Cell>)
    requires 0 <= k <= 8
    ensures Partial(d, o, c, k, cur, done) == cur ||
      exists j | k <= j < 8 && Drains(d, c, j) && Neighbour(c, j) in done ::
        Partial(d, o, c, k, cur, done) == Offer(d, o, Neighbour(c, j))
    decreases 8 - k
  {
    if k < 8 {
      PartialPicks(d, o, c, k + 1, Step(d, o, c, k, cur, done), done);
    }
  }

  /** Once every drainer of `c` is visited, the running value from 0 is its slope length. */
  lemma LengthHere(d: Dem, o: Options, c: Cell, done: set<Cell>)
    requires forall k | 0 <= k < 8 && Drains(d, c, k) :: Neighbour(c, k) in done
    ensures Partial(d, o, c, 0, 0.0, done) == Length(d, o, c)
  {
    PartialSame(d, o, c, 0, 0.0, done, Drainers(d, c));
  }

  /** The slope length of a cell is at least every offer of a cell draining into it. */
  lemma LengthCovers(d: Dem, o: Options, c: Cell, j: int)
    requires 0 <= j < 8 && Drains(d, c, j)
    ensures Length(d, o, c) >= Offer(d, o, Neighbour(c, j))
  {
    var done := Drainers(d, c);
    assert done + {Neighbour(c, j)} == done;
    PartialAdd(d, o, c, 0, 0.0, done, j);
  }

  /** The length of the flow path from `a` down to `c`. */
  ghost function PathLength(d: Dem, a: Cell, c: Cell): real
    requires Reaches(d, a, c)
    decreases Depth(d, a)
  {
    if a == c then 0.0
    else
      DirDescends(d, a);
      Dist(d, Dir(d, a)) + PathLength(d, Next(d, a), c)
  }

  /** A path into a drainer `b` of `c` is one step shorter than the path on into `c`. */
  lemma {:induction false} PathLengthSplit(d: Dem, a: Cell, b: Cell, c: Cell)
    requires Reaches(d, a, b) && Dir(d, b) >= 0 && Next(d, b) == c
    ensures Reaches(d, a, c)
    ensures PathLength(d, a, c) == PathLength(d, a, b) + Dist(d, Dir(d, b))
    decreases Depth(d, a)
  {
    DirDescends(d, b);
    assert Reaches(d, b, c);
    ReachesTrans(d, a, b, c);
    if a != b {
      DirDescends(d, a);
      PathLengthSplit(d, Next(d, a), b, c);
      if a == c {
        ReachesDescends(d, a, b);
        assert false;
      }
    }
  }

  /** Without the threshold no flow path into `c` is longer than the slope length of `c`. */
  lemma {:induction false} LengthUpper(d: Dem, o: Options, c: Cell, a: Cell)
    requires !o.useThreshold && Reaches(d, a, c)
    ensures PathLength(d, a, c) <= Length(d, o, c)
    decreases Height(d, c)
  {
    if a == c {
      PartialAtLeast(d, o, c, 0, 0.0, Drainers(d, c));
    } else {
      var j := ReachesLastStep(d, a, c);
      var b := Neighbour(c, j);
      DrainsUphill(d, c, j);
      OppositeNeighbour(c, j);
      LengthUpper(d, o, b, a);
      PathLengthSplit(d, a, b, c);
      LengthCovers(d, o, c, j);
    }
  }

  /** Without the threshold the slope length of `c` is the length of some flow path into `c`. */
  lemma {:induction false} LengthWitness(d: Dem, o: Options, c: Cell) returns (a: Cell)
    requires !o.useThreshold
    ensures Reaches(d, a, c) && PathLength(d, a, c) == Length(d, o, c)
    decreases Height(d, c)
  {
    PartialPicks(d, o, c, 0, 0.0, Drainers(d, c));
    if Length(d, o, c) == 0.0 {
      a := c;
    } else {
      var j :| 0 <= j < 8 && Drains(d, c, j) && Neighbour(c, j) in Drainers(d, c) &&
        Length(d, o, c) == Offer(d, o, Neighbour(c, j));
      var b := Neighbour(c, j);
      DrainsUphill(d, c, j);
      OppositeNeighbour(c, j);
      a := LengthWitness(d, o, b);
      PathLengthSplit(d, a, b, c);
    }
  }

  /**
   * Without the threshold the slope length of a cell is the length of the
   * longest flow path that ends in it.
   */
  lemma LengthIsLongestPath(d: Dem, o: Options, c: Cell)
    requires !o.useThreshold
    ensures forall a | Reaches(d, a, c) :: PathLength(d, a, c) <= Length(d, o, c)
    ensures exists a :: Reaches(d, a, c) && PathLength(d, a, c) == Length(d, o, c)
  {
    forall a | Reaches(d, a, c)
      ensures PathLength(d, a, c) <= Length(d, o, c)
    {
      LengthUpper(d, o, c, a);
    }
    var w := LengthWitness(d, o, c);
  }

  /** The threshold only ever restarts lengths, so it never lengthens one. */
  lemma {:induction false} ThresholdShortens(d: Dem, o: Options, c: Cell)
    ensures 0.0 <= Length(d, o, c) <= Length(d, o.(useThreshold := false), c)
    decreases Height(d, c)
  {
    var o' := o.(useThreshold := false);
    PartialAtLeast(d, o, c, 0, 0.0, Drainers(d, c));
    PartialPicks(d, o, c, 0, 0.0, Drainers(d, c));
    if Length(d, o, c) != 0.0 {
      var j :| 0 <= j < 8 && Drains(d, c, j) && Neighbour(c, j) in Drainers(d, c) &&
        Length(d, o, c) == Offer(d, o, Neighbour(c, j));
      DrainsUphill(d, c, j);
      ThresholdShortens(d, o, Neighbour(c, j));
      LengthCovers(d, o', c, j);
    } else {
      PartialAtLeast(d, o', c, 0, 0.0, Drainers(d, c));
    }
  }

  /** Every entry of the list is a window cell carrying its elevation. */
  predicate Listed(z: Layer<real>, cells: seq<GridCell>)
  {
    forall k | 0 <= k < |cells| :: z.InWindow(cells[k].Pos()) && cells[k].value == z.Get(cells[k].Pos())
  }

  /** Every window cell is in the list. */
  predicate Complete(z: Layer<real>, cells: seq<GridCell>)
  {
    forall x, y | 0 <= x < z.nx && 0 <= y < z.ny :: exists k | 0 <= k < |cells| :: cells[k].Pos() == Cell(x, y)
  }

  /** Numbering cells row by row: cell number `y * nx + x` sits in column `x`, row `y`. */
  lemma CellNumber(x: int, y: int, nx: int, ny: int)
    requires 0 <= x < nx && 0 <= y < ny
    ensures 0 <= y * nx + x < nx * ny
    ensures (y * nx + x) % nx == x && (y * nx + x) / nx == y
  {
    MulLe(y + 1, ny, nx);
    assert y * nx + x < (y + 1) * nx;
    DivModUnique(y * nx + x, nx, y, x);
  }

  lemma MulLe(a: int, b: int, n: int)
    requires a <= b && n >= 0
    ensures a * n <= b * n
  {
    assert b * n - a * n == (b - a) * n;
  }

  /** Euclidean division has one quotient and remainder. */
  lemma DivModUnique(a: int, n: int, q: int, r: int)
    requires n > 0 && 0 <= r < n && a == q * n + r
    ensures a / n == q && a % n == r
  {
    var q', r' := a / n, a % n;
    assert (q - q') * n == r' - r;
    if q > q' {
      MulLe(1, q - q', n);
      assert false;
    } else if q < q' {
      MulLe(1, q' - q, n);
      assert false;
    }
  }

  /** Cell number `k` lies in the window. */
  lemma NumberedCell(k: int, nx: int, ny: int)
    requires 0 <= k < nx * ny && nx >= 0 && ny >= 0
    ensures nx > 0 && 0 <= k % nx < nx && 0 <= k / nx < ny
  {
  }

  /**
   * `getSortedArrayOfCells`: every window cell with its elevation, numbered
   * row by row, then sorted by elevation.
   */
  method SortedArrayOfCells(z: Layer<real>) returns (cells: seq<GridCell>)
    ensures |cells| == z.nx * z.ny
    ensures SortedByValue(cells) && Listed(z, cells) && Complete(z, cells)
  {
    var list: seq<GridCell> := [];
    for i := 0 to z.nx * z.ny
      invariant |list| == i
      invariant i > 0 ==> z.nx > 0
      invariant forall k | 0 <= k < i :: list[k] == GridCell(k % z.nx, k / z.nx, z.Get(Cell(k % z.nx, k / z.nx)))
    {
      NumberedCell(i, z.nx, z.ny);
      var x, y := i % z.nx, i / z.nx;
      list := list + [GridCell(x, y, z.Get(Cell(x, y)))];
    }
    cells := Sort(list);
    SortKeeps(z, list, cells);
  }

  /** The entries of the numbered list are the window cells; sorting keeps that. */
  lemma SortKeeps(z: Layer<real>, list: seq<GridCell>, cells: seq<GridCell>)
    requires |list| == z.nx * z.ny && multiset(cells) == multiset(list)
    requires z.nx * z.ny > 0 ==> z.nx > 0
    requires forall k | 0 <= k < |list| :: list[k] == GridCell(k % z.nx, k / z.nx, z.Get(Cell(k % z.nx, k / z.nx)))
    ensures Listed(z, cells) && Complete(z, cells)
  {
    forall k | 0 <= k < |cells|
      ensures z.InWindow(cells[k].Pos()) && cells[k].value == z.Get(cells[k].Pos())
    {
      assert cells[k] in multiset(list);
      var m :| 0 <= m < |list| && list[m] == cells[k];
      NumberedCell(m, z.nx, z.ny);
    }
    forall x, y | 0 <= x < z.nx && 0 <= y < z.ny
      ensures exists k | 0 <= k < |cells| :: cells[k].Pos() == Cell(x, y)
    {
      CellNumber(x, y, z.nx, z.ny);
      var m := y * z.nx + x;
      assert list[m].Pos() == Cell(x, y);
      assert list[m] in multiset(cells);
      var k :| 0 <= k < |cells| && cells[k] == list[m];
    }
  }

  /** The cells visited once the entries from `i` on have been. */
  ghost function Visited(cells: seq<GridCell>, i: int): set<Cell>
  {
    set j | 0 <= j < |cells| && i <= j :: cells[j].Pos()
  }

  /**
   * The value of cell `c` after the cells in `done` were visited: no-data
   * when `c` was visited and drops, otherwise the largest offer of its
   * visited drainers, or 0.
   */
  ghost predicate HoldsAt(d: Dem, o: Options, v: real, noData: real, done: set<Cell>, c: Cell)
  {
    v == if c in done && Drops(d, c) then noData else Partial(d, o, c, 0, 0.0, done)
  }

  /** The whole raster after the cells in `done` were visited. */
  ghost predicate Holds(d: Dem, o: Options, t: array2<real>, noData: real, done: set<Cell>)
    reads t
  {
    forall x, y | 0 <= x < t.Length0 && 0 <= y < t.Length1 :: HoldsAt(d, o, t[x, y], noData, done, Cell(x, y))
  }

  /** Visiting `a` leaves the value of every cell but its successor as it was, and every cell's when `a` drops. */
  lemma PassedOn(d: Dem, o: Options, a: Cell, done: set<Cell>, noData: real, c: Cell, v: real)
    requires HoldsAt(d, o, v, noData, done, c) && c != a
    requires Drops(d, a) || c != Next(d, a)
    ensures HoldsAt(d, o, v, noData, done + {a}, c)
  {
    forall j | 0 <= j < 8 && Drains(d, c, j)
      ensures Neighbour(c, j) != a
    {
      DrainsUphill(d, c, j);
      OppositeNeighbour(c, j);
    }
    PartialSame(d, o, c, 0, 0.0, done + {a}, done);
  }

  /** What `a` offers when its own length is `own`. */
  function Offered(d: Dem, o: Options, a: Cell, own: real): real
    requires Dir(d, a) >= 0
  {
    if Continues(d, o, a) then own + Dist(d, Dir(d, a)) else Dist(d, Dir(d, a))
  }

  lemma OfferFrom(d: Dem, o: Options, a: Cell)
    requires Dir(d, a) >= 0
    ensures Offer(d, o, a) == Offered(d, o, a, Length(d, o, a))
  {
  }

  /** The length `setLength` computes for the successor `n` of `a` from the length `own` of `a`. */
  method OwnOffer(d: Dem, o: Options, a: Cell, n: Cell, own: real) returns (len: real)
    requires Dir(d, a) >= 0 && n == Next(d, a)
    ensures len == Offered(d, o, a, own)
  {
    var i := Dir(d, a);
    if o.useThreshold {
      if Steeper(o, n, a) {
        len := own + Dist(d, i);
      } else {
        len := Dist(d, i);
      }
    } else {
      len := own + Dist(d, i);
    }
  }

  /** The successor keeps the larger of its value and the offered length. */
  method KeepLarger(t: array2<real>, n: Cell, len: real)
    requires 0 <= n.x < t.Length0 && 0 <= n.y < t.Length1
    modifies t
    ensures t[n.x, n.y] == MaxValueUphill.Max(old(t[n.x, n.y]), len)
    ensures forall x, y | 0 <= x < t.Length0 && 0 <= y < t.Length1 && Cell(x, y) != n :: t[x, y] == old(t[x, y])
  {
    if len > t[n.x, n.y] {
      t[n.x, n.y] := len;
    }
  }

  /** A cell with a direction drains into its successor, seen from there in the opposite direction. */
  lemma SuccessorDrained(d: Dem, a: Cell)
    requires Dir(d, a) >= 0
    ensures 0 <= (Dir(d, a) + 4) % 8 < 8
    ensures Neighbour(Next(d, a), (Dir(d, a) + 4) % 8) == a && Drains(d, Next(d, a), (Dir(d, a) + 4) % 8)
  {
    OppositeNeighbour(a, Dir(d, a));
    OppositeTwice(Dir(d, a));
  }

  /** A visited cell that does not drop keeps its value. */
  lemma StaysPut(d: Dem, o: Options, a: Cell, done: set<Cell>, noData: real, v: real)
    requires HoldsAt(d, o, v, noData, done, a) && !Drops(d, a)
    ensures HoldsAt(d, o, v, noData, done + {a}, a)
  {
    PartialSame(d, o, a, 0, 0.0, done + {a}, done);
  }

  /**
   * `setLength` at `a`, whose drainers have all been visited and whose
   * successor has not: a cell that drops becomes no-data, any other offers
   * its length to its successor, which keeps the larger value.
   */
  method SetLength(d: Dem, o: Options, t: array2<real>, noData: real, a: Cell, ghost done: set<Cell>)
    requires Shaped(t, d) && d.z.InWindow(a) && Holds(d, o, t, noData, done)
    requires forall k | 0 <= k < 8 && Drains(d, a, k) :: Neighbour(a, k) in done
    requires !Drops(d, a) ==> Next(d, a) !in done
    modifies t
    ensures Holds(d, o, t, noData, done + {a})
  {
    if d.z.Valid(a) && Dir(d, a) >= 0 {
      var i := Dir(d, a);
      var n := Neighbour(a, i);
      if d.z.Valid(n) {
        PassLength(d, o, t, noData, a, done);
      } else {
        DirDescends(d, a);
      }
    } else {
      t[a.x, a.y] := noData;
      forall x, y | 0 <= x < t.Length0 && 0 <= y < t.Length1 && Cell(x, y) != a
        ensures HoldsAt(d, o, t[x, y], noData, done + {a}, Cell(x, y))
      {
        PassedOn(d, o, a, done, noData, Cell(x, y), t[x, y]);
      }
    }
  }

  /** The branch of `setLength` for a cell that does not drop. */
  method PassLength(d: Dem, o: Options, t: array2<real>, noData: real, a: Cell, ghost done: set<Cell>)
    requires Shaped(t, d) && Holds(d, o, t, noData, done) && !Drops(d, a)
    requires forall k | 0 <= k < 8 && Drains(d, a, k) :: Neighbour(a, k) in done
    requires Next(d, a) !in done
    modifies t
    ensures Holds(d, o, t, noData, done + {a})
  {
    var i := Dir(d, a);
    var n := Neighbour(a, i);
    DirDescends(d, a);
    assert HoldsAt(d, o, t[a.x, a.y], noData, done, a);
    LengthHere(d, o, a, done);
    OfferFrom(d, o, a);
    var len := OwnOffer(d, o, a, n, t[a.x, a.y]);
    var j := (i + 4) % 8;
    SuccessorDrained(d, a);
    PartialAdd(d, o, n, 0, 0.0, done, j);
    StaysPut(d, o, a, done, noData, t[a.x, a.y]);
    KeepLarger(t, n, len);
    forall x, y | 0 <= x < t.Length0 && 0 <= y < t.Length1 && Cell(x, y) != n
      ensures HoldsAt(d, o, t[x, y], noData, done + {a}, Cell(x, y))
    {
      assert t[x, y] == old(t[x, y]);
      assert HoldsAt(d, o, old(t[x, y]), noData, done, Cell(x, y));
      if Cell(x, y) != a {
        PassedOn(d, o, a, done, noData, Cell(x, y), t[x, y]);
      }
    }
  }

  /**
   * Visiting the sorted list from its end, the drainers of the entry at `i`
   * come later in the list, so they have been visited, and its successor
   * comes earlier, so it has not.
   */
  lemma Ordered(d: Dem, cells: seq<GridCell>, i: int)
    requires SortedByValue(cells) && Listed(d.z, cells) && Complete(d.z, cells) && 0 <= i < |cells|
    ensures forall k | 0 <= k < 8 && Drains(d, cells[i].Pos(), k) :: Neighbour(cells[i].Pos(), k) in Visited(cells, i + 1)
    ensures !Drops(d, cells[i].Pos()) ==> Next(d, cells[i].Pos()) !in Visited(cells, i + 1)
  {
    var a := cells[i].Pos();
    forall k | 0 <= k < 8 && Drains(d, a, k)
      ensures Neighbour(a, k) in Visited(cells, i + 1)
    {
      var b := Neighbour(a, k);
      DrainsUphill(d, a, k);
      assert d.z.InWindow(b);
      var m :| 0 <= m < |cells| && cells[m].Pos() == b;
      LaterIfHigher(d.z, cells, i, m);
    }
    if !Drops(d, a) {
      var n := Next(d, a);
      SuccessorDrained(d, a);
      DrainsUphill(d, n, (Dir(d, a) + 4) % 8);
      forall m | i < m < |cells|
        ensures cells[m].Pos() != n
      {
        if cells[m].Pos() == n {
          LaterIfHigher(d.z, cells, m, i);
        }
      }
    }
  }

  /** In the sorted list an entry at a strictly higher elevation comes later. */
  lemma LaterIfHigher(z: Layer<real>, cells: seq<GridCell>, i: int, m: int)
    requires SortedByValue(cells) && Listed(z, cells) && 0 <= i < |cells| && 0 <= m < |cells|
    requires z.Get(cells[i].Pos()) < z.Get(cells[m].Pos())
    ensures i < m
  {
  }

  /** Before any cell is visited every cell holds the 0 the raster was filled with. */
  lemma NoneVisited(d: Dem, o: Options, t: array2<real>, noData: real)
    requires forall x, y | 0 <= x < t.Length0 && 0 <= y < t.Length1 :: t[x, y] == 0.0
    ensures Holds(d, o, t, noData, {})
  {
    forall x, y | 0 <= x < t.Length0 && 0 <= y < t.Length1
      ensures HoldsAt(d, o, t[x, y], noData, {}, Cell(x, y))
    {
      PartialEmpty(d, o, Cell(x, y), 0, 0.0);
    }
  }

  /** Once every window cell is visited each holds no-data or its slope length. */
  lemma AllVisited(d: Dem, o: Options, t: array2<real>, noData: real, done: set<Cell>)
    requires Shaped(t, d) && Holds(d, o, t, noData, done)
    requires forall x, y | 0 <= x < d.z.nx && 0 <= y < d.z.ny :: Cell(x, y) in done
    ensures forall x, y | 0 <= x < t.Length0 && 0 <= y < t.Length1 ::
      t[x, y] == if Drops(d, Cell(x, y)) then noData else Length(d, o, Cell(x, y))
  {
    forall x, y | 0 <= x < t.Length0 && 0 <= y < t.Length1
      ensures t[x, y] == if Drops(d, Cell(x, y)) then noData else Length(d, o, Cell(x, y))
    {
      assert HoldsAt(d, o, t[x, y], noData, done, Cell(x, y));
      forall k | 0 <= k < 8 && Drains(d, Cell(x, y), k)
        ensures Neighbour(Cell(x, y), k) in done
      {
        DrainsUphill(d, Cell(x, y), k);
      }
      LengthHere(d, o, Cell(x, y), done);
    }
  }

  /** A complete list visits every window cell. */
  lemma CompleteVisited(z: Layer<real>, cells: seq<GridCell>)
    requires Complete(z, cells)
    ensures forall x, y | 0 <= x < z.nx && 0 <= y < z.ny :: Cell(x, y) in Visited(cells, 0)
  {
    forall x, y | 0 <= x < z.nx && 0 <= y < z.ny
      ensures Cell(x, y) in Visited(cells, 0)
    {
      var k :| 0 <= k < |cells| && cells[k].Pos() == Cell(x, y);
    }
  }

  /** One turn of the loop: `setLength` on the entry at `i`. */
  method VisitStep(d: Dem, o: Options, t: array2<real>, noData: real, cells: seq<GridCell>, i: int)
    requires Shaped(t, d) && SortedByValue(cells) && Listed(d.z, cells) && Complete(d.z, cells) && 0 <= i < |cells|
    requires Holds(d, o, t, noData, Visited(cells, i + 1))
    modifies t
    ensures Holds(d, o, t, noData, Visited(cells, i))
  {
    Ordered(d, cells, i);
    VisitedStep(cells, i);
    SetLength(d, o, t, noData, cells[i].Pos(), Visited(cells, i + 1));
  }

  lemma VisitedStep(cells: seq<GridCell>, i: int)
    requires 0 <= i < |cells|
    ensures Visited(cells, i) == Visited(cells, i + 1) + {cells[i].Pos()}
  {
  }

  /** The loop of `processAlgorithm` over the sorted cells, from the last to the first. */
  method VisitAll(d: Dem, o: Options, t: array2<real>, noData: real, cells: seq<GridCell>)
    requires Shaped(t, d) && SortedByValue(cells) && Listed(d.z, cells) && Complete(d.z, cells)
    requires forall x, y | 0 <= x < t.Length0 && 0 <= y < t.Length1 :: t[x, y] == 0.0
    modifies t
    ensures forall x, y | 0 <= x < t.Length0 && 0 <= y < t.Length1 ::
      t[x, y] == if Drops(d, Cell(x, y)) then noData else Length(d, o, Cell(x, y))
  {
    NoneVisited(d, o, t, noData);
    var i := |cells|;
    assert Visited(cells, i) == {};
    while i > 0
      invariant 0 <= i <= |cells|
      invariant Holds(d, o, t, noData, Visited(cells, i))
    {
      i := i - 1;
      VisitStep(d, o, t, noData, cells, i);
    }
    assert i == 0;
    assert Holds(d, o, t, noData, Visited(cells, 0));
    CompleteVisited(d.z, cells);
    AllVisited(d, o, t, noData, Visited(cells, 0));
  }

  /**
   * `processAlgorithm`: a raster filled with 0, the threshold taken as its
   * absolute value, and the cells visited in the order of decreasing
   * elevation.  Every cell ends as no-data when it has no elevation or no
   * downslope direction, and with its slope length otherwise.
   */
  method SlopeLengths(d: Dem, useThreshold: bool, threshold: real, slope: Cell -> real, noData: real)
    returns (t: array2<real>)
    ensures fresh(t) && Shaped(t, d)
    ensures forall x, y | 0 <= x < t.Length0 && 0 <= y < t.Length1 ::
      t[x, y] == if Drops(d, Cell(x, y)) then noData
        else Length(d, Options(useThreshold, Abs(threshold), slope), Cell(x, y))
  {
    var o := Options(useThreshold, Abs(threshold), slope);
    t := new real[d.z.nx, d.z.ny]((x, y) => 0.0);
    var cells := SortedArrayOfCells(d.z);
    VisitAll(d, o, t, noData, cells);
  }
}
