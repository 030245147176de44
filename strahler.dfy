/**
 * Strahler stream order on the D8 drainage network: a cell without
 * upstream neighbours has order 1; otherwise its order is the highest order
 * among the neighbours draining into it, raised by one when at least two of
 * them share that highest order.  No-data cells keep order 0.
 */
module StrahlerOrder {
  import opened Grid
  import opened Drainage

  /** The Strahler order of a cell. */
  ghost function Order(d: Dem, c: Cell): int
    decreases Height(d, c), 9
  {
    if !d.z.Valid(c) then 0
    else
      var m := MaxUp(d, c, 8);
      if CountAt(d, c, 8, m) > 1 then m + 1 else m
  }

  /** The highest order among the drainers in directions `0 .. k-1`, and at least 1. */
  ghost function MaxUp(d: Dem, c: Cell, k: int): (m: int)
    requires 0 <= k <= 8
    ensures m >= 1
    decreases Height(d, c), k
  {
    if k == 0 then 1
    else
      var m := MaxUp(d, c, k - 1);
      if Drains(d, c, k - 1) then
        DrainsUphill(d, c, k - 1);
        var o := Order(d, Neighbour(c, k - 1));
        if o > m then o else m
      else m
  }

  /** How many drainers among directions `0 .. k-1` have order `v`. */
  ghost function CountAt(d: Dem, c: Cell, k: int, v: int): nat
    requires 0 <= k <= 8
    decreases Height(d, c), k
  {
    if k == 0 then 0
    else
      CountAt(d, c, k - 1, v) +
      if Drains(d, c, k - 1) && (DrainsUphill(d, c, k - 1); Order(d, Neighbour(c, k - 1)) == v) then 1 else 0
  }

  /** A value above every drainer order seen so far has not been counted. */
  lemma {:induction false} CountAbove(d: Dem, c: Cell, k: int, v: int)
    requires 0 <= k <= 8 && v > MaxUp(d, c, k)
    ensures CountAt(d, c, k, v) == 0
  {
    if k > 0 {
      CountAbove(d, c, k - 1, v);
      if Drains(d, c, k - 1) {
        DrainsUphill(d, c, k - 1);
        assert Order(d, Neighbour(c, k - 1)) != v;
      }
    }
  }

  /** Every drainer in directions `0 .. k-1` has an order at most `MaxUp`. */
  lemma {:induction false} MaxUpBound(d: Dem, c: Cell, k: int, i: int)
    requires 0 <= i < k <= 8 && Drains(d, c, i)
    ensures (DrainsUphill(d, c, i); Order(d, Neighbour(c, i)) <= MaxUp(d, c, k))
  {
    DrainsUphill(d, c, i);
    if i < k - 1 {
      MaxUpBound(d, c, k - 1, i);
    }
  }

  /** The drainer orders of a valid cell are at least 1. */
  lemma {:induction false} OrderPositive(d: Dem, c: Cell)
    ensures d.z.Valid(c) ==> Order(d, c) >= 1
    ensures !d.z.Valid(c) ==> Order(d, c) == 0
  {
  }

  /** The order never decreases downstream. */
  lemma OrderMonotone(d: Dem, c: Cell, i: int)
    requires 0 <= i < 8 && Drains(d, c, i)
    ensures Order(d, Neighbour(c, i)) <= Order(d, c)
  {
    DrainsUphill(d, c, i);
    MaxUpBound(d, c, 8, i);
  }

  /** A valid cell that no neighbour drains into is a source: order 1. */
  lemma OrderSource(d: Dem, c: Cell)
    requires d.z.Valid(c) && forall i | 0 <= i < 8 :: !Drains(d, c, i)
    ensures Order(d, c) == 1
  {
    NoDrainers(d, c, 8);
  }

  lemma {:induction false} NoDrainers(d: Dem, c: Cell, k: int)
    requires 0 <= k <= 8 && forall i | 0 <= i < 8 :: !Drains(d, c, i)
    ensures MaxUp(d, c, k) == 1 && CountAt(d, c, k, 1) == 0
  {
    if k > 0 {
      NoDrainers(d, c, k - 1);
    }
  }

  /** Two drainers that are counted at value `v` make the count at least 2. */
  lemma {:induction false} CountTwo(d: Dem, c: Cell, k: int, i: int, j: int, v: int)
    requires 0 <= i < j < k <= 8 && Drains(d, c, i) && Drains(d, c, j)
    requires (DrainsUphill(d, c, i); Order(d, Neighbour(c, i)) == v)
    requires (DrainsUphill(d, c, j); Order(d, Neighbour(c, j)) == v)
    ensures CountAt(d, c, k, v) >= 2
  {
    if j < k - 1 {
      CountTwo(d, c, k - 1, i, j, v);
    } else {
      CountOne(d, c, k - 1, i, v);
    }
  }

  lemma {:induction false} CountOne(d: Dem, c: Cell, k: int, i: int, v: int)
    requires 0 <= i < k <= 8 && Drains(d, c, i)
    requires (DrainsUphill(d, c, i); Order(d, Neighbour(c, i)) == v)
    ensures CountAt(d, c, k, v) >= 1
  {
    if i < k - 1 {
      CountOne(d, c, k - 1, i, v);
    }
  }

  /** No drainer of `c` has an order above `v`. */
  ghost predicate TopOrder(d: Dem, c: Cell, v: int)
  {
    forall i | 0 <= i < 8 && Drains(d, c, i) :: Order(d, Neighbour(c, i)) <= v
  }

  /**
   * Confluence: when two different drainers share the highest drainer order
   * `v`, the order of the cell is `v + 1`.
   */
  lemma OrderConfluence(d: Dem, c: Cell, i: int, j: int, v: int)
    requires 0 <= i < j < 8 && Drains(d, c, i) && Drains(d, c, j)
    requires Order(d, Neighbour(c, i)) == v && Order(d, Neighbour(c, j)) == v
    requires TopOrder(d, c, v)
    ensures Order(d, c) == v + 1
  {
    DrainsUphill(d, c, i);
    MaxUpReached(d, c, 8, i, v);
    CountTwo(d, c, 8, i, j, v);
  }

  /** If some drainer has order `v` and none is higher, `MaxUp` is `v`. */
  lemma {:induction false} MaxUpReached(d: Dem, c: Cell, k: int, i: int, v: int)
    requires 0 <= i < k <= 8 && Drains(d, c, i) && TopOrder(d, c, v)
    requires (DrainsUphill(d, c, i); Order(d, Neighbour(c, i)) == v)
    ensures MaxUp(d, c, k) == v
  {
    OrderPositive(d, Neighbour(c, i));
    MaxUpAtMost(d, c, k, v);
    MaxUpBound(d, c, k, i);
  }

  lemma {:induction false} MaxUpAtMost(d: Dem, c: Cell, k: int, v: int)
    requires 0 <= k <= 8 && v >= 1 && TopOrder(d, c, v)
    ensures MaxUp(d, c, k) <= v
  {
    if k > 0 {
      MaxUpAtMost(d, c, k - 1, v);
      if Drains(d, c, k - 1) {
        DrainsUphill(d, c, k - 1);
        assert Order(d, Neighbour(c, k - 1)) <= v;
      }
    }
  }

  /**
   * A single drainer of the highest order `v` passes that order on unchanged,
   * as long as every other drainer is of a lower order.
   */
  lemma OrderContinues(d: Dem, c: Cell, i: int, v: int)
    requires 0 <= i < 8 && Drains(d, c, i) && Order(d, Neighbour(c, i)) == v
    requires forall j | 0 <= j < 8 && j != i && Drains(d, c, j) :: Order(d, Neighbour(c, j)) < v
    ensures Order(d, c) == v
  {
    DrainsUphill(d, c, i);
    assert TopOrder(d, c, v);
    MaxUpReached(d, c, 8, i, v);
    CountUnique(d, c, 8, i, v);
  }

  lemma {:induction false} CountUnique(d: Dem, c: Cell, k: int, i: int, v: int)
    requires 0 <= k <= 8 && 0 <= i < 8
    requires forall j | 0 <= j < 8 && j != i && Drains(d, c, j) :: Order(d, Neighbour(c, j)) < v
    ensures CountAt(d, c, k, v) <= 1
  {
    if k > 0 {
      if k - 1 == i {
        CountNone(d, c, k - 1, i, v);
      } else {
        CountUnique(d, c, k - 1, i, v);
        if Drains(d, c, k - 1) {
          DrainsUphill(d, c, k - 1);
          assert Order(d, Neighbour(c, k - 1)) != v;
        }
      }
    }
  }

  lemma {:induction false} CountNone(d: Dem, c: Cell, k: int, i: int, v: int)
    requires 0 <= k <= i < 8
    requires forall j | 0 <= j < 8 && j != i && Drains(d, c, j) :: Order(d, Neighbour(c, j)) < v
    ensures CountAt(d, c, k, v) == 0
  {
    if k > 0 {
      CountNone(d, c, k - 1, i, v);
    }
  }

  /** The memo entry of a cell is unset (0) or already holds the cell's order. */
  ghost predicate Known(d: Dem, s: array2<int>, x: int, y: int)
    requires 0 <= x < s.Length0 && 0 <= y < s.Length1
    reads s
  {
    s[x, y] == 0 || s[x, y] == Order(d, Cell(x, y))
  }

  /**
   * `getStrahlerOrder`: computes the order of `c` into the memo `s`.  Cells
   * still in progress further down the recursion (holding the provisional 1)
   * are all lower than `c`; every other entry is unset or final.
   */
  method GetOrder(d: Dem, s: array2<int>, c: Cell)
    requires Shaped(s, d)
    requires forall x, y | 0 <= x < s.Length0 && 0 <= y < s.Length1 ::
      Known(d, s, x, y) || Height(d, Cell(x, y)) > Height(d, c)
    modifies s
    ensures forall x, y | 0 <= x < s.Length0 && 0 <= y < s.Length1 ::
      s[x, y] == old(s[x, y]) || (Height(d, Cell(x, y)) <= Height(d, c) && s[x, y] == Order(d, Cell(x, y)))
    ensures d.z.Valid(c) ==> s[c.x, c.y] == Order(d, c)
    decreases Height(d, c), 1
  {
    if !d.z.Valid(c) {
      return;
    }
    if s[c.x, c.y] != 0 {
      return;
    }
    s[c.x, c.y] := 1;
    var maxOrder, maxCells := UpstreamMax(d, s, c);
    if maxCells > 1 {
      maxOrder := maxOrder + 1;
    }
    s[c.x, c.y] := maxOrder;
  }

  /** The loop of `getStrahlerOrder` over the eight neighbours of `c`, which is in progress. */
  method UpstreamMax(d: Dem, s: array2<int>, c: Cell) returns (maxOrder: int, maxCells: int)
    requires Shaped(s, d) && d.z.Valid(c) && s[c.x, c.y] == 1
    requires forall x, y | 0 <= x < s.Length0 && 0 <= y < s.Length1 ::
      Known(d, s, x, y) || Height(d, Cell(x, y)) >= Height(d, c)
    modifies s
    ensures maxOrder == MaxUp(d, c, 8) && maxCells == CountAt(d, c, 8, maxOrder)
    ensures forall x, y | 0 <= x < s.Length0 && 0 <= y < s.Length1 ::
      s[x, y] == old(s[x, y]) || (Height(d, Cell(x, y)) < Height(d, c) && s[x, y] == Order(d, Cell(x, y)))
    decreases Height(d, c), 0, 1
  {
    maxOrder := 1;
    maxCells := 0;
    for i := 0 to 8
      invariant maxOrder == MaxUp(d, c, i) && maxCells == CountAt(d, c, i, maxOrder)
      invariant s[c.x, c.y] == 1
      invariant forall x, y | 0 <= x < s.Length0 && 0 <= y < s.Length1 ::
        s[x, y] == old(s[x, y]) || (Height(d, Cell(x, y)) < Height(d, c) && s[x, y] == Order(d, Cell(x, y)))
    {
      maxOrder, maxCells := UpstreamStep(d, s, c, i, maxOrder, maxCells);
    }
  }

  /** One pass of the loop of `getStrahlerOrder`: the neighbour in direction `i`, when it drains into `c`. */
  method UpstreamStep(d: Dem, s: array2<int>, c: Cell, i: int, maxOrder: int, maxCells: int) returns (maxOrder': int, maxCells': int)
    requires Shaped(s, d) && d.z.Valid(c) && 0 <= i < 8
    requires maxOrder == MaxUp(d, c, i) && maxCells == CountAt(d, c, i, maxOrder)
    requires s[c.x, c.y] == 1
    requires forall x, y | 0 <= x < s.Length0 && 0 <= y < s.Length1 ::
      Known(d, s, x, y) || Height(d, Cell(x, y)) >= Height(d, c)
    modifies s
    ensures maxOrder' == MaxUp(d, c, i + 1) && maxCells' == CountAt(d, c, i + 1, maxOrder')
    ensures s[c.x, c.y] == 1
    ensures forall x, y | 0 <= x < s.Length0 && 0 <= y < s.Length1 ::
      s[x, y] == old(s[x, y]) || (Height(d, Cell(x, y)) < Height(d, c) && s[x, y] == Order(d, Cell(x, y)))
    decreases Height(d, c), 0, 0
  {
    maxOrder', maxCells' := maxOrder, maxCells;
    var n := Neighbour(c, i);
    if Dir(d, n) == (i + 4) % 8 {
      DrainsUphill(d, c, i);
      GetOrder(d, s, n);
      var order := s[n.x, n.y];
      if order > maxOrder {
        CountAbove(d, c, i, order);
        maxOrder' := order;
        maxCells' := 1;
      } else if order == maxOrder {
        maxCells' := maxCells + 1;
      }
    }
  }

  /** The memo is unset or final everywhere. */
  ghost predicate AllKnown(d: Dem, s: array2<int>)
    reads s
  {
    forall i, j | 0 <= i < s.Length0 && 0 <= j < s.Length1 :: Known(d, s, i, j)
  }

  /** Every cell scanned before column `x` of row `y` holds its final order. */
  ghost predicate Done(d: Dem, s: array2<int>, x: int, y: int)
    reads s
  {
    forall i, j | 0 <= i < s.Length0 && 0 <= j < s.Length1 && Before(Cell(i, j), x, y) ::
      s[i, j] == Order(d, Cell(i, j))
  }

  /**
   * `processAlgorithm`: starts from 0 everywhere and visits every cell in
   * row order; the result holds the Strahler order of every cell.
   */
  method StrahlerOrders(d: Dem) returns (s: array2<int>)
    ensures fresh(s) && Shaped(s, d)
    ensures forall x, y | 0 <= x < s.Length0 && 0 <= y < s.Length1 :: s[x, y] == Order(d, Cell(x, y))
  {
    s := new int[d.z.nx, d.z.ny]((x, y) => 0);
    for y := 0 to d.z.ny
      invariant AllKnown(d, s) && Done(d, s, 0, y)
    {
      for x := 0 to d.z.nx
        invariant AllKnown(d, s) && Done(d, s, x, y)
      {
        ScanStep(d, s, x, y);
      }
      assert Done(d, s, 0, y + 1) by {
        forall i, j | 0 <= i < s.Length0 && 0 <= j < s.Length1 && Before(Cell(i, j), 0, y + 1)
          ensures s[i, j] == Order(d, Cell(i, j))
        {
          assert Before(Cell(i, j), d.z.nx, y);
        }
      }
    }
    assert Done(d, s, 0, d.z.ny);
  }

  /** One step of the scan: the order of cell `(x, y)` is computed into the memo. */
  method ScanStep(d: Dem, s: array2<int>, x: int, y: int)
    requires Shaped(s, d) && 0 <= x < s.Length0 && 0 <= y < s.Length1
    requires AllKnown(d, s) && Done(d, s, x, y)
    modifies s
    ensures AllKnown(d, s) && Done(d, s, x + 1, y)
  {
    label L:
    GetOrder(d, s, Cell(x, y));
    if !d.z.Valid(Cell(x, y)) {
      assert Known(d, s, x, y) by {
        assert old@L(Known(d, s, x, y));
      }
      OrderPositive(d, Cell(x, y));
    }
    assert AllKnown(d, s) by {
      forall i, j | 0 <= i < s.Length0 && 0 <= j < s.Length1
        ensures Known(d, s, i, j)
      {
        assert old@L(Known(d, s, i, j));
      }
    }
  }
}
