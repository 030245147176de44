/**
 * Mean value uphill: for every valid cell, the mean of a parameter over the
 * cells whose D8 flow path passes through it (no-data parameter cells do
 * not count), obtained by accumulating a count and a sum downslope and
 * dividing at the end.
 */
module MeanValueUphill {
  import opened Grid
  import opened Drainage

  /** Both accumulators start at -1; -1 is also the result's no-data value. */
  const NotVisited: real := -1.0
  const NotVisitedCount: int := -1

  /** The cells whose parameter value is not no-data. */
  function HasParam(param: Layer<real>): Cell -> bool
  {
    (a: Cell) => param.Valid(a)
  }

  /** A cell's own contribution to the sum. */
  function Own(param: Layer<real>, a: Cell): real
  {
    if param.Valid(a) then param.Get(a) else 0.0
  }

  /** The accumulated sum: the cell's own value plus the sums of its drainers. */
  ghost function UpSum(d: Dem, param: Layer<real>, c: Cell): real
    decreases Height(d, c), 9
  {
    Own(param, c) + UpSumFrom(d, param, c, 0)
  }

  ghost function UpSumFrom(d: Dem, param: Layer<real>, c: Cell, k: int): real
    requires 0 <= k <= 8
    decreases Height(d, c), 8 - k
  {
    if k == 8 then 0.0
    else
      (if Drains(d, c, k) then (DrainsUphill(d, c, k); UpSum(d, param, Neighbour(c, k))) else 0.0)
      + UpSumFrom(d, param, c, k + 1)
  }

  /** The accumulated count of cells with a parameter value. */
  ghost function UpCountOf(d: Dem, param: Layer<real>, c: Cell): nat
  {
    UpCount(d, HasParam(param), c)
  }

  /** Every parameter value upslope of `c` lies in `[lo, hi]`. */
  ghost predicate UpslopeWithin(d: Dem, param: Layer<real>, c: Cell, lo: real, hi: real)
  {
    forall a | Reaches(d, a, c) && param.Valid(a) :: lo <= param.Get(a) <= hi
  }

  lemma WithinDrainer(d: Dem, param: Layer<real>, c: Cell, i: int, lo: real, hi: real)
    requires 0 <= i < 8 && Drains(d, c, i) && UpslopeWithin(d, param, c, lo, hi)
    ensures UpslopeWithin(d, param, Neighbour(c, i), lo, hi)
  {
    forall a | Reaches(d, a, Neighbour(c, i))
      ensures Reaches(d, a, c)
    {
      ReachesThrough(d, a, c, i);
    }
  }

  /** `n` times `m`, on reals. */
  function Scale(m: real, n: nat): real
  {
    m * n as real
  }

  lemma ScaleAdd(m: real, a: nat, b: nat)
    ensures Scale(m, a + b) == Scale(m, a) + Scale(m, b)
  {
    assert (a + b) as real == a as real + b as real;
  }

  /** `s` is at least `n` times `lo`. */
  predicate AtLeast(lo: real, n: nat, s: real)
  {
    Scale(lo, n) <= s
  }

  /** `s` is at most `n` times `hi`. */
  predicate AtMost(hi: real, n: nat, s: real)
  {
    s <= Scale(hi, n)
  }

  /** Bounds add up: `n = a + b` items totalling `s = u + t`. */
  lemma AtLeastAdd(lo: real, a: nat, b: nat, u: real, t: real, n: nat, s: real)
    requires AtLeast(lo, a, u) && AtLeast(lo, b, t) && n == a + b && s == u + t
    ensures AtLeast(lo, n, s)
  {
    ScaleAdd(lo, a, b);
  }

  lemma AtMostAdd(hi: real, a: nat, b: nat, u: real, t: real, n: nat, s: real)
    requires AtMost(hi, a, u) && AtMost(hi, b, t) && n == a + b && s == u + t
    ensures AtMost(hi, n, s)
  {
    ScaleAdd(hi, a, b);
  }

  /** The sum is at least the count times a lower bound of the parameter values upslope. */
  lemma {:induction false} SumLower(d: Dem, param: Layer<real>, c: Cell, lo: real, hi: real)
    requires UpslopeWithin(d, param, c, lo, hi)
    ensures AtLeast(lo, UpCountOf(d, param, c), UpSum(d, param, c))
    decreases Height(d, c), 9
  {
    SumFromLower(d, param, c, 0, lo, hi);
    AtLeastAdd(lo, if param.Valid(c) then 1 else 0, UpCountFrom(d, HasParam(param), c, 0),
      Own(param, c), UpSumFrom(d, param, c, 0), UpCountOf(d, param, c), UpSum(d, param, c));
  }

  lemma {:induction false} SumFromLower(d: Dem, param: Layer<real>, c: Cell, k: int, lo: real, hi: real)
    requires 0 <= k <= 8 && UpslopeWithin(d, param, c, lo, hi)
    ensures AtLeast(lo, UpCountFrom(d, HasParam(param), c, k), UpSumFrom(d, param, c, k))
    decreases Height(d, c), 8 - k
  {
    if k < 8 {
      SumFromLower(d, param, c, k + 1, lo, hi);
      var n := Neighbour(c, k);
      if Drains(d, c, k) {
        DrainsUphill(d, c, k);
        WithinDrainer(d, param, c, k, lo, hi);
        SumLower(d, param, n, lo, hi);
        AtLeastAdd(lo, UpCountOf(d, param, n), UpCountFrom(d, HasParam(param), c, k + 1),
          UpSum(d, param, n), UpSumFrom(d, param, c, k + 1),
          UpCountFrom(d, HasParam(param), c, k), UpSumFrom(d, param, c, k));
      } else {
        AtLeastAdd(lo, 0, UpCountFrom(d, HasParam(param), c, k + 1),
          0.0, UpSumFrom(d, param, c, k + 1),
          UpCountFrom(d, HasParam(param), c, k), UpSumFrom(d, param, c, k));
      }
    }
  }

  /** The sum is at most the count times an upper bound of the parameter values upslope. */
  lemma {:induction false} SumUpper(d: Dem, param: Layer<real>, c: Cell, lo: real, hi: real)
    requires UpslopeWithin(d, param, c, lo, hi)
    ensures AtMost(hi, UpCountOf(d, param, c), UpSum(d, param, c))
    decreases Height(d, c), 9
  {
    SumFromUpper(d, param, c, 0, lo, hi);
    AtMostAdd(hi, if param.Valid(c) then 1 else 0, UpCountFrom(d, HasParam(param), c, 0),
      Own(param, c), UpSumFrom(d, param, c, 0), UpCountOf(d, param, c), UpSum(d, param, c));
  }

  lemma {:induction false} SumFromUpper(d: Dem, param: Layer<real>, c: Cell, k: int, lo: real, hi: real)
    requires 0 <= k <= 8 && UpslopeWithin(d, param, c, lo, hi)
    ensures AtMost(hi, UpCountFrom(d, HasParam(param), c, k), UpSumFrom(d, param, c, k))
    decreases Height(d, c), 8 - k
  {
    if k < 8 {
      SumFromUpper(d, param, c, k + 1, lo, hi);
      var n := Neighbour(c, k);
      if Drains(d, c, k) {
        DrainsUphill(d, c, k);
        WithinDrainer(d, param, c, k, lo, hi);
        SumUpper(d, param, n, lo, hi);
        AtMostAdd(hi, UpCountOf(d, param, n), UpCountFrom(d, HasParam(param), c, k + 1),
          UpSum(d, param, n), UpSumFrom(d, param, c, k + 1),
          UpCountFrom(d, HasParam(param), c, k), UpSumFrom(d, param, c, k));
      } else {
        AtMostAdd(hi, 0, UpCountFrom(d, HasParam(param), c, k + 1),
          0.0, UpSumFrom(d, param, c, k + 1),
          UpCountFrom(d, HasParam(param), c, k), UpSumFrom(d, param, c, k));
      }
    }
  }

  /** Dividing bounds on a total by a positive count. */
  lemma DivBounds(lo: real, hi: real, n: nat, s: real)
    requires n > 0 && AtLeast(lo, n, s) && AtMost(hi, n, s)
    ensures lo <= s / n as real <= hi
  {
    DivLower(lo, n as real, s);
    DivUpper(hi, n as real, s);
  }

  lemma DivLower(lo: real, m: real, s: real)
    requires m > 0.0 && lo * m <= s
    ensures lo <= s / m
  {
    assert (s / m) * m == s;
  }

  lemma DivUpper(hi: real, m: real, s: real)
    requires m > 0.0 && s <= hi * m
    ensures s / m <= hi
  {
    assert (s / m) * m == s;
  }

  /**
   * The mean uphill lies between the bounds of the parameter values upslope,
   * and the count is the number of upslope cells with a parameter value.
   */
  lemma MeanBetween(d: Dem, param: Layer<real>, c: Cell, lo: real, hi: real)
    requires d.z.InWindow(c) && UpslopeWithin(d, param, c, lo, hi) && UpCountOf(d, param, c) > 0
    ensures lo <= UpSum(d, param, c) / UpCountOf(d, param, c) as real <= hi
    ensures UpCountOf(d, param, c) == |Filter(Upslope(d, c), HasParam(param))|
  {
    SumLower(d, param, c, lo, hi);
    SumUpper(d, param, c, lo, hi);
    UpCountIsUpslopeCount(d, HasParam(param), c);
    DivBounds(lo, hi, UpCountOf(d, param, c), UpSum(d, param, c));
  }

  /** The final accumulator values of a valid cell. */
  ghost predicate Final(d: Dem, param: Layer<real>, a: Cell, n: int, s: real)
  {
    d.z.Valid(a) && n == UpCountOf(d, param, a) && s == UpSum(d, param, a)
  }

  /** A memo entry is untouched (both accumulators at -1) or final. */
  ghost predicate Known(d: Dem, param: Layer<real>, acc: array2<int>, sum: array2<real>, x: int, y: int)
    requires 0 <= x < acc.Length0 && 0 <= y < acc.Length1
    requires 0 <= x < sum.Length0 && 0 <= y < sum.Length1
    reads acc, sum
  {
    (acc[x, y] == NotVisitedCount && sum[x, y] == NotVisited) || Final(d, param, Cell(x, y), acc[x, y], sum[x, y])
  }

  /** An entry is unchanged, or final for a cell no lower than `c`. */
  ghost predicate Kept(d: Dem, param: Layer<real>, c: Cell, a: Cell, n: int, s: real, n0: int, s0: real)
  {
    (n == n0 && s == s0) || (Height(d, a) <= Height(d, c) && Final(d, param, a, n, s))
  }

  /**
   * `getFlow`: accumulates into `acc` (cells with a parameter value) and
   * `sum` (their parameter values) the totals upslope of `c`.  A cell whose
   * count is no longer -1 has been done and is skipped.
   */
  method GetFlow(d: Dem, param: Layer<real>, acc: array2<int>, sum: array2<real>, c: Cell)
    requires Shaped(acc, d) && Shaped(sum, d) && d.z.InWindow(c)
    requires forall x, y | 0 <= x < d.z.nx && 0 <= y < d.z.ny ::
      Known(d, param, acc, sum, x, y) || Height(d, Cell(x, y)) > Height(d, c)
    modifies acc, sum
    ensures forall x, y | 0 <= x < d.z.nx && 0 <= y < d.z.ny ::
      Kept(d, param, c, Cell(x, y), acc[x, y], sum[x, y], old(acc[x, y]), old(sum[x, y]))
    ensures d.z.Valid(c) ==> Final(d, param, c, acc[c.x, c.y], sum[c.x, c.y])
    decreases Height(d, c), 1
  {
    if acc[c.x, c.y] != NotVisitedCount {
      return;
    }
    if d.z.Valid(c) {
      if param.Valid(c) {
        acc[c.x, c.y] := 1;
        sum[c.x, c.y] := param.Get(c);
      } else {
        acc[c.x, c.y] := 0;
        sum[c.x, c.y] := 0.0;
      }
      AddDrainers(d, param, acc, sum, c);
    }
  }

  /** The neighbour loop of `getFlow`, starting from the totals of `c` alone. */
  method AddDrainers(d: Dem, param: Layer<real>, acc: array2<int>, sum: array2<real>, c: Cell)
    requires Shaped(acc, d) && Shaped(sum, d) && d.z.InWindow(c) && d.z.Valid(c)
    requires acc[c.x, c.y] + UpCountFrom(d, HasParam(param), c, 0) == UpCountOf(d, param, c)
    requires sum[c.x, c.y] + UpSumFrom(d, param, c, 0) == UpSum(d, param, c)
    requires forall x, y | 0 <= x < d.z.nx && 0 <= y < d.z.ny && Cell(x, y) != c ::
      Known(d, param, acc, sum, x, y) || Height(d, Cell(x, y)) > Height(d, c)
    modifies acc, sum
    ensures Final(d, param, c, acc[c.x, c.y], sum[c.x, c.y])
    ensures forall x, y | 0 <= x < d.z.nx && 0 <= y < d.z.ny && Cell(x, y) != c ::
      Kept(d, param, c, Cell(x, y), acc[x, y], sum[x, y], old(acc[x, y]), old(sum[x, y]))
    decreases Height(d, c), 0, 1
  {
    for i := 0 to 8
      invariant acc[c.x, c.y] + UpCountFrom(d, HasParam(param), c, i) == UpCountOf(d, param, c)
      invariant sum[c.x, c.y] + UpSumFrom(d, param, c, i) == UpSum(d, param, c)
      invariant forall x, y | 0 <= x < d.z.nx && 0 <= y < d.z.ny && Cell(x, y) != c ::
        Kept(d, param, c, Cell(x, y), acc[x, y], sum[x, y], old(acc[x, y]), old(sum[x, y]))
    {
      AddDrainer(d, param, acc, sum, c, i);
    }
  }

  /** One pass of `getFlow`'s neighbour loop: a drainer's totals are added to those of `c`. */
  method AddDrainer(d: Dem, param: Layer<real>, acc: array2<int>, sum: array2<real>, c: Cell, i: int)
    requires Shaped(acc, d) && Shaped(sum, d) && d.z.InWindow(c) && 0 <= i < 8
    requires forall x, y | 0 <= x < d.z.nx && 0 <= y < d.z.ny && Cell(x, y) != c ::
      Known(d, param, acc, sum, x, y) || Height(d, Cell(x, y)) > Height(d, c)
    modifies acc, sum
    ensures acc[c.x, c.y] + UpCountFrom(d, HasParam(param), c, i + 1) == old(acc[c.x, c.y]) + UpCountFrom(d, HasParam(param), c, i)
    ensures sum[c.x, c.y] + UpSumFrom(d, param, c, i + 1) == old(sum[c.x, c.y]) + UpSumFrom(d, param, c, i)
    ensures forall x, y | 0 <= x < d.z.nx && 0 <= y < d.z.ny && Cell(x, y) != c ::
      Kept(d, param, c, Cell(x, y), acc[x, y], sum[x, y], old(acc[x, y]), old(sum[x, y]))
    decreases Height(d, c), 0, 0
  {
    var n := Neighbour(c, i);
    if d.z.Valid(n) {
      var dir := Dir(d, n);
      if dir >= 0 && (i + 4) % 8 == dir {
        DrainsUphill(d, c, i);
        GetFlow(d, param, acc, sum, n);
        acc[c.x, c.y] := acc[c.x, c.y] + acc[n.x, n.y];
        sum[c.x, c.y] := sum[c.x, c.y] + sum[n.x, n.y];
      }
    }
  }

  /** The final value of a cell from its accumulated sum and count. */
  function MeanOf(s: real, n: int): (r: real)
    ensures n != 0 && s != NotVisited ==> r * n as real == s
    ensures n == 0 || s == NotVisited ==> r == NotVisited
  {
    if s != NotVisited && n != 0 then s / n as real else NotVisited
  }

  /** The division pass: `sum` is turned, cell by cell, into the mean. */
  method Divide(acc: array2<int>, sum: array2<real>)
    requires acc.Length0 == sum.Length0 && acc.Length1 == sum.Length1
    modifies sum
    ensures forall x, y | 0 <= x < sum.Length0 && 0 <= y < sum.Length1 ::
      sum[x, y] == MeanOf(old(sum[x, y]), acc[x, y])
  {
    for y := 0 to sum.Length1
      invariant forall i, j | 0 <= i < sum.Length0 && 0 <= j < sum.Length1 ::
        sum[i, j] == if j < y then MeanOf(old(sum[i, j]), acc[i, j]) else old(sum[i, j])
    {
      for x := 0 to sum.Length0
        invariant forall i, j | 0 <= i < sum.Length0 && 0 <= j < sum.Length1 ::
          sum[i, j] == if Before(Cell(i, j), x, y) then MeanOf(old(sum[i, j]), acc[i, j]) else old(sum[i, j])
      {
        sum[x, y] := MeanOf(sum[x, y], acc[x, y]);
      }
    }
  }

  /** Every entry of the memo is untouched or final. */
  ghost predicate AllKnown(d: Dem, param: Layer<real>, acc: array2<int>, sum: array2<real>)
    requires Shaped(acc, d) && Shaped(sum, d)
    reads acc, sum
  {
    forall x, y | 0 <= x < d.z.nx && 0 <= y < d.z.ny :: Known(d, param, acc, sum, x, y)
  }

  /** Every valid cell scanned before `(x, y)` is final. */
  ghost predicate Done(d: Dem, param: Layer<real>, acc: array2<int>, sum: array2<real>, x: int, y: int)
    requires Shaped(acc, d) && Shaped(sum, d)
    reads acc, sum
  {
    forall i, j | 0 <= i < d.z.nx && 0 <= j < d.z.ny && Before(Cell(i, j), x, y) && d.z.Valid(Cell(i, j)) ::
      acc[i, j] == UpCountOf(d, param, Cell(i, j)) && sum[i, j] == UpSum(d, param, Cell(i, j))
  }

  /** One step of `calculateAccFlows`. */
  method AccStep(d: Dem, param: Layer<real>, acc: array2<int>, sum: array2<real>, x: int, y: int)
    requires Shaped(acc, d) && Shaped(sum, d) && 0 <= x < d.z.nx && 0 <= y < d.z.ny
    requires AllKnown(d, param, acc, sum) && Done(d, param, acc, sum, x, y)
    modifies acc, sum
    ensures AllKnown(d, param, acc, sum) && Done(d, param, acc, sum, x + 1, y)
  {
    label L:
    GetFlow(d, param, acc, sum, Cell(x, y));
    assert AllKnown(d, param, acc, sum) by {
      forall i, j | 0 <= i < d.z.nx && 0 <= j < d.z.ny
        ensures Known(d, param, acc, sum, i, j)
      {
        assert old@L(Known(d, param, acc, sum, i, j));
      }
    }
    assert Done(d, param, acc, sum, x + 1, y) by {
      forall i, j | 0 <= i < d.z.nx && 0 <= j < d.z.ny && Before(Cell(i, j), x + 1, y) && d.z.Valid(Cell(i, j))
        ensures acc[i, j] == UpCountOf(d, param, Cell(i, j)) && sum[i, j] == UpSum(d, param, Cell(i, j))
      {
        if Cell(i, j) != Cell(x, y) {
          assert Before(Cell(i, j), x, y);
          assert old@L(acc[i, j] == UpCountOf(d, param, Cell(i, j)) && sum[i, j] == UpSum(d, param, Cell(i, j)));
        }
      }
    }
  }

  /**
   * `processAlgorithm`: accumulates every cell in row order, then divides.
   * A valid cell ends with the mean of the parameter uphill, or -1 when no
   * upslope cell has a parameter value (or the sum happens to be -1); a
   * no-data cell ends with -1.
   */
  method MeanValue(d: Dem, param: Layer<real>) returns (sum: array2<real>)
    ensures fresh(sum) && Shaped(sum, d)
    ensures forall x, y | 0 <= x < d.z.nx && 0 <= y < d.z.ny ::
      sum[x, y] == if d.z.Valid(Cell(x, y)) then MeanOf(UpSum(d, param, Cell(x, y)), UpCountOf(d, param, Cell(x, y))) else NotVisited
  {
    sum := new real[d.z.nx, d.z.ny]((x, y) => NotVisited);
    var acc := new int[d.z.nx, d.z.ny]((x, y) => NotVisitedCount);
    for y := 0 to d.z.ny
      invariant AllKnown(d, param, acc, sum) && Done(d, param, acc, sum, 0, y)
    {
      for x := 0 to d.z.nx
        invariant AllKnown(d, param, acc, sum) && Done(d, param, acc, sum, x, y)
      {
        AccStep(d, param, acc, sum, x, y);
      }
      assert Done(d, param, acc, sum, 0, y + 1) by {
        forall i, j | 0 <= i < d.z.nx && 0 <= j < d.z.ny && Before(Cell(i, j), 0, y + 1) && d.z.Valid(Cell(i, j))
          ensures acc[i, j] == UpCountOf(d, param, Cell(i, j)) && sum[i, j] == UpSum(d, param, Cell(i, j))
        {
          assert Before(Cell(i, j), d.z.nx, y);
        }
      }
    }
    assert Done(d, param, acc, sum, 0, d.z.ny);
    forall x, y | 0 <= x < d.z.nx && 0 <= y < d.z.ny && !d.z.Valid(Cell(x, y))
      ensures sum[x, y] == NotVisited
    {
      assert Known(d, param, acc, sum, x, y);
    }
    Divide(acc, sum);
  }
}
