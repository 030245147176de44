/**
 * Max value uphill: for every valid cell, the largest parameter value met on
 * the cells whose D8 flow path passes through it, computed by a memoised
 * upslope recursion.
 */
module MaxValueUphill {
  import opened Grid
  import opened Drainage

  /** Every result cell starts at -1, which also marks "not visited". */
  const NotVisited: real := -1.0

  /** `Math.max`. */
  function Max(a: real, b: real): (r: real)
    ensures r >= a && r >= b && (r == a || r == b)
  {
    if a >= b then a else b
  }

  /**
   * How `getMaxValue` merges a drainer's value `v` into the running value
   * `cur`: a no-data running value is replaced, any other is maxed.
   */
  function Combine(noData: real, cur: real, v: real): (r: real)
    ensures r == cur || r == v
    ensures r >= v
    ensures cur != noData ==> r >= cur
  {
    if cur == noData then v else Max(cur, v)
  }

  /**
   * The value `getMaxValue` leaves in a cell, as written: no-data for a
   * no-data elevation; otherwise the running value starts at the cell's own
   * parameter value, or stays at -1 when that is no-data, and the drainers'
   * values are merged in direction order.
   */
  ghost function MaxUp(d: Dem, param: Layer<real>, c: Cell): real
    decreases Height(d, c), 9
  {
    if !d.z.Valid(c) then param.noData
    else MaxFrom(d, param, c, 0, if param.Valid(c) then param.Get(c) else NotVisited)
  }

  ghost function MaxFrom(d: Dem, param: Layer<real>, c: Cell, k: int, cur: real): real
    requires 0 <= k <= 8
    decreases Height(d, c), 8 - k, 1
  {
    if k == 8 then cur
    else MaxFrom(d, param, c, k + 1, MergeStep(d, param, c, k, cur))
  }

  /** The running value after direction `k`, as written. */
  ghost function MergeStep(d: Dem, param: Layer<real>, c: Cell, k: int, cur: real): real
    requires 0 <= k < 8
    decreases Height(d, c), 8 - k, 0
  {
    if Drains(d, c, k) then (DrainsUphill(d, c, k); Combine(param.noData, cur, MaxUp(d, param, Neighbour(c, k)))) else cur
  }

  /** A cell's contribution as written: its parameter value, or -1 when that is no-data. */
  function Contribution(param: Layer<real>, a: Cell): real
  {
    if param.Valid(a) then param.Get(a) else NotVisited
  }

  /** The merged value is the running value or the value of a later drainer. */
  lemma {:induction false} MaxFromPicks(d: Dem, param: Layer<real>, c: Cell, k: int, cur: real)
    requires 0 <= k <= 8
    ensures MaxFrom(d, param, c, k, cur) == cur ||
      exists j | k <= j < 8 && Drains(d, c, j) :: MaxFrom(d, param, c, k, cur) == MaxUp(d, param, Neighbour(c, j))
    decreases 8 - k
  {
    if k < 8 {
      var next := MergeStep(d, param, c, k, cur);
      assert MaxFrom(d, param, c, k, cur) == MaxFrom(d, param, c, k + 1, next);
      MaxFromPicks(d, param, c, k + 1, next);
    }
  }

  /** As written, the value of a valid cell is the contribution of some cell upslope of it. */
  lemma {:induction false} MaxUpWitness(d: Dem, param: Layer<real>, c: Cell) returns (a: Cell)
    requires d.z.Valid(c)
    ensures Reaches(d, a, c) && Contribution(param, a) == MaxUp(d, param, c)
    decreases Height(d, c)
  {
    MaxFromPicks(d, param, c, 0, Contribution(param, c));
    if MaxUp(d, param, c) == Contribution(param, c) {
      a := c;
    } else {
      var j :| 0 <= j < 8 && Drains(d, c, j) && MaxUp(d, param, c) == MaxUp(d, param, Neighbour(c, j));
      DrainsUphill(d, c, j);
      a := MaxUpWitness(d, param, Neighbour(c, j));
      ReachesThrough(d, a, c, j);
    }
  }

  /** When -1 is not the parameter's no-data value, a valid cell never ends at no-data. */
  lemma MaxUpNotNoData(d: Dem, param: Layer<real>, c: Cell)
    requires d.z.Valid(c) && param.noData != NotVisited
    ensures MaxUp(d, param, c) != param.noData
  {
    var a := MaxUpWitness(d, param, c);
  }

  /** Merging never lowers the running value, and covers every later drainer. */
  lemma {:induction false} MaxFromCovers(d: Dem, param: Layer<real>, c: Cell, k: int, cur: real, j: int)
    requires 0 <= k <= 8 && param.noData != NotVisited && cur != param.noData
    requires k <= j < 8 && Drains(d, c, j)
    ensures cur <= MaxFrom(d, param, c, k, cur)
    ensures MaxUp(d, param, Neighbour(c, j)) <= MaxFrom(d, param, c, k, cur)
    decreases 8 - k
  {
    var next := MergeStep(d, param, c, k, cur);
    assert MaxFrom(d, param, c, k, cur) == MaxFrom(d, param, c, k + 1, next);
    if Drains(d, c, k) {
      DrainsUphill(d, c, k);
      MaxUpNotNoData(d, param, Neighbour(c, k));
    }
    if j > k {
      MaxFromCovers(d, param, c, k + 1, next, j);
    } else {
      MaxFromKeeps(d, param, c, k + 1, next);
    }
  }

  lemma {:induction false} MaxFromKeeps(d: Dem, param: Layer<real>, c: Cell, k: int, cur: real)
    requires 0 <= k <= 8 && param.noData != NotVisited && cur != param.noData
    ensures cur <= MaxFrom(d, param, c, k, cur)
    decreases 8 - k
  {
    if k < 8 {
      var next := MergeStep(d, param, c, k, cur);
      assert MaxFrom(d, param, c, k, cur) == MaxFrom(d, param, c, k + 1, next);
      if Drains(d, c, k) {
        DrainsUphill(d, c, k);
        MaxUpNotNoData(d, param, Neighbour(c, k));
      }
      MaxFromKeeps(d, param, c, k + 1, next);
    }
  }

  /** As written, the value of a valid cell is at least the contribution of every cell upslope. */
  lemma {:induction false} MaxUpUpper(d: Dem, param: Layer<real>, c: Cell, a: Cell)
    requires d.z.Valid(c) && param.noData != NotVisited && Reaches(d, a, c)
    ensures Contribution(param, a) <= MaxUp(d, param, c)
    decreases Height(d, c)
  {
    if a == c {
      MaxFromKeeps(d, param, c, 0, Contribution(param, c));
    } else {
      var j := ReachesLastStep(d, a, c);
      DrainsUphill(d, c, j);
      MaxUpUpper(d, param, Neighbour(c, j), a);
      MaxFromCovers(d, param, c, 0, Contribution(param, c), j);
    }
  }

  /**
   * When -1 is not the parameter's no-data value, the value as written is the
   * maximum of the contributions upslope: -1 stands in for every upslope cell
   * without a parameter value.
   */
  lemma MaxUpIsMaximum(d: Dem, param: Layer<real>, c: Cell)
    requires d.z.Valid(c) && param.noData != NotVisited
    ensures forall a | Reaches(d, a, c) :: Contribution(param, a) <= MaxUp(d, param, c)
    ensures exists a :: Reaches(d, a, c) && Contribution(param, a) == MaxUp(d, param, c)
  {
    forall a | Reaches(d, a, c)
      ensures Contribution(param, a) <= MaxUp(d, param, c)
    {
      MaxUpUpper(d, param, c, a);
    }
    var w := MaxUpWitness(d, param, c);
  }

  /**
   * The merge the algorithm evidently intends: no-data on either side is no
   * value at all.
   */
  function Join(noData: real, cur: real, v: real): (r: real)
    ensures r == cur || r == v
    ensures r == noData <==> cur == noData && v == noData
    ensures cur != noData && v != noData ==> r >= cur && r >= v
    ensures cur == noData ==> r == v
    ensures v == noData ==> r == cur
  {
    if cur == noData then v else if v == noData then cur else Max(cur, v)
  }

  /**
   * The evidently intended value: the running value starts at no-data when the
   * cell's own parameter is no-data, and no-data drainer values are skipped.
   */
  ghost function MaxUpIntended(d: Dem, param: Layer<real>, c: Cell): real
    decreases Height(d, c), 9
  {
    if !d.z.Valid(c) then param.noData
    else MaxFromIntended(d, param, c, 0, param.Get(c))
  }

  ghost function MaxFromIntended(d: Dem, param: Layer<real>, c: Cell, k: int, cur: real): real
    requires 0 <= k <= 8
    decreases Height(d, c), 8 - k, 1
  {
    if k == 8 then cur
    else MaxFromIntended(d, param, c, k + 1, JoinStep(d, param, c, k, cur))
  }

  /** The running value after direction `k`, as intended. */
  ghost function JoinStep(d: Dem, param: Layer<real>, c: Cell, k: int, cur: real): real
    requires 0 <= k < 8
    decreases Height(d, c), 8 - k, 0
  {
    if Drains(d, c, k) then (DrainsUphill(d, c, k); Join(param.noData, cur, MaxUpIntended(d, param, Neighbour(c, k)))) else cur
  }

  lemma {:induction false} IntendedPicks(d: Dem, param: Layer<real>, c: Cell, k: int, cur: real)
    requires 0 <= k <= 8
    ensures MaxFromIntended(d, param, c, k, cur) == cur ||
      exists j | k <= j < 8 && Drains(d, c, j) :: MaxFromIntended(d, param, c, k, cur) == MaxUpIntended(d, param, Neighbour(c, j))
    decreases 8 - k
  {
    if k < 8 {
      var next := JoinStep(d, param, c, k, cur);
      assert MaxFromIntended(d, param, c, k, cur) == MaxFromIntended(d, param, c, k + 1, next);
      IntendedPicks(d, param, c, k + 1, next);
    }
  }

  /** A value other than no-data is the parameter value of some cell upslope. */
  lemma {:induction false} IntendedWitness(d: Dem, param: Layer<real>, c: Cell) returns (a: Cell)
    requires d.z.Valid(c) && MaxUpIntended(d, param, c) != param.noData
    ensures Reaches(d, a, c) && param.Valid(a) && param.Get(a) == MaxUpIntended(d, param, c)
    decreases Height(d, c)
  {
    IntendedPicks(d, param, c, 0, param.Get(c));
    if MaxUpIntended(d, param, c) == param.Get(c) {
      a := c;
    } else {
      var j :| 0 <= j < 8 && Drains(d, c, j) && MaxUpIntended(d, param, c) == MaxUpIntended(d, param, Neighbour(c, j));
      DrainsUphill(d, c, j);
      a := IntendedWitness(d, param, Neighbour(c, j));
      ReachesThrough(d, a, c, j);
    }
  }

  lemma {:induction false} IntendedKeeps(d: Dem, param: Layer<real>, c: Cell, k: int, cur: real)
    requires 0 <= k <= 8 && cur != param.noData
    ensures MaxFromIntended(d, param, c, k, cur) != param.noData
    ensures cur <= MaxFromIntended(d, param, c, k, cur)
    decreases 8 - k
  {
    if k < 8 {
      var next := JoinStep(d, param, c, k, cur);
      assert MaxFromIntended(d, param, c, k, cur) == MaxFromIntended(d, param, c, k + 1, next);
      IntendedKeeps(d, param, c, k + 1, next);
    }
  }

  lemma {:induction false} IntendedCovers(d: Dem, param: Layer<real>, c: Cell, k: int, cur: real, j: int)
    requires 0 <= k <= 8 && k <= j < 8 && Drains(d, c, j)
    requires MaxUpIntended(d, param, Neighbour(c, j)) != param.noData
    ensures MaxFromIntended(d, param, c, k, cur) != param.noData
    ensures MaxUpIntended(d, param, Neighbour(c, j)) <= MaxFromIntended(d, param, c, k, cur)
    decreases 8 - k
  {
    var next := JoinStep(d, param, c, k, cur);
    assert MaxFromIntended(d, param, c, k, cur) == MaxFromIntended(d, param, c, k + 1, next);
    if j > k {
      IntendedCovers(d, param, c, k + 1, next, j);
    } else {
      IntendedKeeps(d, param, c, k + 1, next);
    }
  }

  /** Every parameter value upslope is at most the intended value, which is then not no-data. */
  lemma {:induction false} IntendedUpper(d: Dem, param: Layer<real>, c: Cell, a: Cell)
    requires d.z.Valid(c) && Reaches(d, a, c) && param.Valid(a)
    ensures MaxUpIntended(d, param, c) != param.noData
    ensures param.Get(a) <= MaxUpIntended(d, param, c)
    decreases Height(d, c)
  {
    if a == c {
      IntendedKeeps(d, param, c, 0, param.Get(c));
    } else {
      var j := ReachesLastStep(d, a, c);
      DrainsUphill(d, c, j);
      IntendedUpper(d, param, Neighbour(c, j), a);
      IntendedCovers(d, param, c, 0, param.Get(c), j);
    }
  }

  /**
   * The intended value of a valid cell is the maximum parameter value over the
   * cells upslope that have one, and no-data exactly when none has.
   */
  lemma IntendedIsMaximum(d: Dem, param: Layer<real>, c: Cell)
    requires d.z.Valid(c)
    ensures forall a | Reaches(d, a, c) && param.Valid(a) :: param.Get(a) <= MaxUpIntended(d, param, c)
    ensures MaxUpIntended(d, param, c) == param.noData <==> forall a | Reaches(d, a, c) :: !param.Valid(a)
    ensures MaxUpIntended(d, param, c) != param.noData ==>
      exists a :: Reaches(d, a, c) && param.Valid(a) && param.Get(a) == MaxUpIntended(d, param, c)
  {
    forall a | Reaches(d, a, c) && param.Valid(a)
      ensures MaxUpIntended(d, param, c) != param.noData && param.Get(a) <= MaxUpIntended(d, param, c)
    {
      IntendedUpper(d, param, c, a);
    }
    if MaxUpIntended(d, param, c) != param.noData {
      var w := IntendedWitness(d, param, c);
    }
  }

  /**
   * Where every cell upslope has a parameter value (and -1 is not the no-data
   * value) the code as written computes the intended maximum.
   */
  lemma AgreesWhenAllHaveValues(d: Dem, param: Layer<real>, c: Cell)
    requires d.z.Valid(c) && param.noData != NotVisited
    requires forall a | Reaches(d, a, c) :: param.Valid(a)
    ensures MaxUp(d, param, c) == MaxUpIntended(d, param, c)
  {
    var w := MaxUpWitness(d, param, c);
    MaxUpUpper(d, param, c, c);
    IntendedUpper(d, param, c, w);
    var v := IntendedWitness(d, param, c);
    MaxUpUpper(d, param, c, v);
  }

  /**
   * As written, a cell without a parameter value whose upslope values are all
   * below -1 reports -1, a value that no cell upslope holds, where the
   * intended maximum is either one of those values or no-data.
   */
  lemma MinusOneWins(d: Dem, param: Layer<real>, c: Cell)
    requires d.z.Valid(c) && !param.Valid(c) && param.noData != NotVisited
    requires forall a | Reaches(d, a, c) && param.Valid(a) :: param.Get(a) < NotVisited
    ensures MaxUp(d, param, c) == NotVisited
    ensures MaxUpIntended(d, param, c) != NotVisited
  {
    MaxUpUpper(d, param, c, c);
    var w := MaxUpWitness(d, param, c);
    if MaxUpIntended(d, param, c) != param.noData {
      var v := IntendedWitness(d, param, c);
    }
  }

  /**
   * A one-cell window whose only cell has an elevation but no parameter
   * value: as written it reports -1, as intended no-data.
   */
  lemma OneCellWindow() returns (d: Dem, param: Layer<real>, c: Cell)
    ensures d.z.Valid(c) && !param.Valid(c) && param.noData != NotVisited
    ensures MaxUp(d, param, c) == NotVisited
    ensures MaxUpIntended(d, param, c) == param.noData
  {
    var z := Layer(1, 1, (x: int, y: int) => 0.0, -9999.0);
    forall e: Cell
      ensures DirectionOk(z, e, -1)
    {
      if z.Valid(e) {
        forall j | 0 <= j < 8
          ensures !LowerIn(z, e, j)
        {
          assert !z.InWindow(Neighbour(e, j));
        }
      }
    }
    d := DemData(z, 1.0, 1.0, (e: Cell) => -1, (e: Cell) => -1);
    param := Layer(1, 1, (x: int, y: int) => -9999.0, -9999.0);
    c := Cell(0, 0);
    forall a | Reaches(d, a, c) && param.Valid(a)
      ensures param.Get(a) < NotVisited
    {
    }
    MinusOneWins(d, param, c);
    IntendedIsMaximum(d, param, c);
  }

  /** A memo entry is untouched (-1) or final. */
  ghost predicate Known(d: Dem, param: Layer<real>, a: Cell, v: real)
  {
    v == NotVisited || v == MaxUp(d, param, a)
  }

  /** An entry is unchanged, or final for a cell no lower than `c`. */
  ghost predicate Kept(d: Dem, param: Layer<real>, c: Cell, a: Cell, v: real, v0: real)
  {
    v == v0 || (Height(d, a) <= Height(d, c) && v == MaxUp(d, param, a))
  }

  /**
   * `getMaxValue`: fills in the value of `c` after those of its drainers.  A
   * cell whose value is not -1 has been done and is skipped.
   */
  method GetMaxValue(d: Dem, param: Layer<real>, m: array2<real>, c: Cell)
    requires Shaped(m, d) && d.z.InWindow(c)
    requires forall x, y | 0 <= x < d.z.nx && 0 <= y < d.z.ny ::
      Known(d, param, Cell(x, y), m[x, y]) || Height(d, Cell(x, y)) > Height(d, c)
    modifies m
    ensures forall x, y | 0 <= x < d.z.nx && 0 <= y < d.z.ny ::
      Kept(d, param, c, Cell(x, y), m[x, y], old(m[x, y]))
    ensures m[c.x, c.y] == MaxUp(d, param, c)
    decreases Height(d, c), 1
  {
    if m[c.x, c.y] != NotVisited {
      return;
    }
    if d.z.Valid(c) {
      if param.Valid(c) {
        m[c.x, c.y] := param.Get(c);
      }
      assert MaxFrom(d, param, c, 0, m[c.x, c.y]) == MaxUp(d, param, c);
      for i := 0 to 8
        invariant MaxFrom(d, param, c, i, m[c.x, c.y]) == MaxUp(d, param, c)
        invariant forall x, y | 0 <= x < d.z.nx && 0 <= y < d.z.ny && Cell(x, y) != c ::
          Kept(d, param, c, Cell(x, y), m[x, y], old(m[x, y]))
      {
        MergeDrainer(d, param, m, c, i);
      }
    } else {
      m[c.x, c.y] := param.noData;
    }
  }

  /** One pass of `getMaxValue`'s neighbour loop: a drainer's value is merged into that of `c`. */
  method MergeDrainer(d: Dem, param: Layer<real>, m: array2<real>, c: Cell, i: int)
    requires Shaped(m, d) && d.z.InWindow(c) && 0 <= i < 8
    requires forall x, y | 0 <= x < d.z.nx && 0 <= y < d.z.ny && Cell(x, y) != c ::
      Known(d, param, Cell(x, y), m[x, y]) || Height(d, Cell(x, y)) > Height(d, c)
    modifies m
    ensures MaxFrom(d, param, c, i + 1, m[c.x, c.y]) == MaxFrom(d, param, c, i, old(m[c.x, c.y]))
    ensures forall x, y | 0 <= x < d.z.nx && 0 <= y < d.z.ny && Cell(x, y) != c ::
      Kept(d, param, c, Cell(x, y), m[x, y], old(m[x, y]))
    decreases Height(d, c), 0
  {
    var n := Neighbour(c, i);
    if d.z.Valid(n) {
      var dir := Dir(d, n);
      if dir >= 0 && (i + 4) % 8 == dir {
        DrainsUphill(d, c, i);
        GetMaxValue(d, param, m, n);
        var cur := m[c.x, c.y];
        if cur == param.noData {
          m[c.x, c.y] := m[n.x, n.y];
        } else {
          m[c.x, c.y] := Max(m[c.x, c.y], m[n.x, n.y]);
        }
      }
    }
  }

  /** Every entry of the memo is untouched or final. */
  ghost predicate AllKnown(d: Dem, param: Layer<real>, m: array2<real>)
    requires Shaped(m, d)
    reads m
  {
    forall x, y | 0 <= x < d.z.nx && 0 <= y < d.z.ny :: Known(d, param, Cell(x, y), m[x, y])
  }

  /** Every cell scanned before `(x, y)` is final. */
  ghost predicate Done(d: Dem, param: Layer<real>, m: array2<real>, x: int, y: int)
    requires Shaped(m, d)
    reads m
  {
    forall i, j | 0 <= i < d.z.nx && 0 <= j < d.z.ny && Before(Cell(i, j), x, y) ::
      m[i, j] == MaxUp(d, param, Cell(i, j))
  }

  /** One step of `calculateMaxValues`. */
  method MaxStep(d: Dem, param: Layer<real>, m: array2<real>, x: int, y: int)
    requires Shaped(m, d) && 0 <= x < d.z.nx && 0 <= y < d.z.ny
    requires AllKnown(d, param, m) && Done(d, param, m, x, y)
    modifies m
    ensures AllKnown(d, param, m) && Done(d, param, m, x + 1, y)
  {
    label L:
    GetMaxValue(d, param, m, Cell(x, y));
    assert AllKnown(d, param, m) by {
      forall i, j | 0 <= i < d.z.nx && 0 <= j < d.z.ny
        ensures Known(d, param, Cell(i, j), m[i, j])
      {
        assert old@L(Known(d, param, Cell(i, j), m[i, j]));
      }
    }
  }

  /**
   * `processAlgorithm`: starts from -1 everywhere and visits every cell in
   * row order; the result holds the value as written of every cell, the
   * parameter's no-data value being the result's no-data value.
   */
  method MaxValues(d: Dem, param: Layer<real>) returns (m: array2<real>)
    ensures fresh(m) && Shaped(m, d)
    ensures forall x, y | 0 <= x < d.z.nx && 0 <= y < d.z.ny :: m[x, y] == MaxUp(d, param, Cell(x, y))
  {
    m := new real[d.z.nx, d.z.ny]((x, y) => NotVisited);
    for y := 0 to d.z.ny
      invariant AllKnown(d, param, m) && Done(d, param, m, 0, y)
    {
      for x := 0 to d.z.nx
        invariant AllKnown(d, param, m) && Done(d, param, m, x, y)
      {
        MaxStep(d, param, m, x, y);
      }
      assert Done(d, param, m, 0, y + 1) by {
        forall i, j | 0 <= i < d.z.nx && 0 <= j < d.z.ny && Before(Cell(i, j), 0, y + 1)
          ensures m[i, j] == MaxUp(d, param, Cell(i, j))
        {
          assert Before(Cell(i, j), d.z.nx, y);
        }
      }
    }
    assert Done(d, param, m, 0, d.z.ny);
  }
}
