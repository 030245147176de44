/**
 * Net balance: every cell with a weight sends that weight to its neighbours
 * (by D8, D-infinity or multiple flow directions); the balance of a cell is
 * what it received minus its own weight, or no-data where it has no weight.
 */
module CellBalance {
  import opened Grid
  import AccFlow

  /** The methods, as numbered by this algorithm's method parameter. */
  const MethodD8: int := 0
  const MethodDInf: int := 1
  const MethodMfd: int := 2

  /** The same method in flow accumulation's numbering (-1 for none). */
  function FlowMethod(m: int): int
  {
    if m == MethodD8 then AccFlow.D8
    else if m == MethodDInf then AccFlow.DInf
    else if m == MethodMfd then AccFlow.Mfd
    else -1
  }

  /** No random draws are made here. */
  function NoDraw(c: Cell): real
  {
    0.0
  }

  /** The fraction of its weight that `s` sends towards direction `i`. */
  function Share(d: Dem, m: int, aspect: Cell -> real, w: AccFlow.MfdWeights, i: int, s: Cell): real
    requires 0 <= i < 8
  {
    AccFlow.CellShare(d, FlowMethod(m), aspect, NoDraw, w, i, s)
  }

  /** A weight times a fraction. */
  function Portion(weight: real, share: real): real
  {
    weight * share
  }

  /** What `s` adds to its neighbour `i`: nothing when its weight is no-data. */
  function Outflow(d: Dem, m: int, aspect: Cell -> real, w: AccFlow.MfdWeights, weights: Layer<real>, s: Cell, i: int): real
    requires 0 <= i < 8
  {
    if weights.Valid(s) then Portion(weights.Get(s), Share(d, m, aspect, w, i, s)) else 0.0
  }

  /** The direction from `s` to `a` when `a` is one of its neighbours, else -1. */
  function DirTo(s: Cell, a: Cell): (r: int)
    ensures -1 <= r < 8
    ensures r >= 0 ==> Neighbour(s, r) == a
    ensures forall i | 0 <= i < 8 && Neighbour(s, i) == a :: r == i
  {
    DirFrom(s, a, 0)
  }

  function DirFrom(s: Cell, a: Cell, k: int): (r: int)
    requires 0 <= k <= 8
    ensures r == -1 || k <= r < 8
    ensures r >= 0 ==> Neighbour(s, r) == a
    ensures forall i | k <= i < 8 && Neighbour(s, i) == a :: r == i
    decreases 8 - k
  {
    if k == 8 then -1
    else if Neighbour(s, k) == a then
      (forall i | k < i < 8 ensures Neighbour(s, i) != a { NeighboursDistinct(s, k, i); }
       k)
    else DirFrom(s, a, k + 1)
  }

  /** What processing source `s` adds to cell `a`. */
  function Gift(d: Dem, m: int, aspect: Cell -> real, w: AccFlow.MfdWeights, weights: Layer<real>, s: Cell, a: Cell): real
  {
    var i := DirTo(s, a);
    if i >= 0 then Outflow(d, m, aspect, w, weights, s, i) else 0.0
  }

  /** What `a` receives from its neighbour `j`. */
  function Received(d: Dem, m: int, aspect: Cell -> real, w: AccFlow.MfdWeights, weights: Layer<real>, a: Cell, j: int): real
    requires 0 <= j < 8
  {
    OppositeNeighbour(a, j);
    Outflow(d, m, aspect, w, weights, Neighbour(a, j), (j + 4) % 8)
  }

  /** What `a` receives from its neighbours `k..7` that come before `(x, y)` in row order. */
  function InflowBefore(d: Dem, m: int, aspect: Cell -> real, w: AccFlow.MfdWeights, weights: Layer<real>,
                        a: Cell, x: int, y: int, k: int): real
    requires 0 <= k <= 8
    decreases 8 - k
  {
    if k == 8 then 0.0
    else (if Before(Neighbour(a, k), x, y) then Received(d, m, aspect, w, weights, a, k) else 0.0)
         + InflowBefore(d, m, aspect, w, weights, a, x, y, k + 1)
  }

  /** What `a` receives from its neighbours `k..7`. */
  function InflowFrom(d: Dem, m: int, aspect: Cell -> real, w: AccFlow.MfdWeights, weights: Layer<real>, a: Cell, k: int): real
    requires 0 <= k <= 8
    decreases 8 - k
  {
    if k == 8 then 0.0
    else Received(d, m, aspect, w, weights, a, k) + InflowFrom(d, m, aspect, w, weights, a, k + 1)
  }

  /** The net balance: inflow minus the own weight, or no-data where the weight is no-data. */
  function Balance(d: Dem, m: int, aspect: Cell -> real, w: AccFlow.MfdWeights, weights: Layer<real>, outNoData: real, a: Cell): real
  {
    if weights.Valid(a) then InflowFrom(d, m, aspect, w, weights, a, 0) - weights.Get(a) else outNoData
  }

  /** The weight layer shares the DEM's window. */
  predicate SameWindow(d: Dem, weights: Layer<real>)
  {
    weights.nx == d.z.nx && weights.ny == d.z.ny
  }

  // ---------------------------------------------------------------------
  // Properties.

  /** With D8, a cell receives from neighbour `j` exactly when it drains into it and has a weight. */
  lemma D8ReceivesFromDrainers(d: Dem, aspect: Cell -> real, w: AccFlow.MfdWeights, weights: Layer<real>, a: Cell, j: int)
    requires 0 <= j < 8
    ensures Received(d, MethodD8, aspect, w, weights, a, j) ==
      if weights.Valid(Neighbour(a, j)) && Dir(d, Neighbour(a, j)) == (j + 4) % 8 then weights.Get(Neighbour(a, j)) else 0.0
  {
  }

  /**
   * A cell with a weight sends out all of it when its method has somewhere
   * to send flow: a D8 direction, an aspect, or a lower neighbour for MFD.
   */
  lemma OutflowConserved(d: Dem, m: int, aspect: Cell -> real, w: AccFlow.MfdWeights, weights: Layer<real>, s: Cell)
    requires weights.Valid(s)
    requires (m == MethodD8 && Dir(d, s) >= 0) || (m == MethodDInf && aspect(s) >= 0.0) ||
             (m == MethodMfd && exists i | 0 <= i < 8 :: AccFlow.MfdTarget(d.z, s, i))
    ensures OutTotal(d, m, aspect, w, weights, s, 8) == weights.Get(s)
  {
    var share := AccFlow.FlowShares(d, FlowMethod(m), aspect, NoDraw, w);
    if m == MethodD8 {
      AccFlow.D8SharesSum(d, aspect, NoDraw, w, s, 8);
    } else if m == MethodDInf {
      AccFlow.DInfSharesSum(d, aspect, NoDraw, w, s);
    } else {
      var i :| 0 <= i < 8 && AccFlow.MfdTarget(d.z, s, i);
      AccFlow.MfdSharesSum(d, aspect, NoDraw, w, s, i);
    }
    OutTotalIsPortion(d, m, aspect, w, weights, s, 8);
    assert AccFlow.ShareSum(share, s, 8) == 1.0;
  }

  /** What `s` sends to directions `0..k-1`. */
  function OutTotal(d: Dem, m: int, aspect: Cell -> real, w: AccFlow.MfdWeights, weights: Layer<real>, s: Cell, k: int): real
    requires 0 <= k <= 8
  {
    if k == 0 then 0.0 else OutTotal(d, m, aspect, w, weights, s, k - 1) + Outflow(d, m, aspect, w, weights, s, k - 1)
  }

  lemma {:induction false} OutTotalIsPortion(d: Dem, m: int, aspect: Cell -> real, w: AccFlow.MfdWeights, weights: Layer<real>, s: Cell, k: int)
    requires 0 <= k <= 8 && weights.Valid(s)
    ensures OutTotal(d, m, aspect, w, weights, s, k) ==
      Portion(weights.Get(s), AccFlow.ShareSum(AccFlow.FlowShares(d, FlowMethod(m), aspect, NoDraw, w), s, k))
  {
    if k > 0 {
      OutTotalIsPortion(d, m, aspect, w, weights, s, k - 1);
      var share := AccFlow.FlowShares(d, FlowMethod(m), aspect, NoDraw, w);
      PortionAdd(weights.Get(s), AccFlow.ShareSum(share, s, k - 1), share(k - 1, s));
    }
  }

  lemma PortionAdd(v: real, a: real, b: real)
    ensures Portion(v, a) + Portion(v, b) == Portion(v, a + b)
  {
  }

  /** The row-order scan: processing `(x, y)` adds its gift to what every cell has received. */
  lemma InflowStep(d: Dem, m: int, aspect: Cell -> real, w: AccFlow.MfdWeights, weights: Layer<real>, a: Cell, x: int, y: int)
    ensures InflowBefore(d, m, aspect, w, weights, a, x + 1, y, 0) ==
      InflowBefore(d, m, aspect, w, weights, a, x, y, 0) + Gift(d, m, aspect, w, weights, Cell(x, y), a)
  {
    var s := Cell(x, y);
    var j := DirTo(a, s);
    InflowStepFrom(d, m, aspect, w, weights, a, x, y, 0);
    if j >= 0 {
      OppositeNeighbour(a, j);
      assert DirTo(s, a) == (j + 4) % 8;
    } else {
      forall i | 0 <= i < 8 ensures Neighbour(s, i) != a {
        if Neighbour(s, i) == a {
          OppositeNeighbour(s, i);
        }
      }
    }
  }

  lemma {:induction false} InflowStepFrom(d: Dem, m: int, aspect: Cell -> real, w: AccFlow.MfdWeights, weights: Layer<real>,
                                          a: Cell, x: int, y: int, k: int)
    requires 0 <= k <= 8
    ensures InflowBefore(d, m, aspect, w, weights, a, x + 1, y, k) ==
      InflowBefore(d, m, aspect, w, weights, a, x, y, k) +
      (if k <= DirTo(a, Cell(x, y)) then Received(d, m, aspect, w, weights, a, DirTo(a, Cell(x, y))) else 0.0)
    decreases 8 - k
  {
    if k < 8 {
      InflowStepFrom(d, m, aspect, w, weights, a, x, y, k + 1);
    }
  }

  /** Moving from the end of a row to the start of the next adds nothing: the cells in between are off the window. */
  lemma {:induction false} InflowRowEnd(d: Dem, m: int, aspect: Cell -> real, w: AccFlow.MfdWeights, weights: Layer<real>,
                                        a: Cell, y: int, k: int)
    requires SameWindow(d, weights) && 0 <= k <= 8
    ensures InflowBefore(d, m, aspect, w, weights, a, weights.nx, y, k) == InflowBefore(d, m, aspect, w, weights, a, 0, y + 1, k)
    decreases 8 - k
  {
    if k < 8 {
      InflowRowEnd(d, m, aspect, w, weights, a, y, k + 1);
    }
  }

  /** Before the first row nothing has been received; after the last, everything. */
  lemma {:induction false} InflowEnds(d: Dem, m: int, aspect: Cell -> real, w: AccFlow.MfdWeights, weights: Layer<real>, a: Cell, k: int)
    requires SameWindow(d, weights) && 0 <= k <= 8
    ensures InflowBefore(d, m, aspect, w, weights, a, 0, 0, k) == 0.0
    ensures InflowBefore(d, m, aspect, w, weights, a, 0, weights.ny, k) == InflowFrom(d, m, aspect, w, weights, a, k)
    decreases 8 - k
  {
    if k < 8 {
      InflowEnds(d, m, aspect, w, weights, a, k + 1);
    }
  }

  // ---------------------------------------------------------------------
  // The methods.

  /** The host's `addToCellValue`: a write off the window is ignored. */
  method AddTo(balance: array2<real>, c: Cell, v: real)
    modifies balance
    ensures forall i, j | 0 <= i < balance.Length0 && 0 <= j < balance.Length1 ::
      balance[i, j] == if Cell(i, j) == c then old(balance[i, j]) + v else old(balance[i, j])
  {
    if 0 <= c.x < balance.Length0 && 0 <= c.y < balance.Length1 {
      balance[c.x, c.y] := balance[c.x, c.y] + v;
    }
  }

  /** `doD8`: the weight goes to the D8 neighbour. */
  method DoD8(d: Dem, weights: Layer<real>, balance: array2<real>, x: int, y: int)
    modifies balance
    ensures forall i, j | 0 <= i < balance.Length0 && 0 <= j < balance.Length1 ::
      balance[i, j] == old(balance[i, j]) +
        (if weights.Valid(Cell(x, y)) && Dir(d, Cell(x, y)) >= 0 && Cell(i, j) == Neighbour(Cell(x, y), Dir(d, Cell(x, y)))
         then weights.Get(Cell(x, y)) else 0.0)
  {
    var s := Cell(x, y);
    var weight := weights.Get(s);
    if !weights.IsNoData(weight) {
      var dir := Dir(d, s);
      if dir >= 0 {
        AddTo(balance, Neighbour(s, dir), weight);
      }
    }
  }

  /**
   * What `doDInf` on source `s` adds to cell `a`: the aspect's sector gets
   * the weight less the fraction past the sector, the next sector that fraction.
   */
  function DInfGiven(weights: Layer<real>, aspect: real, s: Cell, a: Cell): real
  {
    (if weights.Valid(s) && aspect >= 0.0 && a == Neighbour(s, AccFlow.Sector(aspect) % 8)
     then Portion(weights.Get(s), 1.0 - AccFlow.SectorFraction(aspect)) else 0.0) +
    (if weights.Valid(s) && aspect >= 0.0 && a == Neighbour(s, (AccFlow.Sector(aspect) + 1) % 8)
     then Portion(weights.Get(s), AccFlow.SectorFraction(aspect)) else 0.0)
  }

  /** `doDInf`: the weight is split between the aspect's sector and the next one. */
  method DoDInf(weights: Layer<real>, aspect: real, balance: array2<real>, x: int, y: int)
    modifies balance
    ensures forall i, j | 0 <= i < balance.Length0 && 0 <= j < balance.Length1 ::
      balance[i, j] == old(balance[i, j]) + DInfGiven(weights, aspect, Cell(x, y), Cell(i, j))
  {
    var s := Cell(x, y);
    var weight := weights.Get(s);
    if !weights.IsNoData(weight) {
      if aspect >= 0.0 {
        var dir := AccFlow.Sector(aspect);
        var f := AccFlow.SectorFraction(aspect);
        dir := dir % 8;
        var first := Neighbour(s, dir);
        AddTo(balance, first, Portion(weight, 1.0 - f));
        NextDirection(AccFlow.Sector(aspect));
        dir := (dir + 1) % 8;
        AddTo(balance, Neighbour(s, dir), Portion(weight, f));
        forall i, j | 0 <= i < balance.Length0 && 0 <= j < balance.Length1
          ensures balance[i, j] == old(balance[i, j]) + DInfGiven(weights, aspect, s, Cell(i, j))
        {
          DInfGivenAt(weights, aspect, s, Cell(i, j));
        }
      } else {
        DInfGivenNone(weights, aspect, s);
      }
    } else {
      DInfGivenNone(weights, aspect, s);
    }
  }

  /** From a source holding data with an aspect, the two sectors get their portions. */
  lemma DInfGivenAt(weights: Layer<real>, aspect: real, s: Cell, a: Cell)
    requires weights.Valid(s) && aspect >= 0.0
    ensures DInfGiven(weights, aspect, s, a) ==
      (if a == Neighbour(s, AccFlow.Sector(aspect) % 8) then Portion(weights.Get(s), 1.0 - AccFlow.SectorFraction(aspect)) else 0.0) +
      (if a == Neighbour(s, (AccFlow.Sector(aspect) + 1) % 8) then Portion(weights.Get(s), AccFlow.SectorFraction(aspect)) else 0.0)
  {
  }

  /** A source without data or without an aspect gives nothing. */
  lemma DInfGivenNone(weights: Layer<real>, aspect: real, s: Cell)
    requires !weights.Valid(s) || aspect < 0.0
    ensures forall a :: DInfGiven(weights, aspect, s, a) == 0.0
  {
  }

  lemma NextDirection(n: int)
    ensures (n % 8 + 1) % 8 == (n + 1) % 8
  {
  }

  /** The first loop of `doMFD`: the slope weight towards every lower neighbour, and their total. */
  method SlopeWeights(z: Layer<real>, w: AccFlow.MfdWeights, s: Cell) returns (flows: array<real>, dzSum: real)
    ensures fresh(flows) && flows.Length == 8
    ensures forall k | 0 <= k < 8 :: flows[k] == AccFlow.MfdWeight(z, w, s, k)
    ensures dzSum == AccFlow.MfdTotal(z, w, s, 8)
  {
    var zs := z.Get(s);
    dzSum := 0.0;
    flows := new real[8](i => 0.0);
    for i := 0 to 8
      modifies flows
      invariant dzSum == AccFlow.MfdTotal(z, w, s, i)
      invariant forall k | 0 <= k < 8 :: flows[k] == if k < i then AccFlow.MfdWeight(z, w, s, k) else 0.0
    {
      var z2 := z.Get(Neighbour(s, i));
      if !z.IsNoData(z2) {
        var dif := zs - z2;
        if dif > 0.0 {
          flows[i] := w(s, i);
          dzSum := dzSum + flows[i];
        }
      }
    }
  }

  /** `doMFD`: the weight is split over the lower neighbours in proportion to the slope weights. */
  method DoMfd(z: Layer<real>, w: AccFlow.MfdWeights, weights: Layer<real>, balance: array2<real>, x: int, y: int)
    modifies balance
    ensures forall i, j | 0 <= i < balance.Length0 && 0 <= j < balance.Length1 ::
      balance[i, j] == old(balance[i, j]) +
        (if weights.Valid(Cell(x, y)) && DirTo(Cell(x, y), Cell(i, j)) >= 0
         then Portion(weights.Get(Cell(x, y)), AccFlow.MfdShare(z, w, DirTo(Cell(x, y), Cell(i, j)), Cell(x, y))) else 0.0)
  {
    var s := Cell(x, y);
    var weight := weights.Get(s);
    if !weights.IsNoData(weight) {
      var flows, dzSum := SlopeWeights(z, w, s);
      if dzSum > 0.0 {
        for i := 0 to 8
          modifies balance
          invariant forall a, b | 0 <= a < balance.Length0 && 0 <= b < balance.Length1 ::
            balance[a, b] == old(balance[a, b]) +
              (if 0 <= DirTo(s, Cell(a, b)) < i
               then Portion(weight, AccFlow.MfdShare(z, w, DirTo(s, Cell(a, b)), s)) else 0.0)
        {
          if flows[i] > 0.0 {
            AddTo(balance, Neighbour(s, i), Portion(weight, flows[i] / dzSum));
          }
        }
      } else {
        forall k | 0 <= k < 8 ensures !AccFlow.MfdTarget(z, s, k) {
          if AccFlow.MfdTarget(z, s, k) {
            AccFlow.MfdTotalPositive(z, w, s, 8, k);
          }
        }
      }
    }
  }

  lemma D8Share(d: Dem, aspect: Cell -> real, w: AccFlow.MfdWeights, i: int, s: Cell)
    requires 0 <= i < 8
    ensures Share(d, MethodD8, aspect, w, i, s) == if i == Dir(d, s) then 1.0 else 0.0
  {
  }

  lemma DInfShare(d: Dem, aspect: Cell -> real, w: AccFlow.MfdWeights, i: int, s: Cell)
    requires 0 <= i < 8
    ensures Share(d, MethodDInf, aspect, w, i, s) == AccFlow.DInfShare(aspect(s), i)
  {
  }

  lemma MfdShare(d: Dem, aspect: Cell -> real, w: AccFlow.MfdWeights, i: int, s: Cell)
    requires 0 <= i < 8
    ensures Share(d, MethodMfd, aspect, w, i, s) == AccFlow.MfdShare(d.z, w, i, s)
  {
  }

  /** What D8 gives `a` from `s`, as `doD8` adds it. */
  lemma D8Gift(d: Dem, aspect: Cell -> real, w: AccFlow.MfdWeights, weights: Layer<real>, s: Cell, a: Cell)
    ensures Gift(d, MethodD8, aspect, w, weights, s, a) ==
      if weights.Valid(s) && Dir(d, s) >= 0 && a == Neighbour(s, Dir(d, s)) then weights.Get(s) else 0.0
  {
    var i := DirTo(s, a);
    if i >= 0 {
      D8Share(d, aspect, w, i, s);
    }
  }

  /** Split over the two sectors, `doDInf`'s additions are the D-infinity shares of the weight. */
  lemma DInfGivenIsShare(weights: Layer<real>, aspect: real, s: Cell, a: Cell)
    ensures DInfGiven(weights, aspect, s, a) ==
      if weights.Valid(s) && DirTo(s, a) >= 0 then Portion(weights.Get(s), AccFlow.DInfShare(aspect, DirTo(s, a))) else 0.0
  {
    var i0 := AccFlow.Sector(aspect) % 8;
    var i1 := (AccFlow.Sector(aspect) + 1) % 8;
    NextDirection(AccFlow.Sector(aspect));
    assert i1 == (i0 + 1) % 8;
    NeighboursDistinct(s, i0, i1);
    var i := DirTo(s, a);
    if weights.Valid(s) && aspect >= 0.0 {
      if i == i0 {
        assert a != Neighbour(s, i1);
      } else if i == i1 {
        assert a != Neighbour(s, i0);
      } else if i >= 0 {
        assert AccFlow.DInfShare(aspect, i) == 0.0;
      }
    } else if i >= 0 && weights.Valid(s) {
      assert AccFlow.DInfShare(aspect, i) == 0.0;
    }
  }

  /** What D-infinity gives `a` from `s`, as `doDInf` adds it. */
  lemma DInfGift(d: Dem, aspect: Cell -> real, w: AccFlow.MfdWeights, weights: Layer<real>, s: Cell, a: Cell)
    ensures Gift(d, MethodDInf, aspect, w, weights, s, a) == DInfGiven(weights, aspect(s), s, a)
  {
    var i := DirTo(s, a);
    if i >= 0 {
      DInfShare(d, aspect, w, i, s);
    }
    DInfGivenIsShare(weights, aspect(s), s, a);
  }

  /** What MFD gives `a` from `s`, as `doMFD` adds it. */
  lemma MfdGift(d: Dem, aspect: Cell -> real, w: AccFlow.MfdWeights, weights: Layer<real>, s: Cell, a: Cell)
    ensures Gift(d, MethodMfd, aspect, w, weights, s, a) ==
      if weights.Valid(s) && DirTo(s, a) >= 0 then Portion(weights.Get(s), AccFlow.MfdShare(d.z, w, DirTo(s, a), s)) else 0.0
  {
    var i := DirTo(s, a);
    if i >= 0 {
      MfdShare(d, aspect, w, i, s);
    }
  }

  /** One step of `calculateInFlows`: the method's `do*` on cell `(x, y)`. */
  method InflowsAt(d: Dem, m: int, aspect: Cell -> real, w: AccFlow.MfdWeights, weights: Layer<real>, balance: array2<real>, x: int, y: int)
    modifies balance
    ensures forall i, j | 0 <= i < balance.Length0 && 0 <= j < balance.Length1 ::
      balance[i, j] == old(balance[i, j]) + Gift(d, m, aspect, w, weights, Cell(x, y), Cell(i, j))
  {
    if m == MethodD8 {
      D8At(d, m, aspect, w, weights, balance, x, y);
    } else if m == MethodDInf {
      DInfAt(d, m, aspect, w, weights, balance, x, y);
    } else if m == MethodMfd {
      MfdAt(d, m, aspect, w, weights, balance, x, y);
    } else {
      forall i, j | 0 <= i < balance.Length0 && 0 <= j < balance.Length1
        ensures Gift(d, m, aspect, w, weights, Cell(x, y), Cell(i, j)) == 0.0
      {
        NoMethodNoGift(d, m, aspect, w, weights, Cell(x, y), Cell(i, j));
      }
    }
  }

  method D8At(d: Dem, m: int, aspect: Cell -> real, w: AccFlow.MfdWeights, weights: Layer<real>, balance: array2<real>, x: int, y: int)
    requires m == MethodD8
    modifies balance
    ensures forall i, j | 0 <= i < balance.Length0 && 0 <= j < balance.Length1 ::
      balance[i, j] == old(balance[i, j]) + Gift(d, m, aspect, w, weights, Cell(x, y), Cell(i, j))
  {
    DoD8(d, weights, balance, x, y);
    forall i, j | 0 <= i < balance.Length0 && 0 <= j < balance.Length1
      ensures balance[i, j] == old(balance[i, j]) + Gift(d, m, aspect, w, weights, Cell(x, y), Cell(i, j))
    {
      D8Gift(d, aspect, w, weights, Cell(x, y), Cell(i, j));
    }
  }

  method DInfAt(d: Dem, m: int, aspect: Cell -> real, w: AccFlow.MfdWeights, weights: Layer<real>, balance: array2<real>, x: int, y: int)
    requires m == MethodDInf
    modifies balance
    ensures forall i, j | 0 <= i < balance.Length0 && 0 <= j < balance.Length1 ::
      balance[i, j] == old(balance[i, j]) + Gift(d, m, aspect, w, weights, Cell(x, y), Cell(i, j))
  {
    DoDInf(weights, aspect(Cell(x, y)), balance, x, y);
    forall i, j | 0 <= i < balance.Length0 && 0 <= j < balance.Length1
      ensures balance[i, j] == old(balance[i, j]) + Gift(d, m, aspect, w, weights, Cell(x, y), Cell(i, j))
    {
      DInfGift(d, aspect, w, weights, Cell(x, y), Cell(i, j));
    }
  }

  method MfdAt(d: Dem, m: int, aspect: Cell -> real, w: AccFlow.MfdWeights, weights: Layer<real>, balance: array2<real>, x: int, y: int)
    requires m == MethodMfd
    modifies balance
    ensures forall i, j | 0 <= i < balance.Length0 && 0 <= j < balance.Length1 ::
      balance[i, j] == old(balance[i, j]) + Gift(d, m, aspect, w, weights, Cell(x, y), Cell(i, j))
  {
    DoMfd(d.z, w, weights, balance, x, y);
    forall i, j | 0 <= i < balance.Length0 && 0 <= j < balance.Length1
      ensures balance[i, j] == old(balance[i, j]) + Gift(d, m, aspect, w, weights, Cell(x, y), Cell(i, j))
    {
      MfdGift(d, aspect, w, weights, Cell(x, y), Cell(i, j));
    }
  }

  lemma NoMethodNoGift(d: Dem, m: int, aspect: Cell -> real, w: AccFlow.MfdWeights, weights: Layer<real>, s: Cell, a: Cell)
    requires m != MethodD8 && m != MethodDInf && m != MethodMfd
    ensures Gift(d, m, aspect, w, weights, s, a) == 0.0
  {
  }

  /** `calculateInFlows`: every cell's gifts, in row order, over a zero raster. */
  method CalculateInFlows(d: Dem, m: int, aspect: Cell -> real, w: AccFlow.MfdWeights, weights: Layer<real>, balance: array2<real>)
    requires SameWindow(d, weights) && Shaped(balance, d)
    requires forall i, j | 0 <= i < d.z.nx && 0 <= j < d.z.ny :: balance[i, j] == 0.0
    modifies balance
    ensures forall i, j | 0 <= i < d.z.nx && 0 <= j < d.z.ny :: balance[i, j] == InflowFrom(d, m, aspect, w, weights, Cell(i, j), 0)
  {
    forall i, j | 0 <= i < d.z.nx && 0 <= j < d.z.ny
      ensures balance[i, j] == InflowBefore(d, m, aspect, w, weights, Cell(i, j), 0, 0, 0)
    {
      InflowEnds(d, m, aspect, w, weights, Cell(i, j), 0);
    }
    for y := 0 to d.z.ny
      invariant forall i, j | 0 <= i < d.z.nx && 0 <= j < d.z.ny ::
        balance[i, j] == InflowBefore(d, m, aspect, w, weights, Cell(i, j), 0, y, 0)
    {
      InflowsRow(d, m, aspect, w, weights, balance, y);
    }
    forall i, j | 0 <= i < d.z.nx && 0 <= j < d.z.ny
      ensures balance[i, j] == InflowFrom(d, m, aspect, w, weights, Cell(i, j), 0)
    {
      InflowEnds(d, m, aspect, w, weights, Cell(i, j), 0);
    }
  }

  /** The scan of `calculateInFlows` moves past cell `(x, y)`. */
  method ScanCell(d: Dem, m: int, aspect: Cell -> real, w: AccFlow.MfdWeights, weights: Layer<real>, balance: array2<real>, x: int, y: int)
    requires Shaped(balance, d)
    requires forall i, j | 0 <= i < d.z.nx && 0 <= j < d.z.ny ::
      balance[i, j] == InflowBefore(d, m, aspect, w, weights, Cell(i, j), x, y, 0)
    modifies balance
    ensures forall i, j | 0 <= i < d.z.nx && 0 <= j < d.z.ny ::
      balance[i, j] == InflowBefore(d, m, aspect, w, weights, Cell(i, j), x + 1, y, 0)
  {
    InflowsAt(d, m, aspect, w, weights, balance, x, y);
    forall i, j | 0 <= i < d.z.nx && 0 <= j < d.z.ny
      ensures balance[i, j] == InflowBefore(d, m, aspect, w, weights, Cell(i, j), x + 1, y, 0)
    {
      InflowStep(d, m, aspect, w, weights, Cell(i, j), x, y);
    }
  }

  /** One row of `calculateInFlows`. */
  method InflowsRow(d: Dem, m: int, aspect: Cell -> real, w: AccFlow.MfdWeights, weights: Layer<real>, balance: array2<real>, y: int)
    requires SameWindow(d, weights) && Shaped(balance, d)
    requires forall i, j | 0 <= i < d.z.nx && 0 <= j < d.z.ny ::
      balance[i, j] == InflowBefore(d, m, aspect, w, weights, Cell(i, j), 0, y, 0)
    modifies balance
    ensures forall i, j | 0 <= i < d.z.nx && 0 <= j < d.z.ny ::
      balance[i, j] == InflowBefore(d, m, aspect, w, weights, Cell(i, j), 0, y + 1, 0)
  {
    for x := 0 to d.z.nx
      invariant forall i, j | 0 <= i < d.z.nx && 0 <= j < d.z.ny ::
        balance[i, j] == InflowBefore(d, m, aspect, w, weights, Cell(i, j), x, y, 0)
    {
      ScanCell(d, m, aspect, w, weights, balance, x, y);
    }
    forall i, j | 0 <= i < d.z.nx && 0 <= j < d.z.ny
      ensures balance[i, j] == InflowBefore(d, m, aspect, w, weights, Cell(i, j), 0, y + 1, 0)
    {
      InflowRowEnd(d, m, aspect, w, weights, Cell(i, j), y, 0);
    }
  }

  /** `substractOutFlows`: a weight is taken off its own cell; a no-data weight makes the cell no-data. */
  method SubtractOutFlows(weights: Layer<real>, balance: array2<real>, outNoData: real)
    modifies balance
    ensures forall i, j | 0 <= i < balance.Length0 && 0 <= j < balance.Length1 ::
      balance[i, j] == if weights.Valid(Cell(i, j)) then old(balance[i, j]) - weights.Get(Cell(i, j)) else outNoData
  {
    for y := 0 to balance.Length1
      invariant forall i, j | 0 <= i < balance.Length0 && 0 <= j < balance.Length1 ::
        balance[i, j] ==
          if j >= y then old(balance[i, j])
          else if weights.Valid(Cell(i, j)) then old(balance[i, j]) - weights.Get(Cell(i, j)) else outNoData
    {
      for x := 0 to balance.Length0
        invariant forall i, j | 0 <= i < balance.Length0 && 0 <= j < balance.Length1 ::
          balance[i, j] ==
            if !Before(Cell(i, j), x, y) then old(balance[i, j])
            else if weights.Valid(Cell(i, j)) then old(balance[i, j]) - weights.Get(Cell(i, j)) else outNoData
      {
        var out := weights.Get(Cell(x, y));
        if !weights.IsNoData(out) {
          balance[x, y] := balance[x, y] + -out;
        } else {
          balance[x, y] := outNoData;
        }
      }
    }
  }

  /**
   * `processAlgorithm`: the inflows over a fresh zero raster, then the
   * outflows; every cell ends at its net balance.
   */
  method NetBalance(d: Dem, m: int, aspect: Cell -> real, w: AccFlow.MfdWeights, weights: Layer<real>, outNoData: real)
    returns (balance: array2<real>)
    requires SameWindow(d, weights)
    ensures fresh(balance) && Shaped(balance, d)
    ensures forall i, j | 0 <= i < d.z.nx && 0 <= j < d.z.ny ::
      balance[i, j] == Balance(d, m, aspect, w, weights, outNoData, Cell(i, j))
  {
    balance := new real[d.z.nx, d.z.ny]((i, j) => 0.0);
    CalculateInFlows(d, m, aspect, w, weights, balance);
    SubtractOutFlows(weights, balance, outNoData);
  }
}
