/**
 * Time to outlet: the travel time from every cell of the outlet's upslope
 * area down its D8 flow path to the outlet, each step taking its length
 * over the flow speed, times the speed ratio where the cell is off the
 * channel network.  A first pass with unit speed finds the cell farthest
 * from the outlet for the time-of-concentration formula.
 */
module Isocrones {
  import opened Grid
  import opened Drainage

  /**
   * The length `writeTimeOut` gives the step from `a` to `b`: 0 when they
   * are the same cell, the side length when the offsets sum to plus or minus
   * one, and the corner length otherwise.
   */
  function StepLength(d: Dem, a: Cell, b: Cell): (r: real)
    ensures a == b <==> r == 0.0
    ensures a != b ==> r == d.cellSize || r == d.diagonal
  {
    if a == b then 0.0
    else if a.x - b.x + a.y - b.y == 1 || a.x - b.x + a.y - b.y == -1 then Dist(d, 0)
    else Dist(d, 1)
  }

  /** The offset test picks the host's neighbour distance for every step between neighbours. */
  lemma StepLengthIsDist(d: Dem, c: Cell, i: int)
    requires 0 <= i < 8
    ensures StepLength(d, Neighbour(c, i), c) == Dist(d, i)
  {
    var n := Neighbour(c, i);
    OffsetParity(i);
    assert n.x - c.x + n.y - c.y == OffsetX(i) + OffsetY(i);
  }

  /** The offsets of side neighbours sum to plus or minus one, those of corner neighbours to 0 or 2 in size. */
  lemma OffsetParity(i: int)
    requires 0 <= i < 8
    ensures OffsetX(i) != 0 || OffsetY(i) != 0
    ensures OffsetX(i) + OffsetY(i) == 1 || OffsetX(i) + OffsetY(i) == -1 <==> i % 2 == 0
  {
    if i == 0 {} else if i == 1 {} else if i == 2 {} else if i == 3 {}
    else if i == 4 {} else if i == 5 {} else if i == 6 {} else {}
  }

  /** Cell `a` is off the channel network: there is a network and it holds no-data or 0 at `a`. */
  predicate OffNetwork(net: Option<Layer<real>>, a: Cell)
  {
    net.Some? && (net.value.IsNoData(net.value.Get(a)) || net.value.Get(a) == 0.0)
  }

  /** The time `writeTimeOut` adds for the step from `a` to `b`. */
  function StepTime(d: Dem, net: Option<Layer<real>>, speed: real, ratio: real, a: Cell, b: Cell): real
    requires speed > 0.0
  {
    var t := StepLength(d, a, b) / speed;
    if OffNetwork(net, a) then t * ratio else t
  }

  /** The travel time from `x` down its flow path to `a`, the steps of `a` on excluded. */
  function PathTime(d: Dem, net: Option<Layer<real>>, speed: real, ratio: real, x: Cell, a: Cell): real
    requires speed > 0.0 && Reaches(d, x, a)
    decreases Depth(d, x)
  {
    if x == a then 0.0
    else
      DirDescends(d, x);
      StepTime(d, net, speed, ratio, x, Next(d, x)) + PathTime(d, net, speed, ratio, Next(d, x), a)
  }

  /** The time to `a` through a cell `n` draining into it is the time to `n` plus that last step. */
  lemma {:induction false} PathTimeSplit(d: Dem, net: Option<Layer<real>>, speed: real, ratio: real, x: Cell, n: Cell, a: Cell)
    requires speed > 0.0 && Reaches(d, x, n) && Dir(d, n) >= 0 && Next(d, n) == a
    ensures Reaches(d, x, a)
    ensures PathTime(d, net, speed, ratio, x, a) ==
      PathTime(d, net, speed, ratio, x, n) + StepTime(d, net, speed, ratio, n, a)
    decreases Depth(d, x)
  {
    DirDescends(d, n);
    assert Reaches(d, n, a);
    ReachesTrans(d, x, n, a);
    if x != n {
      DirDescends(d, x);
      PathTimeSplit(d, net, speed, ratio, Next(d, x), n, a);
      if x == a {
        ReachesDescends(d, x, n);
        assert false;
      }
    }
  }

  /** With a non-negative ratio, times are non-negative and grow going upslope. */
  lemma {:induction false} PathTimeGrows(d: Dem, net: Option<Layer<real>>, speed: real, ratio: real, x: Cell, a: Cell)
    requires speed > 0.0 && ratio >= 0.0 && Reaches(d, x, a)
    ensures PathTime(d, net, speed, ratio, x, a) >= 0.0
    ensures x != a ==> PathTime(d, net, speed, ratio, x, a) >= PathTime(d, net, speed, ratio, Next(d, x), a)
    decreases Depth(d, x)
  {
    if x != a {
      DirDescends(d, x);
      PathTimeGrows(d, net, speed, ratio, Next(d, x), a);
      StepTimeNonNegative(d, net, speed, ratio, x, Next(d, x));
    }
  }

  lemma StepTimeNonNegative(d: Dem, net: Option<Layer<real>>, speed: real, ratio: real, a: Cell, b: Cell)
    requires speed > 0.0 && ratio >= 0.0
    ensures StepTime(d, net, speed, ratio, a, b) >= 0.0
  {
    var t := StepLength(d, a, b) / speed;
    assert t >= 0.0;
    if OffNetwork(net, a) {
      assert t * ratio >= 0.0;
    }
  }

  /**
   * `writeTimeOut`: a valid cell `a` gets the time of the step to `b` plus
   * the value at `b`, and every cell whose flow path reaches `a` gets, in
   * the recursion over the neighbours draining into it, that time plus its
   * own travel time to `a`.  A no-data cell is neither written nor expanded.
   */
  method WriteTimeOut(d: Dem, net: Option<Layer<real>>, speed: real, ratio: real, noData: real,
                      t: array2<real>, a: Cell, b: Cell)
    requires speed > 0.0 && Shaped(t, d)
    modifies t
    ensures forall x, y | 0 <= x < t.Length0 && 0 <= y < t.Length1 ::
      t[x, y] == if d.z.Valid(a) && Reaches(d, Cell(x, y), a) then
        old(ReadReal(t, b, noData)) + StepTime(d, net, speed, ratio, a, b) + PathTime(d, net, speed, ratio, Cell(x, y), a)
      else old(t[x, y])
    decreases Height(d, a), 2
  {
    if d.z.Valid(a) {
      var time := StepTime(d, net, speed, ratio, a, b) + ReadReal(t, b, noData);
      t[a.x, a.y] := time;
      forall x, y | 0 <= x < t.Length0 && 0 <= y < t.Length1
        ensures Covered(d, a, Cell(x, y), 0) <==> Cell(x, y) == a
      {
        CoveredEnds(d, a, Cell(x, y));
      }
      for i := 0 to 8
        invariant forall x, y | 0 <= x < t.Length0 && 0 <= y < t.Length1 ::
          t[x, y] == if Covered(d, a, Cell(x, y), i) then time + PathTime(d, net, speed, ratio, Cell(x, y), a) else old(t[x, y])
      {
        forall x, y | 0 <= x < t.Length0 && 0 <= y < t.Length1
          ensures Covered(d, a, Cell(x, y), i + 1) <==>
            Covered(d, a, Cell(x, y), i) || (Drains(d, a, i) && Reaches(d, Cell(x, y), Neighbour(a, i)))
        {
          CoveredStep(d, a, i, Cell(x, y));
        }
        SplitAll(d, net, speed, ratio, t.Length0, t.Length1, a, i);
        Visit(d, net, speed, ratio, noData, t, a, i, time);
      }
      forall x, y | 0 <= x < t.Length0 && 0 <= y < t.Length1
        ensures Covered(d, a, Cell(x, y), 8) <==> Reaches(d, Cell(x, y), a)
      {
        CoveredEnds(d, a, Cell(x, y));
      }
    }
  }

  /**
   * One turn of the neighbour loop of `writeTimeOut` at `a`: neighbour `i`
   * is expanded when it is valid and its direction points back at `a`.
   */
  method Visit(d: Dem, net: Option<Layer<real>>, speed: real, ratio: real, noData: real,
               t: array2<real>, a: Cell, i: int, time: real)
    requires speed > 0.0 && Shaped(t, d) && d.z.Valid(a) && t[a.x, a.y] == time && 0 <= i < 8
    modifies t
    ensures forall x, y | 0 <= x < t.Length0 && 0 <= y < t.Length1 ::
      t[x, y] == if Drains(d, a, i) && Reaches(d, Cell(x, y), Neighbour(a, i)) then
        time + StepTime(d, net, speed, ratio, Neighbour(a, i), a) + PathTime(d, net, speed, ratio, Cell(x, y), Neighbour(a, i))
      else old(t[x, y])
    decreases Height(d, a), 1
  {
    var n := Neighbour(a, i);
    if d.z.Valid(n) {
      var dir := Dir(d, n);
      if dir >= 0 && (i + 4) % 8 == dir {
        DrainsUphill(d, a, i);
        Expand(d, net, speed, ratio, noData, t, a, n, time);
      }
    }
  }

  /** The recursive call of `writeTimeOut` on neighbour `n` of `a`, which drains into `a`. */
  method Expand(d: Dem, net: Option<Layer<real>>, speed: real, ratio: real, noData: real,
                t: array2<real>, a: Cell, n: Cell, time: real)
    requires speed > 0.0 && Shaped(t, d) && d.z.Valid(n) && d.z.InWindow(a) && t[a.x, a.y] == time
    requires Height(d, n) < Height(d, a)
    modifies t
    ensures forall x, y | 0 <= x < t.Length0 && 0 <= y < t.Length1 ::
      t[x, y] == if Reaches(d, Cell(x, y), n) then
        time + StepTime(d, net, speed, ratio, n, a) + PathTime(d, net, speed, ratio, Cell(x, y), n)
      else old(t[x, y])
    decreases Height(d, a), 0
  {
    assert ReadReal(t, a, noData) == time;
    WriteTimeOut(d, net, speed, ratio, noData, t, n, a);
  }

  /** Every cell whose flow path reaches neighbour `i` of `a`, draining into `a`, reaches `a` one step later. */
  lemma SplitAll(d: Dem, net: Option<Layer<real>>, speed: real, ratio: real, nx: int, ny: int, a: Cell, i: int)
    requires speed > 0.0 && 0 <= i < 8
    ensures forall x, y | 0 <= x < nx && 0 <= y < ny && Drains(d, a, i) && Reaches(d, Cell(x, y), Neighbour(a, i)) ::
      Reaches(d, Cell(x, y), a) &&
      PathTime(d, net, speed, ratio, Cell(x, y), a) ==
        StepTime(d, net, speed, ratio, Neighbour(a, i), a) + PathTime(d, net, speed, ratio, Cell(x, y), Neighbour(a, i))
  {
    if Drains(d, a, i) {
      OppositeNeighbour(a, i);
      forall x, y | 0 <= x < nx && 0 <= y < ny && Reaches(d, Cell(x, y), Neighbour(a, i))
        ensures Reaches(d, Cell(x, y), a)
        ensures PathTime(d, net, speed, ratio, Cell(x, y), a) ==
          StepTime(d, net, speed, ratio, Neighbour(a, i), a) + PathTime(d, net, speed, ratio, Cell(x, y), Neighbour(a, i))
      {
        PathTimeSplit(d, net, speed, ratio, Cell(x, y), Neighbour(a, i), a);
      }
    }
  }

  /**
   * The value the time-to-outlet raster ends with at `c`: its travel time
   * when its flow path reaches a valid outlet, and the 0 the raster was
   * filled with otherwise.
   */
  function TravelTime(d: Dem, net: Option<Layer<real>>, speed: real, ratio: real, outlet: Cell, c: Cell): real
    requires speed > 0.0
  {
    if d.z.Valid(outlet) && Reaches(d, c, outlet) then PathTime(d, net, speed, ratio, c, outlet) else 0.0
  }

  /**
   * The outlet itself takes no time, and with a non-negative ratio no cell
   * has a negative time, a cell upslope never less than the one it drains to.
   */
  lemma TravelTimeShape(d: Dem, net: Option<Layer<real>>, speed: real, ratio: real, outlet: Cell, c: Cell)
    requires speed > 0.0 && ratio >= 0.0
    ensures TravelTime(d, net, speed, ratio, outlet, outlet) == 0.0
    ensures TravelTime(d, net, speed, ratio, outlet, c) >= 0.0
    ensures d.z.Valid(outlet) && Reaches(d, c, outlet) && c != outlet ==>
      TravelTime(d, net, speed, ratio, outlet, c) >= TravelTime(d, net, speed, ratio, outlet, Next(d, c))
  {
    if d.z.Valid(outlet) && Reaches(d, c, outlet) {
      PathTimeGrows(d, net, speed, ratio, c, outlet);
      if c != outlet {
        DirDescends(d, c);
      }
    }
  }

  /**
   * `calculateTimeOut`: the raster is filled with 0 and the outlet written
   * as its own downstream cell, so every cell ends with its travel time.
   */
  method CalculateTimeOut(d: Dem, net: Option<Layer<real>>, speed: real, ratio: real, outlet: Cell,
                          t: array2<real>, noData: real)
    requires speed > 0.0 && Shaped(t, d)
    modifies t
    ensures forall x, y | 0 <= x < t.Length0 && 0 <= y < t.Length1 ::
      t[x, y] == TravelTime(d, net, speed, ratio, outlet, Cell(x, y))
  {
    Assign(t, 0.0);
    FromOutlet(d, net, speed, ratio, outlet, t, noData);
  }

  /** `assign`: every cell of the raster takes the value `v`. */
  method Assign(t: array2<real>, v: real)
    modifies t
    ensures forall x, y | 0 <= x < t.Length0 && 0 <= y < t.Length1 :: t[x, y] == v
  {
    forall x, y | 0 <= x < t.Length0 && 0 <= y < t.Length1 {
      t[x, y] := v;
    }
  }

  /** Writing the outlet as its own downstream cell into a zero-filled raster leaves every travel time. */
  method FromOutlet(d: Dem, net: Option<Layer<real>>, speed: real, ratio: real, outlet: Cell,
                    t: array2<real>, noData: real)
    requires speed > 0.0 && Shaped(t, d)
    requires forall x, y | 0 <= x < t.Length0 && 0 <= y < t.Length1 :: t[x, y] == 0.0
    modifies t
    ensures forall x, y | 0 <= x < t.Length0 && 0 <= y < t.Length1 ::
      t[x, y] == TravelTime(d, net, speed, ratio, outlet, Cell(x, y))
  {
    assert d.z.Valid(outlet) ==> ReadReal(t, outlet, noData) == 0.0;
    assert StepTime(d, net, speed, ratio, outlet, outlet) == 0.0;
    WriteTimeOut(d, net, speed, ratio, noData, t, outlet, outlet);
  }

  /**
   * The scan of `calculateTimeOfConcentration`: row by row, the first cell
   * holding the greatest value other than `noData`.  When every cell is
   * no-data the highest cell stays at (0, 0) and `found` is false.
   */
  method HighestCell(t: array2<real>, noData: real) returns (best: Cell, value: real, found: bool)
    ensures !found ==> best == Cell(0, 0)
    ensures !found ==> forall x, y | 0 <= x < t.Length0 && 0 <= y < t.Length1 :: t[x, y] == noData
    ensures found ==> (0 <= best.x < t.Length0 && 0 <= best.y < t.Length1
      && value == t[best.x, best.y] && value != noData)
    ensures found ==> forall x, y | 0 <= x < t.Length0 && 0 <= y < t.Length1 && t[x, y] != noData ::
      t[x, y] <= value
    ensures found ==> forall x, y | 0 <= x < t.Length0 && 0 <= y < t.Length1 && t[x, y] != noData ::
      Before(Cell(x, y), best.x, best.y) ==> t[x, y] < value
  {
    best, value, found := Cell(0, 0), 0.0, false;
    var y := 0;
    while y < t.Length1
      invariant 0 <= y <= t.Length1
      invariant !found ==> best == Cell(0, 0)
      invariant !found ==> forall i, j | 0 <= i < t.Length0 && 0 <= j < y :: t[i, j] == noData
      invariant found ==> (0 <= best.x < t.Length0 && 0 <= best.y < y
        && value == t[best.x, best.y] && value != noData)
      invariant found ==> forall i, j | 0 <= i < t.Length0 && 0 <= j < y && t[i, j] != noData ::
        t[i, j] <= value
      invariant found ==> forall i, j | 0 <= i < t.Length0 && 0 <= j < y && t[i, j] != noData ::
        Before(Cell(i, j), best.x, best.y) ==> t[i, j] < value
    {
      var x := 0;
      while x < t.Length0
        invariant 0 <= x <= t.Length0
        invariant !found ==> best == Cell(0, 0)
        invariant !found ==> forall i, j | 0 <= i < t.Length0 && 0 <= j <= y && Before(Cell(i, j), x, y) ::
          t[i, j] == noData
        invariant found ==> (0 <= best.x < t.Length0 && 0 <= best.y <= y && Before(best, x, y)
          && value == t[best.x, best.y] && value != noData)
        invariant found ==> forall i, j | 0 <= i < t.Length0 && 0 <= j <= y && Before(Cell(i, j), x, y) && t[i, j] != noData ::
          t[i, j] <= value
        invariant found ==> forall i, j | 0 <= i < t.Length0 && 0 <= j <= y && Before(Cell(i, j), x, y) && t[i, j] != noData ::
          Before(Cell(i, j), best.x, best.y) ==> t[i, j] < value
      {
        var v := t[x, y];
        if v != noData && (!found || v > value) {
          best, value, found := Cell(x, y), v, true;
        }
        x := x + 1;
      }
      y := y + 1;
    }
  }

  /**
   * `calculateTimeOfConcentration` up to its formula: with unit speed and
   * ratio the outlet is written into the zero-filled raster, and the highest
   * cell of the result is the first cell with the greatest travel time.
   */
  method TimeOfConcentrationCell(d: Dem, net: Option<Layer<real>>, outlet: Cell, t: array2<real>, noData: real)
    returns (best: Cell, value: real, found: bool)
    requires Shaped(t, d)
    requires forall x, y | 0 <= x < t.Length0 && 0 <= y < t.Length1 :: t[x, y] == 0.0
    modifies t
    ensures forall x, y | 0 <= x < t.Length0 && 0 <= y < t.Length1 ::
      t[x, y] == TravelTime(d, net, 1.0, 1.0, outlet, Cell(x, y))
    ensures found ==> d.z.InWindow(best) && value == TravelTime(d, net, 1.0, 1.0, outlet, best) && value != noData
    ensures found ==> forall x, y | 0 <= x < t.Length0 && 0 <= y < t.Length1 ::
      TravelTime(d, net, 1.0, 1.0, outlet, Cell(x, y)) != noData ==> TravelTime(d, net, 1.0, 1.0, outlet, Cell(x, y)) <= value
    ensures !found ==> best == Cell(0, 0) && forall x, y | 0 <= x < t.Length0 && 0 <= y < t.Length1 ::
      TravelTime(d, net, 1.0, 1.0, outlet, Cell(x, y)) == noData
  {
    FromOutlet(d, net, 1.0, 1.0, outlet, t, noData);
    best, value, found := HighestCell(t, noData);
  }

  /**
   * `processAlgorithm`: a zero-filled raster, a first pass with unit speed
   * and ratio to find the highest cell, then the travel times again with
   * the speed the time-of-concentration formula `speedOf` derives from that
   * cell and its time, and the speed ratio off the network.  The raster's
   * no-data value is then 0.
   */
  method TimeToOutlet(d: Dem, net: Option<Layer<real>>, ratio: real, outlet: Cell,
                      speedOf: (Cell, real) -> real, noData: real)
    returns (t: array2<real>, speed: real)
    requires forall c: Cell, v: real :: speedOf(c, v) > 0.0
    ensures fresh(t) && Shaped(t, d) && speed > 0.0
    ensures forall x, y | 0 <= x < t.Length0 && 0 <= y < t.Length1 ::
      t[x, y] == TravelTime(d, net, speed, ratio, outlet, Cell(x, y))
  {
    t := new real[d.z.nx, d.z.ny]((x, y) => 0.0);
    var best, value, found := TimeOfConcentrationCell(d, net, outlet, t, noData);
    speed := speedOf(best, if found then value else NegInfinity);
    CalculateTimeOut(d, net, speed, ratio, outlet, t, noData);
  }

  /** Stands for the value of the highest cell before any cell was found, negative infinity. */
  const NegInfinity := -1.0e308
}
