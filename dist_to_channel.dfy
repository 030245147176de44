/**
 * Distance to the channel network: the length of the D8 flow path from a
 * cell down to the first channel cell it meets, computed by a wavefront
 * that grows upslope from the channel cells one ring of drainers at a time.
 * Cells whose flow path never meets the network keep the no-data value -1.
 */
module DistToChannelNetwork {
  import opened Grid
  import opened Drainage
  import opened WatershedDirections

  /** The no-data value of the distance raster, which it starts filled with. */
  const NoDist := -1.0

  /** How many D8 steps a cell is from the network, and how long that way is. */
  datatype Route = Route(steps: nat, length: real)

  /**
   * The way from `a` along its D8 flow path to the first channel cell on it
   * (`a` itself when it is one), or None when the path ends off the network.
   */
  function ToChannel(d: Dem, net: Layer<int>, a: Cell): Option<Route>
    decreases Depth(d, a)
  {
    if IsRiver(net, net.Get(a)) then Some(Route(0, 0.0))
    else if Dir(d, a) < 0 then None
    else
      DirDescends(d, a);
      Extend(ToChannel(d, net, Next(d, a)), Dist(d, Dir(d, a)))
  }

  /** A way to the network one step longer, the step being `len` long. */
  function Extend(rt: Option<Route>, len: real): Option<Route>
  {
    match rt
    case None => None
    case Some(r) => Some(Route(r.steps + 1, r.length + len))
  }

  /** The way to the network is found exactly when the flow path meets a channel cell. */
  lemma {:induction false} MeetsNetwork(d: Dem, net: Layer<int>, a: Cell)
    ensures ToChannel(d, net, a).Some? <==> exists c :: Reaches(d, a, c) && IsRiver(net, net.Get(c))
    decreases Depth(d, a)
  {
    if IsRiver(net, net.Get(a)) {
      assert Reaches(d, a, a);
    } else if Dir(d, a) >= 0 {
      DirDescends(d, a);
      MeetsNetwork(d, net, Next(d, a));
      if exists c :: Reaches(d, a, c) && IsRiver(net, net.Get(c)) {
        var c :| Reaches(d, a, c) && IsRiver(net, net.Get(c));
        assert Reaches(d, Next(d, a), c);
      }
    } else {
      forall c | Reaches(d, a, c)
        ensures !IsRiver(net, net.Get(c))
      {
      }
    }
  }

  /**
   * Distances are non-negative, zero exactly on the network, and strictly
   * longer by one step's length than that of the next cell down.
   */
  lemma {:induction false} RouteShape(d: Dem, net: Layer<int>, a: Cell)
    requires ToChannel(d, net, a).Some?
    ensures var r := ToChannel(d, net, a).value;
      && r.length >= 0.0
      && (r.steps == 0 <==> IsRiver(net, net.Get(a)))
      && (r.steps == 0 <==> r.length == 0.0)
      && (r.steps > 0 ==>
            && Dir(d, a) >= 0 && ToChannel(d, net, Next(d, a)).Some?
            && ToChannel(d, net, Next(d, a)).value.steps + 1 == r.steps
            && ToChannel(d, net, Next(d, a)).value.length < r.length)
    decreases Depth(d, a)
  {
    if !IsRiver(net, net.Get(a)) {
      DirDescends(d, a);
      RouteShape(d, net, Next(d, a));
    }
  }

  /** The neighbour distance is the same in both directions of a step. */
  lemma DistOpposite(d: Dem, i: int)
    requires 0 <= i < 8
    ensures Dist(d, (i + 4) % 8) == Dist(d, i)
  {
  }

  /**
   * A cell draining into `p` is on the network, or one step further from it
   * than `p`, the step being as long as the neighbour distance seen from `p`.
   */
  lemma RouteStep(d: Dem, net: Layer<int>, p: Cell, i: int)
    requires 0 <= i < 8 && Drains(d, p, i) && ToChannel(d, net, p).Some?
    ensures ToChannel(d, net, Neighbour(p, i)) ==
      if IsRiver(net, net.Get(Neighbour(p, i))) then Some(Route(0, 0.0)) else Extend(ToChannel(d, net, p), Dist(d, i))
  {
    var nb := Neighbour(p, i);
    OppositeNeighbour(p, i);
    DistOpposite(d, i);
    if !IsRiver(net, net.Get(nb)) {
      assert Dir(d, nb) == (i + 4) % 8 && Next(d, nb) == p;
      assert ToChannel(d, net, nb) == Extend(ToChannel(d, net, p), Dist(d, i));
    }
  }

  /** Some cell of the window is exactly `k` steps from the network when a cell of it is `k` or more. */
  lemma {:induction false} RingBelow(d: Dem, net: Layer<int>, a: Cell, k: nat)
    requires d.z.InWindow(a) && ToChannel(d, net, a).Some? && k <= ToChannel(d, net, a).value.steps
    ensures exists b :: d.z.InWindow(b) && ToChannel(d, net, b).Some? && ToChannel(d, net, b).value.steps == k
    decreases Depth(d, a)
  {
    RouteShape(d, net, a);
    if k < ToChannel(d, net, a).value.steps {
      DirDescends(d, a);
      RingBelow(d, net, Next(d, a), k);
    }
  }

  /**
   * What the distance raster holds for a cell whose way to the network is
   * `rt`: its length once the wavefront has been `k` rounds, or one round
   * more when `extra` says the cell's successor has already been expanded.
   */
  function Recorded(rt: Option<Route>, k: int, extra: bool): real
  {
    match rt
    case None => NoDist
    case Some(r) => if r.steps <= k || (r.steps == k + 1 && extra) then r.length else NoDist
  }

  /**
   * The successor of `a` is among the first `t` cells of the frontier, or is
   * cell `t` and `a` is one of its first `i` neighbours.
   */
  predicate FedBy(d: Dem, a: Cell, front: seq<Cell>, t: int, i: int)
    requires 0 <= t <= |front|
  {
    Dir(d, a) >= 0 && (Next(d, a) in front[..t] || (t < |front| && Next(d, a) == front[t] && (Dir(d, a) + 4) % 8 < i))
  }

  /** The distance raster after `k` whole rounds of the wavefront. */
  ghost predicate Level(d: Dem, net: Layer<int>, dist: array2<real>, k: int)
    reads dist
  {
    Shaped(dist, d) && forall x, y | 0 <= x < d.z.nx && 0 <= y < d.z.ny ::
      dist[x, y] == Recorded(ToChannel(d, net, Cell(x, y)), k, false)
  }

  /** The distance raster part-way through round `k`, at neighbour `i` of frontier cell `t`. */
  ghost predicate Partial(d: Dem, net: Layer<int>, dist: array2<real>, k: int, front: seq<Cell>, t: int, i: int)
    requires 0 <= t <= |front|
    reads dist
  {
    Shaped(dist, d) && forall x, y | 0 <= x < d.z.nx && 0 <= y < d.z.ny ::
      dist[x, y] == Recorded(ToChannel(d, net, Cell(x, y)), k, FedBy(d, Cell(x, y), front, t, i))
  }

  /** The frontier of round `k`: exactly the cells of the window `k` steps from the network. */
  ghost predicate Ring(d: Dem, net: Layer<int>, front: seq<Cell>, k: int)
  {
    forall a :: a in front <==> d.z.InWindow(a) && ToChannel(d, net, a).Some? && ToChannel(d, net, a).value.steps == k
  }

  /** The cells of the window not yet reached after `k` rounds. */
  ghost function Unreached(d: Dem, net: Layer<int>, k: int): set<Cell>
  {
    set x, y | 0 <= x < d.z.nx && 0 <= y < d.z.ny && Recorded(ToChannel(d, net, Cell(x, y)), k, false) == NoDist :: Cell(x, y)
  }

  /**
   * A value the wavefront has set is a non-negative distance and stays as it
   * is in every later round.
   */
  lemma Settled(d: Dem, net: Layer<int>, a: Cell, k: int, later: int)
    requires k <= later
    ensures var v := Recorded(ToChannel(d, net, a), k, false);
      v != NoDist ==> v >= 0.0 && Recorded(ToChannel(d, net, a), later, false) == v
  {
    if ToChannel(d, net, a).Some? {
      RouteShape(d, net, a);
    }
  }

  /** The value of the distance raster once the wavefront has died out. */
  function Distance(d: Dem, net: Layer<int>, a: Cell): real
  {
    match ToChannel(d, net, a)
    case None => NoDist
    case Some(r) => r.length
  }

  /**
   * `prepareInitData`'s channel list for cell `c`: the cell itself when it
   * holds a channel value, nothing otherwise.
   */
  function ChannelAt(net: Layer<int>): Cell -> seq<Cell>
  {
    (c: Cell) => if IsRiver(net, net.Get(c)) then [c] else []
  }

  /**
   * `prepareInitData`: one row-by-row pass that stores the reversed
   * directions, sets the channel cells' distance to 0 and lists them, in
   * scan order, as the first frontier.
   */
  method PrepareInitData(d: Dem, net: Layer<int>) returns (dirs: array2<int>, dist: array2<real>, front: seq<Cell>)
    ensures fresh(dirs) && fresh(dist) && DirsOk(d, dirs) && Level(d, net, dist, 0)
    ensures front == ScanCat(ChannelAt(net), d.z.nx, d.z.ny) && Ring(d, net, front, 0)
  {
    dirs := new int[d.z.nx, d.z.ny];
    dist := new real[d.z.nx, d.z.ny]((x, y) => NoDist);
    front := PrepareRows(d, net, dirs, dist);
    StartLevel(d, net, dist);
    StartRing(d, net, front);
  }

  /** The outer loop of `prepareInitData`, row by row. */
  method PrepareRows(d: Dem, net: Layer<int>, dirs: array2<int>, dist: array2<real>) returns (front: seq<Cell>)
    requires Shaped(dirs, d) && Shaped(dist, d) && Initialised(d, net, dirs, dist, 0, 0)
    modifies dirs, dist
    ensures Initialised(d, net, dirs, dist, 0, d.z.ny)
    ensures front == ScanCat(ChannelAt(net), d.z.nx, d.z.ny)
  {
    front := [];
    for y := 0 to d.z.ny
      invariant Initialised(d, net, dirs, dist, 0, y)
      invariant front == ScanCat(ChannelAt(net), d.z.nx, y)
    {
      front := PrepareRow(d, net, dirs, dist, y, front);
    }
  }

  /** Cell (`i`, `j`) comes before column `x` of row `y` in the row-by-row scan. */
  predicate ScannedBefore(i: int, j: int, x: int, y: int)
  {
    j < y || (j == y && i < x)
  }

  /**
   * The rasters of `prepareInitData` once the scan reaches column `x` of
   * row `y`: the scanned cells hold their reversed direction, and distance
   * 0 exactly on the scanned channel cells.
   */
  ghost predicate Initialised(d: Dem, net: Layer<int>, dirs: array2<int>, dist: array2<real>, x: int, y: int)
    requires Shaped(dirs, d) && Shaped(dist, d)
    reads dirs, dist
  {
    && (forall i, j | 0 <= i < d.z.nx && 0 <= j < d.z.ny && ScannedBefore(i, j, x, y) ::
         dirs[i, j] == StoredDir(d, Cell(i, j)))
    && (forall i, j | 0 <= i < d.z.nx && 0 <= j < d.z.ny ::
         dist[i, j] == if ScannedBefore(i, j, x, y) && IsRiver(net, net.Get(Cell(i, j))) then 0.0 else NoDist)
  }

  /** Distance 0 on the channel cells and no-data elsewhere is the raster after no rounds. */
  lemma StartLevel(d: Dem, net: Layer<int>, dist: array2<real>)
    requires Shaped(dist, d)
    requires forall i, j | 0 <= i < d.z.nx && 0 <= j < d.z.ny ::
      dist[i, j] == if ScannedBefore(i, j, 0, d.z.ny) && IsRiver(net, net.Get(Cell(i, j))) then 0.0 else NoDist
    ensures Level(d, net, dist, 0)
  {
    forall x, y | 0 <= x < d.z.nx && 0 <= y < d.z.ny
      ensures dist[x, y] == Recorded(ToChannel(d, net, Cell(x, y)), 0, false)
    {
      if ToChannel(d, net, Cell(x, y)).Some? {
        RouteShape(d, net, Cell(x, y));
      }
    }
  }

  /** The channel cells in scan order are the frontier of round 0. */
  lemma StartRing(d: Dem, net: Layer<int>, front: seq<Cell>)
    requires front == ScanCat(ChannelAt(net), d.z.nx, d.z.ny)
    ensures Ring(d, net, front, 0)
  {
    forall a
      ensures a in front <==> d.z.InWindow(a) && ToChannel(d, net, a).Some? && ToChannel(d, net, a).value.steps == 0
    {
      ScanCatMembers(ChannelAt(net), d.z.nx, d.z.ny, a);
      if ToChannel(d, net, a).Some? {
        RouteShape(d, net, a);
      }
      if d.z.InWindow(a) && IsRiver(net, net.Get(a)) {
        assert a in ChannelAt(net)(a);
      }
    }
  }

  /** The inner loop of `prepareInitData`: row `y`, column by column. */
  method PrepareRow(d: Dem, net: Layer<int>, dirs: array2<int>, dist: array2<real>, y: int, front: seq<Cell>)
    returns (front': seq<Cell>)
    requires Shaped(dirs, d) && Shaped(dist, d) && 0 <= y < d.z.ny
    requires Initialised(d, net, dirs, dist, 0, y)
    modifies dirs, dist
    ensures Initialised(d, net, dirs, dist, 0, y + 1)
    ensures front' == front + RowCat(ChannelAt(net), y, d.z.nx)
  {
    front' := front;
    for x := 0 to d.z.nx
      invariant Initialised(d, net, dirs, dist, x, y)
      invariant front' == front + RowCat(ChannelAt(net), y, x)
    {
      ghost var listed := ChannelAt(net)(Cell(x, y));
      RowCatStep(ChannelAt(net), y, x, front, listed);
      var channel := InitNext(d, net, dirs, dist, x, y);
      if channel {
        assert listed == [Cell(x, y)];
        front' := front' + [Cell(x, y)];
      } else {
        assert listed == [];
      }
    }
  }

  /** The body of the scan at column `x` of row `y`, extending what has been initialised. */
  method InitNext(d: Dem, net: Layer<int>, dirs: array2<int>, dist: array2<real>, x: int, y: int) returns (channel: bool)
    requires Shaped(dirs, d) && Shaped(dist, d) && 0 <= x < d.z.nx && 0 <= y < d.z.ny
    requires Initialised(d, net, dirs, dist, x, y)
    modifies dirs, dist
    ensures Initialised(d, net, dirs, dist, x + 1, y)
    ensures channel == IsRiver(net, net.Get(Cell(x, y)))
  {
    channel := InitCell(d, net, dirs, dist, Cell(x, y));
  }

  /**
   * The body of `prepareInitData` for one cell: its reversed direction, and
   * distance 0 when it is a channel cell, which the result reports.
   */
  method InitCell(d: Dem, net: Layer<int>, dirs: array2<int>, dist: array2<real>, c: Cell) returns (channel: bool)
    requires Shaped(dirs, d) && Shaped(dist, d) && d.z.InWindow(c)
    modifies dirs, dist
    ensures channel == IsRiver(net, net.Get(c))
    ensures forall i, j | 0 <= i < d.z.nx && 0 <= j < d.z.ny ::
      dirs[i, j] == if Cell(i, j) == c then StoredDir(d, c) else old(dirs[i, j])
    ensures forall i, j | 0 <= i < d.z.nx && 0 <= j < d.z.ny ::
      dist[i, j] == if Cell(i, j) == c && channel then 0.0 else old(dist[i, j])
  {
    var dir := Dir(d, c);
    var value := net.Get(c);
    if dir < 0 {
      dirs[c.x, c.y] := -1;
    } else {
      dirs[c.x, c.y] := (dir + 4) % 8;
    }
    channel := value != 0 && !net.IsNoData(value);
    if channel {
      dist[c.x, c.y] := 0.0;
    }
  }

  /** The frontier built so far in round `k`: the cells fed by the part of `front` already expanded. */
  ghost predicate Grown(d: Dem, net: Layer<int>, adj: seq<Cell>, k: int, front: seq<Cell>, t: int, i: int)
    requires 0 <= t <= |front|
  {
    forall a :: a in adj <==>
      d.z.InWindow(a) && ToChannel(d, net, a).Some? && ToChannel(d, net, a).value.steps == k + 1 && FedBy(d, a, front, t, i)
  }

  /** Looking at neighbour `i` of frontier cell `t` feeds exactly that neighbour, when it drains there. */
  lemma FedStep(d: Dem, front: seq<Cell>, t: int, i: int, a: Cell)
    requires 0 <= t < |front| && 0 <= i < 8
    ensures FedBy(d, a, front, t, i + 1) <==> FedBy(d, a, front, t, i) || (a == Neighbour(front[t], i) && Drains(d, front[t], i))
  {
    OppositeNeighbour(front[t], i);
    if Dir(d, a) >= 0 {
      OppositeNeighbour(a, Dir(d, a));
      OppositeTwice(Dir(d, a));
      if a == Neighbour(front[t], i) && Drains(d, front[t], i) {
        assert Dir(d, a) == (i + 4) % 8;
      }
    }
  }

  /** Having looked at all eight neighbours of cell `t` is having expanded the first `t + 1` cells. */
  lemma FedNext(d: Dem, front: seq<Cell>, t: int, a: Cell)
    requires 0 <= t < |front|
    ensures FedBy(d, a, front, t, 8) <==> FedBy(d, a, front, t + 1, 0)
  {
    assert front[..t + 1] == front[..t] + [front[t]];
    if Dir(d, a) >= 0 {
      assert 0 <= (Dir(d, a) + 4) % 8 < 8;
    }
  }

  /**
   * The test of `calculateDistance` at neighbour `i` of frontier cell `p`:
   * with `cur` the neighbour's current value and `base` that of `p`, the
   * neighbour is written exactly when it is one step further from the
   * network than `p` and not yet fed, and then with its own distance.
   */
  lemma RelaxCell(d: Dem, net: Layer<int>, front: seq<Cell>, k: int, t: int, i: int, cur: real, base: real)
    requires 0 <= t < |front| && 0 <= i < 8 && Drains(d, front[t], i)
    requires Ring(d, net, front, k)
    requires base == Recorded(ToChannel(d, net, front[t]), k, FedBy(d, front[t], front, t, i))
    requires cur == Recorded(ToChannel(d, net, Neighbour(front[t], i)), k, FedBy(d, Neighbour(front[t], i), front, t, i))
    ensures var nb := Neighbour(front[t], i);
      var acc := base + Dist(d, i);
      && ToChannel(d, net, nb).Some?
      && ((cur == NoDist || cur > acc) ==>
            && Recorded(ToChannel(d, net, nb), k, true) == acc
            && ToChannel(d, net, nb).value.steps == k + 1 && !FedBy(d, nb, front, t, i))
      && (!(cur == NoDist || cur > acc) ==>
            && Recorded(ToChannel(d, net, nb), k, true) == cur
            && (ToChannel(d, net, nb).value.steps == k + 1 ==> FedBy(d, nb, front, t, i)))
  {
    var p := front[t];
    assert p in front;
    RouteShape(d, net, p);
    RouteStep(d, net, p, i);
    RouteShape(d, net, Neighbour(p, i));
  }

  /**
   * The inner loop of `calculateDistance` at direction `i` of frontier cell
   * `t`, whose distance is `base`: a neighbour whose stored direction is `i`
   * gets `base` plus the step when it has none yet or a larger one, and
   * then joins the next frontier.
   */
  method Relax(d: Dem, net: Layer<int>, dirs: array2<int>, dist: array2<real>, front: seq<Cell>, k: int, t: int, i: int,
               base: real, adj: seq<Cell>) returns (adj': seq<Cell>)
    requires DirsOk(d, dirs) && Ring(d, net, front, k) && 0 <= t < |front| && 0 <= i < 8
    requires Partial(d, net, dist, k, front, t, i) && Grown(d, net, adj, k, front, t, i)
    requires base == Recorded(ToChannel(d, net, front[t]), k, FedBy(d, front[t], front, t, i))
    modifies dist
    ensures Partial(d, net, dist, k, front, t, i + 1) && Grown(d, net, adj', k, front, t, i + 1)
  {
    StoredDrains(d, dirs, front[t], i);
    if ReadInt(dirs, Neighbour(front[t], i), DirNoData) == i {
      adj' := RelaxDrained(d, net, dist, front, k, t, i, base, adj);
    } else {
      adj' := adj;
      forall x, y | 0 <= x < d.z.nx && 0 <= y < d.z.ny
        ensures dist[x, y] == Recorded(ToChannel(d, net, Cell(x, y)), k, FedBy(d, Cell(x, y), front, t, i + 1))
      {
        FedStep(d, front, t, i, Cell(x, y));
      }
      GrownStep(d, net, adj, adj', k, front, t, i);
    }
  }

  /** `Relax` at a neighbour that drains into frontier cell `t`: the shorter distance is kept. */
  method RelaxDrained(d: Dem, net: Layer<int>, dist: array2<real>, front: seq<Cell>, k: int, t: int, i: int,
                      base: real, adj: seq<Cell>) returns (adj': seq<Cell>)
    requires Ring(d, net, front, k) && 0 <= t < |front| && 0 <= i < 8 && Drains(d, front[t], i)
    requires Partial(d, net, dist, k, front, t, i) && Grown(d, net, adj, k, front, t, i)
    requires base == Recorded(ToChannel(d, net, front[t]), k, FedBy(d, front[t], front, t, i))
    modifies dist
    ensures Partial(d, net, dist, k, front, t, i + 1) && Grown(d, net, adj', k, front, t, i + 1)
  {
    adj' := adj;
    var nb := Neighbour(front[t], i);
    DrainsUphill(d, front[t], i);
    var accDist := base + Dist(d, i);
    var cur := ReadReal(dist, nb, NoDist);
    assert cur == dist[nb.x, nb.y];
    RelaxCell(d, net, front, k, t, i, cur, base);
    if cur == NoDist || cur > accDist {
      dist[nb.x, nb.y] := accDist;
      adj' := adj' + [nb];
    }
    forall x, y | 0 <= x < d.z.nx && 0 <= y < d.z.ny
      ensures dist[x, y] == Recorded(ToChannel(d, net, Cell(x, y)), k, FedBy(d, Cell(x, y), front, t, i + 1))
    {
      FedStep(d, front, t, i, Cell(x, y));
    }
    GrownStep(d, net, adj, adj', k, front, t, i);
  }

  /** The next frontier after neighbour `i` of cell `t`: the neighbour joins it exactly when it was written. */
  lemma GrownStep(d: Dem, net: Layer<int>, adj: seq<Cell>, adj': seq<Cell>, k: int, front: seq<Cell>, t: int, i: int)
    requires 0 <= t < |front| && 0 <= i < 8 && Grown(d, net, adj, k, front, t, i)
    requires var nb := Neighbour(front[t], i);
      || (adj' == adj && !Drains(d, front[t], i))
      || (adj' == adj && Drains(d, front[t], i) && ToChannel(d, net, nb).Some?
          && (ToChannel(d, net, nb).value.steps == k + 1 ==> FedBy(d, nb, front, t, i)))
      || (adj' == adj + [nb] && d.z.InWindow(nb) && Drains(d, front[t], i) && ToChannel(d, net, nb).Some?
          && ToChannel(d, net, nb).value.steps == k + 1)
    ensures Grown(d, net, adj', k, front, t, i + 1)
  {
    forall a
      ensures a in adj' <==>
        d.z.InWindow(a) && ToChannel(d, net, a).Some? && ToChannel(d, net, a).value.steps == k + 1 && FedBy(d, a, front, t, i + 1)
    {
      FedStep(d, front, t, i, a);
    }
  }

  /** The body of `calculateDistance`'s frontier loop for cell `t`: its eight neighbours in turn. */
  method Expand(d: Dem, net: Layer<int>, dirs: array2<int>, dist: array2<real>, front: seq<Cell>, k: int, t: int,
                adj: seq<Cell>) returns (adj': seq<Cell>)
    requires DirsOk(d, dirs) && Ring(d, net, front, k) && 0 <= t < |front|
    requires Partial(d, net, dist, k, front, t, 0) && Grown(d, net, adj, k, front, t, 0)
    modifies dist
    ensures Partial(d, net, dist, k, front, t + 1, 0) && Grown(d, net, adj', k, front, t + 1, 0)
  {
    var p := front[t];
    assert p in front;
    var base := ReadReal(dist, p, NoDist);
    assert base == dist[p.x, p.y];
    adj' := adj;
    for i := 0 to 8
      invariant Partial(d, net, dist, k, front, t, i) && Grown(d, net, adj', k, front, t, i)
      invariant base == Recorded(ToChannel(d, net, p), k, FedBy(d, p, front, t, i))
    {
      adj' := Relax(d, net, dirs, dist, front, k, t, i, base, adj');
      FedStep(d, front, t, i, p);
    }
    NextCell(d, net, dist, adj', k, front, t);
  }

  /** Done with the neighbours of cell `t` is done with cell `t`. */
  lemma NextCell(d: Dem, net: Layer<int>, dist: array2<real>, adj: seq<Cell>, k: int, front: seq<Cell>, t: int)
    requires 0 <= t < |front|
    requires Partial(d, net, dist, k, front, t, 8) && Grown(d, net, adj, k, front, t, 8)
    ensures Partial(d, net, dist, k, front, t + 1, 0) && Grown(d, net, adj, k, front, t + 1, 0)
  {
    forall x, y | 0 <= x < d.z.nx && 0 <= y < d.z.ny
      ensures dist[x, y] == Recorded(ToChannel(d, net, Cell(x, y)), k, FedBy(d, Cell(x, y), front, t + 1, 0))
    {
      FedNext(d, front, t, Cell(x, y));
    }
    forall a {
      FedNext(d, front, t, a);
    }
  }

  /**
   * One round of `calculateDistance`: every cell draining into a cell of the
   * frontier gets its distance, and those cells are the next frontier.
   */
  method Round(d: Dem, net: Layer<int>, dirs: array2<int>, dist: array2<real>, front: seq<Cell>, k: nat)
    returns (adj: seq<Cell>)
    requires DirsOk(d, dirs) && Level(d, net, dist, k) && Ring(d, net, front, k)
    modifies dist
    ensures Level(d, net, dist, k + 1) && Ring(d, net, adj, k + 1)
  {
    adj := [];
    RoundStart(d, net, dist, k, front);
    for t := 0 to |front|
      invariant Partial(d, net, dist, k, front, t, 0) && Grown(d, net, adj, k, front, t, 0)
    {
      adj := Expand(d, net, dirs, dist, front, k, t, adj);
    }
    RoundEnd(d, net, dist, adj, k, front);
  }

  /** A cell fed by no expanded cell holds its value of the previous round. */
  lemma RoundStart(d: Dem, net: Layer<int>, dist: array2<real>, k: int, front: seq<Cell>)
    requires Level(d, net, dist, k)
    ensures Partial(d, net, dist, k, front, 0, 0) && Grown(d, net, [], k, front, 0, 0)
  {
  }

  /**
   * Having expanded the whole frontier of round `k` is being at round `k + 1`,
   * since the successor of a cell `k + 1` steps from the network is `k` steps away.
   */
  lemma RoundEnd(d: Dem, net: Layer<int>, dist: array2<real>, adj: seq<Cell>, k: nat, front: seq<Cell>)
    requires Ring(d, net, front, k)
    requires Partial(d, net, dist, k, front, |front|, 0) && Grown(d, net, adj, k, front, |front|, 0)
    ensures Level(d, net, dist, k + 1) && Ring(d, net, adj, k + 1)
  {
    assert front[..|front|] == front;
    forall a | d.z.InWindow(a) && ToChannel(d, net, a).Some? && ToChannel(d, net, a).value.steps == k + 1
      ensures FedBy(d, a, front, |front|, 0)
    {
      RouteShape(d, net, a);
      DirDescends(d, a);
      assert d.z.Valid(Next(d, a));
    }
    forall x, y | 0 <= x < d.z.nx && 0 <= y < d.z.ny
      ensures dist[x, y] == Recorded(ToChannel(d, net, Cell(x, y)), k + 1, false)
    {
      assert dist[x, y] == Recorded(ToChannel(d, net, Cell(x, y)), k, FedBy(d, Cell(x, y), front, |front|, 0));
    }
  }

  /** A round that grows a frontier reaches at least one more cell. */
  lemma RoundProgress(d: Dem, net: Layer<int>, k: nat, adj: seq<Cell>)
    requires Ring(d, net, adj, k + 1)
    ensures |Unreached(d, net, k + 1)| + (if |adj| > 0 then 1 else 0) <= |Unreached(d, net, k)|
  {
    var before := Unreached(d, net, k);
    var after := Unreached(d, net, k + 1);
    forall a | a in after
      ensures a in before
    {
      if ToChannel(d, net, a).Some? {
        RouteShape(d, net, a);
      }
    }
    assert before == after + (before - after);
    if |adj| > 0 {
      var a := adj[0];
      assert a in adj;
      RouteShape(d, net, a);
      assert a == Cell(a.x, a.y);
      assert a in before - after;
    }
  }

  /** Once no cell is `k` steps from the network, every cell that reaches it is recorded. */
  lemma Finished(d: Dem, net: Layer<int>, dist: array2<real>, k: nat)
    requires Level(d, net, dist, k) && Ring(d, net, [], k)
    ensures forall x, y | 0 <= x < d.z.nx && 0 <= y < d.z.ny :: dist[x, y] == Distance(d, net, Cell(x, y))
  {
    forall x, y | 0 <= x < d.z.nx && 0 <= y < d.z.ny
      ensures dist[x, y] == Distance(d, net, Cell(x, y))
    {
      var a := Cell(x, y);
      if ToChannel(d, net, a).Some? && ToChannel(d, net, a).value.steps > k {
        RingBelow(d, net, a, k);
        assert false;
      }
    }
  }

  /**
   * `calculateDistance`: rounds of the wavefront until the frontier is empty,
   * or until `cancelled` reports a cancellation after a round.  After
   * `rounds` rounds exactly the cells at most that many steps from the
   * network hold their distance; a run that was not cancelled leaves every
   * cell with its distance, or no-data when its path misses the network.
   */
  method CalculateDistance(d: Dem, net: Layer<int>, dirs: array2<int>, dist: array2<real>, front0: seq<Cell>,
                           cancelled: nat -> bool) returns (complete: bool, rounds: nat)
    requires DirsOk(d, dirs) && Level(d, net, dist, 0) && Ring(d, net, front0, 0)
    modifies dist
    ensures Level(d, net, dist, rounds)
    ensures complete ==> forall x, y | 0 <= x < d.z.nx && 0 <= y < d.z.ny :: dist[x, y] == Distance(d, net, Cell(x, y))
    ensures !complete ==> cancelled(rounds)
  {
    var front := front0;
    rounds := 0;
    while |front| != 0
      invariant Level(d, net, dist, rounds) && Ring(d, net, front, rounds)
      decreases |Unreached(d, net, rounds)| + (if |front| > 0 then 1 else 0)
    {
      var adj := Round(d, net, dirs, dist, front, rounds);
      RoundProgress(d, net, rounds, adj);
      front := adj;
      rounds := rounds + 1;
      if cancelled(rounds) {
        return false, rounds;
      }
    }
    Finished(d, net, dist, rounds);
    complete := true;
  }

  /**
   * `processAlgorithm`: the distance raster starts at no-data, the channel
   * cells at 0, and the wavefront does the rest; the result reports whether
   * the run was left uncancelled.
   */
  method DistToChannel(d: Dem, net: Layer<int>, cancelled: nat -> bool) returns (dist: array2<real>, complete: bool)
    ensures fresh(dist) && Shaped(dist, d)
    ensures complete ==> forall x, y | 0 <= x < d.z.nx && 0 <= y < d.z.ny :: dist[x, y] == Distance(Inner(d), net, Cell(x, y))
  {
    var e := Inner(d);
    var dirs, front;
    dirs, dist, front := PrepareInitData(e, net);
    var rounds;
    complete, rounds := CalculateDistance(e, net, dirs, dist, front, cancelled);
  }
}
