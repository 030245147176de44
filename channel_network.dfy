/**
 * Channel network extraction: channel heads are the cells that meet the
 * threshold criterion and have no criterion-meeting neighbour at least as
 * high; the D8 path down from every head is marked; every marked cell then
 * gets its Strahler order within the network, junctions are listed, and the
 * network is cut into polylines between heads and junctions.
 */
module ChannelNetwork {
  import opened Grid
  import opened Drainage
  import opened Cells

  /** The criteria, as numbered by this algorithm's method parameter. */
  const GreaterThan := 0
  const LowerThan := 1

  /** `meetsChannelConditions`. */
  predicate Meets(m: int, threshold: real, v: real)
  {
    if m == GreaterThan then v > threshold
    else if m == LowerThan then v < threshold
    else false
  }

  // ---------------------------------------------------------------------
  // Channel heads.

  /** Neighbour `i` meets the criterion and is not lower than `c`. */
  predicate Blocks(z: Layer<real>, m: int, threshold: real, t: Layer<real>, c: Cell, i: int)
    requires 0 <= i < 8
  {
    Meets(m, threshold, t.Get(Neighbour(c, i))) && z.Get(Neighbour(c, i)) >= z.Get(c)
  }

  /** `c` starts a channel: it meets the criterion, has an elevation, and no neighbour blocks it. */
  predicate IsHeader(z: Layer<real>, m: int, threshold: real, t: Layer<real>, c: Cell)
  {
    Meets(m, threshold, t.Get(c)) && z.Valid(c) && forall i | 0 <= i < 8 :: !Blocks(z, m, threshold, t, c, i)
  }

  /** The heads of row `y` in columns `0 .. x-1`, left to right, each with its elevation. */
  function RowHeaders(z: Layer<real>, m: int, threshold: real, t: Layer<real>, y: int, x: nat): seq<GridCell>
  {
    if x == 0 then []
    else
      RowHeaders(z, m, threshold, t, y, x - 1) +
      if IsHeader(z, m, threshold, t, Cell(x - 1, y)) then [GridCell(x - 1, y, z.Get(Cell(x - 1, y)))] else []
  }

  /** The heads of rows `0 .. y-1`, in scan order. */
  function HeadersBefore(z: Layer<real>, m: int, threshold: real, t: Layer<real>, y: nat): seq<GridCell>
  {
    if y == 0 then [] else HeadersBefore(z, m, threshold, t, y - 1) + RowHeaders(z, m, threshold, t, y - 1, z.nx)
  }

  /** The test of `getHeaders` on one cell, leaving the neighbour loop at the first blocking neighbour. */
  method HeaderAt(z: Layer<real>, m: int, threshold: real, t: Layer<real>, c: Cell) returns (b: bool)
    ensures b == IsHeader(z, m, threshold, t, c)
  {
    b := false;
    if Meets(m, threshold, t.Get(c)) {
      b := true;
      var h1 := z.Get(c);
      if !z.IsNoData(h1) {
        var i := 0;
        while i < 8
          invariant 0 <= i <= 8
          invariant b && forall j | 0 <= j < i :: !Blocks(z, m, threshold, t, c, j)
        {
          var n := Neighbour(c, i);
          if Meets(m, threshold, t.Get(n)) {
            var h2 := z.Get(n);
            if h2 >= h1 {
              assert Blocks(z, m, threshold, t, c, i);
              b := false;
              break;
            }
          }
          i := i + 1;
        }
      } else {
        b := false;
      }
    }
  }

  /** `getHeaders`: the heads of the window in row order. */
  method GetHeaders(z: Layer<real>, m: int, threshold: real, t: Layer<real>) returns (hs: seq<GridCell>)
    ensures hs == HeadersBefore(z, m, threshold, t, z.ny)
  {
    hs := [];
    for y := 0 to z.ny
      invariant hs == HeadersBefore(z, m, threshold, t, y)
    {
      for x := 0 to z.nx
        invariant hs == HeadersBefore(z, m, threshold, t, y) + RowHeaders(z, m, threshold, t, y, x)
      {
        var b := HeaderAt(z, m, threshold, t, Cell(x, y));
        if b {
          hs := hs + [GridCell(x, y, z.Get(Cell(x, y)))];
        }
      }
    }
  }

  /** A row's list holds exactly the heads of that row to the left of `x`. */
  lemma {:induction false} RowHeadersExact(z: Layer<real>, m: int, threshold: real, t: Layer<real>, y: int, x: nat, g: GridCell)
    ensures g in RowHeaders(z, m, threshold, t, y, x) <==>
      g.y == y && 0 <= g.x < x && IsHeader(z, m, threshold, t, g.Pos()) && g.value == z.Get(g.Pos())
  {
    if x > 0 {
      RowHeadersExact(z, m, threshold, t, y, x - 1, g);
    }
  }

  /** The list of `getHeaders` holds exactly the heads of the window, each with its elevation. */
  lemma {:induction false} HeadersExact(z: Layer<real>, m: int, threshold: real, t: Layer<real>, y: nat, g: GridCell)
    requires y <= z.ny
    ensures g in HeadersBefore(z, m, threshold, t, y) <==>
      0 <= g.x < z.nx && 0 <= g.y < y && IsHeader(z, m, threshold, t, g.Pos()) && g.value == z.Get(g.Pos())
  {
    if y > 0 {
      HeadersExact(z, m, threshold, t, y - 1, g);
      RowHeadersExact(z, m, threshold, t, y - 1, z.nx, g);
    }
  }

  /** Every head lies in the window. */
  lemma HeadersInWindow(z: Layer<real>, m: int, threshold: real, t: Layer<real>)
    ensures forall g | g in HeadersBefore(z, m, threshold, t, z.ny) :: z.InWindow(g.Pos())
  {
    forall g | g in HeadersBefore(z, m, threshold, t, z.ny)
      ensures z.InWindow(g.Pos())
    {
      HeadersExact(z, m, threshold, t, z.ny, g);
    }
  }

  /** No cell is listed twice: the scan visits each cell once. */
  lemma {:induction false} HeadersDistinct(z: Layer<real>, m: int, threshold: real, t: Layer<real>, y: nat)
    requires y <= z.ny
    ensures forall i, j | 0 <= i < j < |HeadersBefore(z, m, threshold, t, y)| ::
      HeadersBefore(z, m, threshold, t, y)[i].Pos() != HeadersBefore(z, m, threshold, t, y)[j].Pos()
  {
    if y > 0 {
      HeadersDistinct(z, m, threshold, t, y - 1);
      var a := HeadersBefore(z, m, threshold, t, y - 1);
      var r := RowHeaders(z, m, threshold, t, y - 1, z.nx);
      RowDistinct(z, m, threshold, t, y - 1, z.nx);
      forall i, j | 0 <= i < |a| && 0 <= j < |r|
        ensures a[i].Pos() != r[j].Pos()
      {
        HeadersExact(z, m, threshold, t, y - 1, a[i]);
        RowHeadersExact(z, m, threshold, t, y - 1, z.nx, r[j]);
      }
      assert forall i | 0 <= i < |a + r| :: (a + r)[i] == if i < |a| then a[i] else r[i - |a|];
    }
  }

  lemma {:induction false} RowDistinct(z: Layer<real>, m: int, threshold: real, t: Layer<real>, y: int, x: nat)
    ensures forall i, j | 0 <= i < j < |RowHeaders(z, m, threshold, t, y, x)| ::
      RowHeaders(z, m, threshold, t, y, x)[i].x < RowHeaders(z, m, threshold, t, y, x)[j].x
  {
    if x > 0 {
      RowDistinct(z, m, threshold, t, y, x - 1);
      var a := RowHeaders(z, m, threshold, t, y, x - 1);
      forall i | 0 <= i < |a|
        ensures a[i].x < x - 1
      {
        RowHeadersExact(z, m, threshold, t, y, x - 1, a[i]);
      }
    }
  }

  // ---------------------------------------------------------------------
  // Tracing.

  /** The cells of the window marked by tracing down from the heads `hs`. */
  ghost predicate OnChannel(d: Dem, hs: seq<GridCell>, b: Cell)
  {
    exists k | 0 <= k < |hs| :: Reaches(d, hs[k].Pos(), b)
  }

  /** `traceChannel`: marks -1 on the D8 path from `c` down to a cell without a direction. */
  method TraceChannel(d: Dem, net: array2<int>, c: Cell)
    requires Shaped(net, d)
    modifies net
    ensures forall i, j | 0 <= i < net.Length0 && 0 <= j < net.Length1 ::
      net[i, j] == if Reaches(d, c, Cell(i, j)) then -1 else old(net[i, j])
  {
    var cur := c;
    var going := true;
    while going
      invariant Reaches(d, c, cur)
      invariant forall i, j | 0 <= i < net.Length0 && 0 <= j < net.Length1 ::
        net[i, j] == if going && Reaches(d, c, Cell(i, j)) && !Reaches(d, cur, Cell(i, j)) then -1
                     else if !going && Reaches(d, c, Cell(i, j)) then -1
                     else old(net[i, j])
      decreases going, Depth(d, cur)
    {
      if 0 <= cur.x < net.Length0 && 0 <= cur.y < net.Length1 {
        net[cur.x, cur.y] := -1;
      }
      var dir := Dir(d, cur);
      if dir >= 0 {
        TraceStep(d, c, cur);
        cur := Neighbour(cur, dir);
      } else {
        TraceEnd(d, c, cur);
        going := false;
      }
    }
  }

  /** One step down: the part of the path still ahead loses exactly the current cell. */
  lemma TraceStep(d: Dem, c: Cell, cur: Cell)
    requires Reaches(d, c, cur) && Dir(d, cur) >= 0
    ensures Reaches(d, c, Next(d, cur))
    ensures Depth(d, Next(d, cur)) < Depth(d, cur)
    ensures forall b :: Reaches(d, cur, b) && b != cur <==> Reaches(d, Next(d, cur), b)
  {
    DirDescends(d, cur);
    ReachesTrans(d, c, cur, Next(d, cur));
    forall b | Reaches(d, Next(d, cur), b)
      ensures b != cur
    {
      if b == cur {
        ReachesDescends(d, Next(d, cur), cur);
      }
    }
  }

  /** At a cell without a direction the path ends. */
  lemma TraceEnd(d: Dem, c: Cell, cur: Cell)
    requires Reaches(d, c, cur) && Dir(d, cur) < 0
    ensures forall b :: Reaches(d, cur, b) <==> b == cur
  {
  }

  /** The tracing loop of `calculateChannelNetwork`, over the heads in the given order. */
  method TraceAll(d: Dem, net: array2<int>, hs: seq<GridCell>)
    requires Shaped(net, d)
    modifies net
    ensures forall i, j | 0 <= i < net.Length0 && 0 <= j < net.Length1 ::
      net[i, j] == if OnChannel(d, hs, Cell(i, j)) then -1 else old(net[i, j])
  {
    for k := 0 to |hs|
      invariant forall i, j | 0 <= i < net.Length0 && 0 <= j < net.Length1 ::
        net[i, j] == if OnChannel(d, hs[..k], Cell(i, j)) then -1 else old(net[i, j])
    {
      TraceChannel(d, net, hs[k].Pos());
      forall i, j | 0 <= i < net.Length0 && 0 <= j < net.Length1
        ensures OnChannel(d, hs[..k + 1], Cell(i, j)) <==> OnChannel(d, hs[..k], Cell(i, j)) || Reaches(d, hs[k].Pos(), Cell(i, j))
      {
        OnChannelStep(d, hs, k, Cell(i, j));
      }
    }
    assert hs[..|hs|] == hs;
  }

  lemma OnChannelStep(d: Dem, hs: seq<GridCell>, k: int, b: Cell)
    requires 0 <= k < |hs|
    ensures OnChannel(d, hs[..k + 1], b) <==> OnChannel(d, hs[..k], b) || Reaches(d, hs[k].Pos(), b)
  {
    if OnChannel(d, hs[..k + 1], b) {
      var j :| 0 <= j < k + 1 && Reaches(d, hs[..k + 1][j].Pos(), b);
      if j < k {
        assert hs[..k][j] == hs[j];
      }
    }
    if OnChannel(d, hs[..k], b) {
      var j :| 0 <= j < k && Reaches(d, hs[..k][j].Pos(), b);
      assert hs[..k + 1][j] == hs[j];
    }
    if Reaches(d, hs[k].Pos(), b) {
      assert hs[..k + 1][k] == hs[k];
    }
  }

  /** The network is closed downstream: the path out of a marked cell stays marked. */
  lemma ChannelClosed(d: Dem, hs: seq<GridCell>, a: Cell, b: Cell)
    requires OnChannel(d, hs, a) && Reaches(d, a, b)
    ensures OnChannel(d, hs, b)
  {
    var k :| 0 <= k < |hs| && Reaches(d, hs[k].Pos(), a);
    ReachesTrans(d, hs[k].Pos(), a, b);
  }

  // ---------------------------------------------------------------------
  // Orders and junctions.

  /** Neighbour `i` of `c` is a channel cell that drains into `c`. */
  ghost predicate Feeds(d: Dem, hs: seq<GridCell>, c: Cell, i: int)
    requires 0 <= i < 8
  {
    Drains(d, c, i) && ListedAbove(d, hs, Neighbour(c, i), |hs|)
  }

  /** Some head among the first `k` of `hs` reaches `b`: `OnChannel` one head at a time. */
  ghost predicate ListedAbove(d: Dem, hs: seq<GridCell>, b: Cell, k: int)
    requires 0 <= k <= |hs|
  {
    AnyBelow(j => 0 <= j < |hs| && Reaches(d, hs[j].Pos(), b), k)
  }

  /** Some index below `k` satisfies `p`, checked from the top down. */
  predicate AnyBelow(p: int -> bool, k: int)
  {
    k > 0 && (p(k - 1) || AnyBelow(p, k - 1))
  }

  lemma {:induction false} AnyBelowIff(p: int -> bool, k: int)
    ensures AnyBelow(p, k) <==> exists j | 0 <= j < k :: p(j)
  {
    if k > 0 {
      AnyBelowIff(p, k - 1);
      if !p(k - 1) && exists j | 0 <= j < k :: p(j) {
        var j :| 0 <= j < k && p(j);
        assert j < k - 1;
      }
    }
  }

  /** A feeding neighbour is one that drains into `c` and is on the network. */
  lemma FeedsOn(d: Dem, hs: seq<GridCell>, c: Cell, i: int)
    requires 0 <= i < 8
    ensures Feeds(d, hs, c, i) <==> Drains(d, c, i) && OnChannel(d, hs, Neighbour(c, i))
  {
    ListedAboveIff(d, hs, Neighbour(c, i));
  }

  lemma ListedAboveIff(d: Dem, hs: seq<GridCell>, b: Cell)
    ensures ListedAbove(d, hs, b, |hs|) <==> OnChannel(d, hs, b)
  {
    var p := j => 0 <= j < |hs| && Reaches(d, hs[j].Pos(), b);
    assert ListedAbove(d, hs, b, |hs|) == AnyBelow(p, |hs|);
    AnyBelowIff(p, |hs|);
    if OnChannel(d, hs, b) {
      var k :| 0 <= k < |hs| && Reaches(d, hs[k].Pos(), b);
      assert p(k);
    }
    if exists j | 0 <= j < |hs| :: p(j) {
      var k :| 0 <= k < |hs| && p(k);
      assert Reaches(d, hs[k].Pos(), b);
    }
  }

  /** The Strahler order of a cell within the network; 0 off the network. */
  ghost function ChOrder(d: Dem, hs: seq<GridCell>, c: Cell): int
    decreases Height(d, c), 3
  {
    if !OnChannel(d, hs, c) then 0
    else
      var m := ChMax(d, hs, c, 8);
      if ChCount(d, hs, c, 8, m) > 1 then m + 1 else m
  }

  /** The highest order among the feeding channel cells in directions `0 .. k-1`, and at least 1. */
  ghost function ChMax(d: Dem, hs: seq<GridCell>, c: Cell, k: int): (m: int)
    requires 0 <= k <= 8
    ensures m >= 1
    decreases Height(d, c), 2
  {
    TopOf(FeedOrders(d, hs, c), k)
  }

  /** How many feeding channel cells among directions `0 .. k-1` have order `v`. */
  ghost function ChCount(d: Dem, hs: seq<GridCell>, c: Cell, k: int, v: int): nat
    requires 0 <= k <= 8
    decreases Height(d, c), 2
  {
    CountOf(FeedOrders(d, hs, c), k, v)
  }

  /** Per direction, the order of the neighbour when it feeds `c`, and 0 when it does not. */
  ghost function FeedOrders(d: Dem, hs: seq<GridCell>, c: Cell): (os: seq<int>)
    ensures |os| == 8
    decreases Height(d, c), 1
  {
    seq(8, i requires 0 <= i < 8 => if Feeds(d, hs, c, i) then FeedOrder(d, hs, c, i) else 0)
  }

  /** The order of neighbour `i` when it feeds `c`. */
  ghost function FeedOrder(d: Dem, hs: seq<GridCell>, c: Cell, i: int): int
    requires 0 <= i < 8 && Feeds(d, hs, c, i)
    decreases Height(d, c), 0
  {
    DrainsUphill(d, c, i);
    ChOrder(d, hs, Neighbour(c, i))
  }

  /** The largest of 1 and the first `k` entries. */
  function TopOf(os: seq<int>, k: int): (m: int)
    requires 0 <= k <= |os|
    ensures m >= 1
  {
    if k == 0 then 1
    else
      var m := TopOf(os, k - 1);
      if os[k - 1] > m then os[k - 1] else m
  }

  /** How many of the first `k` entries equal `v`. */
  function CountOf(os: seq<int>, k: int, v: int): nat
    requires 0 <= k <= |os|
  {
    if k == 0 then 0 else CountOf(os, k - 1, v) + if os[k - 1] == v then 1 else 0
  }

  /** Every one of the first `k` entries is at most their top. */
  lemma {:induction false} TopOfBound(os: seq<int>, k: int, i: int)
    requires 0 <= i < k <= |os|
    ensures os[i] <= TopOf(os, k)
  {
    if i < k - 1 {
      TopOfBound(os, k - 1, i);
    }
  }

  /** A value above the top of the first `k` entries is not among them. */
  lemma {:induction false} CountAboveTop(os: seq<int>, k: int, v: int)
    requires 0 <= k <= |os| && v > TopOf(os, k)
    ensures CountOf(os, k, v) == 0
  {
    if k > 0 {
      CountAboveTop(os, k - 1, v);
    }
  }

  /** With no positive entry the top is 1 and no entry equals 1. */
  lemma {:induction false} TopOfNonPositive(os: seq<int>, k: int)
    requires 0 <= k <= |os| && forall i | 0 <= i < |os| :: os[i] <= 0
    ensures TopOf(os, k) == 1 && CountOf(os, k, 1) == 0
  {
    if k > 0 {
      TopOfNonPositive(os, k - 1);
    }
  }

  /** How many channel cells among directions `0 .. k-1` feed `c`. */
  ghost function Feeders(d: Dem, hs: seq<GridCell>, c: Cell, k: int): nat
    requires 0 <= k <= 8
  {
    if k == 0 then 0 else Feeders(d, hs, c, k - 1) + if Feeds(d, hs, c, k - 1) then 1 else 0
  }

  /** A junction: a channel cell fed by more than one channel cell. */
  ghost predicate IsJunction(d: Dem, hs: seq<GridCell>, c: Cell)
  {
    OnChannel(d, hs, c) && Feeders(d, hs, c, 8) > 1
  }

  /** Every channel cell has an order of at least 1; every other cell has 0. */
  lemma ChOrderPositive(d: Dem, hs: seq<GridCell>, c: Cell)
    ensures OnChannel(d, hs, c) ==> ChOrder(d, hs, c) >= 1
    ensures !OnChannel(d, hs, c) ==> ChOrder(d, hs, c) == 0
  {
  }

  lemma ChMaxBound(d: Dem, hs: seq<GridCell>, c: Cell, k: int, i: int)
    requires 0 <= i < k <= 8 && Feeds(d, hs, c, i)
    ensures (DrainsUphill(d, c, i); ChOrder(d, hs, Neighbour(c, i)) <= ChMax(d, hs, c, k))
  {
    FeedOrderAt(d, hs, c, i);
    TopOfBound(FeedOrders(d, hs, c), k, i);
  }

  /** Entry `i` of the feeding orders, for a feeding neighbour `i`. */
  lemma FeedOrderAt(d: Dem, hs: seq<GridCell>, c: Cell, i: int)
    requires 0 <= i < 8 && Feeds(d, hs, c, i)
    ensures (DrainsUphill(d, c, i); FeedOrders(d, hs, c)[i] == ChOrder(d, hs, Neighbour(c, i)))
  {
    DrainsUphill(d, c, i);
  }

  /** Entry `i` of the feeding orders, for a neighbour `i` that does not feed `c`. */
  lemma FeedOrderOff(d: Dem, hs: seq<GridCell>, c: Cell, i: int)
    requires 0 <= i < 8 && !Feeds(d, hs, c, i)
    ensures FeedOrders(d, hs, c)[i] == 0
  {
  }

  /** Along the network the order never decreases downstream. */
  lemma ChOrderMonotone(d: Dem, hs: seq<GridCell>, c: Cell, i: int)
    requires 0 <= i < 8 && Feeds(d, hs, c, i)
    ensures ChOrder(d, hs, Neighbour(c, i)) <= ChOrder(d, hs, c)
  {
    DrainsUphill(d, c, i);
    DrainsReaches(d, c, i);
    FeedsOn(d, hs, c, i);
    ChannelClosed(d, hs, Neighbour(c, i), c);
    ChMaxBound(d, hs, c, 8, i);
    ChMaxAtMostOrder(d, hs, c);
  }

  lemma ChMaxAtMostOrder(d: Dem, hs: seq<GridCell>, c: Cell)
    requires OnChannel(d, hs, c)
    ensures ChMax(d, hs, c, 8) <= ChOrder(d, hs, c)
  {
  }

  lemma {:induction false} NoFeeders(d: Dem, hs: seq<GridCell>, c: Cell, k: int)
    requires 0 <= k <= 8 && forall i | 0 <= i < 8 :: !Feeds(d, hs, c, i)
    ensures ChMax(d, hs, c, k) == 1 && ChCount(d, hs, c, k, 1) == 0 && Feeders(d, hs, c, k) == 0
  {
    TopOfNonPositive(FeedOrders(d, hs, c), k);
    if k > 0 {
      NoFeeders(d, hs, c, k - 1);
    }
  }

  /** A channel cell that no channel cell feeds (a head, typically) has order 1 and is no junction. */
  lemma ChSource(d: Dem, hs: seq<GridCell>, c: Cell)
    requires OnChannel(d, hs, c) && forall i | 0 <= i < 8 :: !Feeds(d, hs, c, i)
    ensures ChOrder(d, hs, c) == 1 && !IsJunction(d, hs, c)
  {
    NoFeeders(d, hs, c, 8);
  }

  /** A larger order than any seen so far has not been counted. */
  lemma ChCountAbove(d: Dem, hs: seq<GridCell>, c: Cell, k: int, v: int)
    requires 0 <= k <= 8 && v > ChMax(d, hs, c, k)
    ensures ChCount(d, hs, c, k, v) == 0
  {
    CountAboveTop(FeedOrders(d, hs, c), k, v);
  }

  /** The positions a list of cells holds. */
  function Positions(s: seq<GridCell>): set<Cell>
  {
    set g | g in s :: g.Pos()
  }

  /**
   * The network entry of a cell: a channel cell holds its order once it is
   * settled (in `fin`) and the pending mark -1 before; any other cell holds 0.
   */
  ghost predicate Known(d: Dem, hs: seq<GridCell>, net: array2<int>, fin: set<Cell>, x: int, y: int)
    requires 0 <= x < net.Length0 && 0 <= y < net.Length1
    reads net
  {
    if !OnChannel(d, hs, Cell(x, y)) then net[x, y] == 0 && Cell(x, y) !in fin
    else if Cell(x, y) in fin then net[x, y] == ChOrder(d, hs, Cell(x, y))
    else net[x, y] == -1
  }

  ghost predicate AllKnown(d: Dem, hs: seq<GridCell>, net: array2<int>, fin: set<Cell>)
    reads net
  {
    forall x, y | 0 <= x < net.Length0 && 0 <= y < net.Length1 :: Known(d, hs, net, fin, x, y)
  }

  /**
   * The part of the list from `base` on holds every settled junction, once
   * each (as many entries as junctions), with its elevation, and nothing else.
   */
  ghost predicate ListOk(d: Dem, J: set<Cell>, list: seq<GridCell>, base: int, fin: set<Cell>)
  {
    && 0 <= base <= |list|
    && Positions(list[base..]) == fin * J
    && NoRepeats(list[base..])
    && forall k | base <= k < |list| :: list[k].value == d.z.Get(list[k].Pos())
  }

  /** Cells still pending or lying above height `h` keep their value. */
  twostate predicate Kept(d: Dem, net: array2<int>, h: int)
    reads net
  {
    forall x, y | 0 <= x < net.Length0 && 0 <= y < net.Length1 ::
      old(net[x, y]) != -1 || Height(d, Cell(x, y)) > h ==> net[x, y] == old(net[x, y])
  }

  /** `list'` is `list` with entries appended. */
  predicate Extends(list: seq<GridCell>, list': seq<GridCell>)
  {
    |list| <= |list'| && list'[..|list|] == list
  }

  /** The junctions of the window. */
  ghost function Junctions(d: Dem, hs: seq<GridCell>): set<Cell>
  {
    set x, y | 0 <= x < d.z.nx && 0 <= y < d.z.ny && IsJunction(d, hs, Cell(x, y)) :: Cell(x, y)
  }

  /**
   * `getStrahlerOrder`: a pending channel cell gets its order, computed from
   * the feeding channel cells (pending ones first get theirs); it is listed
   * when more than one channel cell feeds it.  Any other cell returns 1.
   */
  method GetChOrder(d: Dem, ghost hs: seq<GridCell>, ghost J: set<Cell>, ghost base: int, net: array2<int>, list: seq<GridCell>,
                    ghost fin: set<Cell>, c: Cell)
    returns (list': seq<GridCell>, ghost fin': set<Cell>, order: int)
    requires Shaped(net, d) && J == Junctions(d, hs) && AllKnown(d, hs, net, fin) && ListOk(d, J, list, base, fin)
    modifies net
    ensures AllKnown(d, hs, net, fin') && ListOk(d, J, list', base, fin') && fin <= fin'
    ensures Extends(list, list')
    ensures Kept(d, net, Height(d, c))
    ensures d.z.InWindow(c) && old(net[c.x, c.y]) == -1 ==> net[c.x, c.y] == ChOrder(d, hs, c) && order == ChOrder(d, hs, c)
    decreases Height(d, c), 2
  {
    list', fin' := list, fin;
    order := 1;
    if !(0 <= c.x < net.Length0 && 0 <= c.y < net.Length1) || net[c.x, c.y] != -1 {
      return;
    }
    ChOrderPositive(d, hs, c);
    assert OnChannel(d, hs, c) && c !in fin by {
      assert Known(d, hs, net, fin, c.x, c.y);
    }
    var upCount;
    list', fin', order, upCount := Gather(d, hs, J, base, net, list, fin, c);
    assert c !in fin' by {
      assert Known(d, hs, net, fin', c.x, c.y);
    }
    assert (upCount > 1) == (c in J);
    list', fin' := Settle(d, hs, J, base, net, list', fin', c, order, upCount > 1);
  }

  /** The neighbour loop of `getStrahlerOrder` and the confluence rule after it. */
  method Gather(d: Dem, ghost hs: seq<GridCell>, ghost J: set<Cell>, ghost base: int, net: array2<int>, list: seq<GridCell>,
                ghost fin: set<Cell>, c: Cell)
    returns (list': seq<GridCell>, ghost fin': set<Cell>, order: int, upCount: int)
    requires Shaped(net, d) && J == Junctions(d, hs) && d.z.InWindow(c) && net[c.x, c.y] == -1 && OnChannel(d, hs, c)
    requires AllKnown(d, hs, net, fin) && ListOk(d, J, list, base, fin)
    modifies net
    ensures order == ChOrder(d, hs, c) && upCount == Feeders(d, hs, c, 8)
    ensures AllKnown(d, hs, net, fin') && ListOk(d, J, list', base, fin') && fin <= fin'
    ensures Extends(list, list')
    ensures Kept(d, net, Height(d, c) - 1)
    decreases Height(d, c), 1
  {
    list', fin' := list, fin;
    order := 1;
    var maxCells := 0;
    upCount := 0;
    for i := 0 to 8
      invariant order == ChMax(d, hs, c, i) && maxCells == ChCount(d, hs, c, i, order) && upCount == Feeders(d, hs, c, i)
      invariant AllKnown(d, hs, net, fin') && ListOk(d, J, list', base, fin') && fin <= fin'
      invariant Extends(list, list')
      invariant Kept(d, net, Height(d, c) - 1)
    {
      list', fin', order, maxCells, upCount := Visit(d, hs, J, base, net, list', fin', c, i, order, maxCells, upCount);
    }
    if maxCells > 1 {
      order := order + 1;
    }
  }

  /** One neighbour of the loop of `getStrahlerOrder`. */
  method Visit(d: Dem, ghost hs: seq<GridCell>, ghost J: set<Cell>, ghost base: int, net: array2<int>, list: seq<GridCell>,
               ghost fin: set<Cell>, c: Cell, i: int, order: int, maxCells: int, upCount: int)
    returns (list': seq<GridCell>, ghost fin': set<Cell>, order': int, maxCells': int, upCount': int)
    requires Shaped(net, d) && J == Junctions(d, hs) && 0 <= i < 8 && d.z.InWindow(c) && net[c.x, c.y] == -1
    requires AllKnown(d, hs, net, fin) && ListOk(d, J, list, base, fin)
    requires order == ChMax(d, hs, c, i) && maxCells == ChCount(d, hs, c, i, order) && upCount == Feeders(d, hs, c, i)
    modifies net
    ensures order' == ChMax(d, hs, c, i + 1) && maxCells' == ChCount(d, hs, c, i + 1, order') && upCount' == Feeders(d, hs, c, i + 1)
    ensures AllKnown(d, hs, net, fin') && ListOk(d, J, list', base, fin') && fin <= fin'
    ensures Extends(list, list')
    ensures Kept(d, net, Height(d, c) - 1)
    decreases Height(d, c), 0
  {
    list', fin', order', maxCells', upCount' := list, fin, order, maxCells, upCount;
    var n := Neighbour(c, i);
    if Dir(d, n) == (i + 4) % 8 {
      DrainsUphill(d, c, i);
      FeedsOn(d, hs, c, i);
      var v := net[n.x, n.y];
      assert Known(d, hs, net, fin, n.x, n.y);
      if v != 0 {
        FeedOrderAt(d, hs, c, i);
        upCount' := upCount + 1;
        if v == -1 {
          list', fin', v := GetChOrder(d, hs, J, base, net, list, fin, n);
        }
        if v > order {
          ChCountAbove(d, hs, c, i, v);
          order' := v;
          maxCells' := 1;
        } else if v == order {
          maxCells' := maxCells + 1;
        }
      } else {
        ChOrderPositive(d, hs, n);
        FeedOrderOff(d, hs, c, i);
      }
    } else {
      FeedOrderOff(d, hs, c, i);
    }
  }

  /** The end of `getStrahlerOrder`: the junction is listed, then the order is stored. */
  method Settle(d: Dem, ghost hs: seq<GridCell>, ghost J: set<Cell>, ghost base: int, net: array2<int>, list: seq<GridCell>,
                ghost fin: set<Cell>, c: Cell, order: int, junction: bool)
    returns (list': seq<GridCell>, ghost fin': set<Cell>)
    requires Shaped(net, d) && d.z.InWindow(c) && c !in fin
    requires AllKnown(d, hs, net, fin) && ListOk(d, J, list, base, fin)
    requires OnChannel(d, hs, c) && order == ChOrder(d, hs, c) && junction == (c in J)
    modifies net
    ensures AllKnown(d, hs, net, fin') && ListOk(d, J, list', base, fin') && fin' == fin + {c}
    ensures Extends(list, list')
    ensures forall x, y | 0 <= x < net.Length0 && 0 <= y < net.Length1 ::
      net[x, y] == if Cell(x, y) == c then order else old(net[x, y])
  {
    list' := if junction then list + [GridCell(c.x, c.y, d.z.Get(c))] else list;
    fin' := fin + {c};
    assert list'[..|list|] == list;
    label L:
    net[c.x, c.y] := order;
    forall x, y | 0 <= x < net.Length0 && 0 <= y < net.Length1
      ensures Known(d, hs, net, fin', x, y)
    {
      if Cell(x, y) != c {
        assert old@L(Known(d, hs, net, fin, x, y));
      }
    }
    SettleList(d, J, list, base, fin, c, junction, list');
  }

  /** Settling `c` keeps the list in step with the settled junctions. */
  lemma SettleList(d: Dem, J: set<Cell>, list: seq<GridCell>, base: int, fin: set<Cell>, c: Cell,
                   junction: bool, list': seq<GridCell>)
    requires ListOk(d, J, list, base, fin) && c !in fin && junction == (c in J)
    requires list' == if junction then list + [GridCell(c.x, c.y, d.z.Get(c))] else list
    ensures ListOk(d, J, list', base, fin + {c})
  {
    if junction {
      var g := GridCell(c.x, c.y, d.z.Get(c));
      assert list'[base..] == list[base..] + [g];
      assert (list[base..] + [g])[..|list[base..]|] == list[base..];
      PositionsAppend(list[base..], g);
      assert (fin + {c}) * J == fin * J + {c};
    } else {
      assert (fin + {c}) * J == fin * J;
    }
  }

  /** No position occurs twice in the list. */
  ghost predicate NoRepeats(s: seq<GridCell>)
  {
    |s| == 0 || (s[|s| - 1].Pos() !in Positions(s[..|s| - 1]) && NoRepeats(s[..|s| - 1]))
  }

  lemma PositionsAppend(s: seq<GridCell>, g: GridCell)
    ensures Positions(s + [g]) == Positions(s) + {g.Pos()}
  {
    assert forall h | h in s + [g] :: h in s || h == g;
  }

  /** No position listed twice means any two entries are at different cells. */
  lemma {:induction false} NoRepeatsDistinct(s: seq<GridCell>)
    requires NoRepeats(s)
    ensures forall k, l | 0 <= k < l < |s| :: s[k].Pos() != s[l].Pos()
  {
    if |s| > 0 {
      var p := s[..|s| - 1];
      NoRepeatsDistinct(p);
      forall k | 0 <= k < |p|
        ensures p[k].Pos() != s[|s| - 1].Pos()
      {
        assert p[k] in p;
      }
    }
  }

  // ---------------------------------------------------------------------
  // The scan of `calculateOrderAndAddJunctions`.

  /** Every channel cell of the window before column `x` of row `y` is settled. */
  ghost predicate SettledBefore(d: Dem, hs: seq<GridCell>, fin: set<Cell>, x: int, y: int)
  {
    forall a, b | 0 <= a < d.z.nx && 0 <= b < d.z.ny && Before(Cell(a, b), x, y) && OnChannel(d, hs, Cell(a, b)) ::
      Cell(a, b) in fin
  }

  /** One cell of the scan: afterwards it is settled if it lies on the network. */
  method ScanCell(d: Dem, ghost hs: seq<GridCell>, ghost J: set<Cell>, ghost base: int, net: array2<int>, list: seq<GridCell>,
                  ghost fin: set<Cell>, x: int, y: int)
    returns (list': seq<GridCell>, ghost fin': set<Cell>)
    requires Shaped(net, d) && J == Junctions(d, hs) && 0 <= x < net.Length0 && 0 <= y < net.Length1
    requires AllKnown(d, hs, net, fin) && ListOk(d, J, list, base, fin) && SettledBefore(d, hs, fin, x, y)
    modifies net
    ensures AllKnown(d, hs, net, fin') && ListOk(d, J, list', base, fin') && SettledBefore(d, hs, fin', x + 1, y)
    ensures Extends(list, list')
  {
    assert Known(d, hs, net, fin, x, y);
    var order;
    list', fin', order := GetChOrder(d, hs, J, base, net, list, fin, Cell(x, y));
    assert Known(d, hs, net, fin', x, y);
    if OnChannel(d, hs, Cell(x, y)) {
      ChOrderPositive(d, hs, Cell(x, y));
    }
  }

  lemma ExtendsTrans(a: seq<GridCell>, b: seq<GridCell>, c: seq<GridCell>)
    requires Extends(a, b) && Extends(b, c)
    ensures Extends(a, c)
  {
    assert c[..|a|] == c[..|b|][..|a|];
  }

  /** One row of the scan. */
  method ScanRow(d: Dem, ghost hs: seq<GridCell>, ghost J: set<Cell>, ghost base: int, net: array2<int>, list: seq<GridCell>,
                 ghost fin: set<Cell>, y: int)
    returns (list': seq<GridCell>, ghost fin': set<Cell>)
    requires Shaped(net, d) && J == Junctions(d, hs) && 0 <= y < net.Length1
    requires AllKnown(d, hs, net, fin) && ListOk(d, J, list, base, fin) && SettledBefore(d, hs, fin, 0, y)
    modifies net
    ensures AllKnown(d, hs, net, fin') && ListOk(d, J, list', base, fin') && SettledBefore(d, hs, fin', 0, y + 1)
    ensures Extends(list, list')
  {
    list', fin' := list, fin;
    for x := 0 to net.Length0
      invariant AllKnown(d, hs, net, fin') && ListOk(d, J, list', base, fin') && SettledBefore(d, hs, fin', x, y)
      invariant Extends(list, list')
    {
      ghost var l0 := list';
      list', fin' := ScanCell(d, hs, J, base, net, list', fin', x, y);
      ExtendsTrans(list, l0, list');
    }
  }

  /**
   * `calculateOrderAndAddJunctions`, run on the traced network (channel cells
   * pending, every other cell 0): afterwards every cell holds its Strahler
   * order within the network (0 off it), and what was appended to the list
   * is every junction of the network once, with its elevation.
   */
  method ScanOrders(d: Dem, ghost hs: seq<GridCell>, net: array2<int>, list: seq<GridCell>)
    returns (list': seq<GridCell>)
    requires Shaped(net, d)
    requires forall x, y | 0 <= x < net.Length0 && 0 <= y < net.Length1 ::
      net[x, y] == if OnChannel(d, hs, Cell(x, y)) then -1 else 0
    modifies net
    ensures forall x, y | 0 <= x < net.Length0 && 0 <= y < net.Length1 :: net[x, y] == ChOrder(d, hs, Cell(x, y))
    ensures JunctionList(d, hs, list, list')
  {
    ghost var J := Junctions(d, hs);
    ghost var fin: set<Cell> := {};
    list' := list;
    assert list[|list|..] == [];
    for y := 0 to net.Length1
      invariant AllKnown(d, hs, net, fin) && ListOk(d, J, list', |list|, fin) && SettledBefore(d, hs, fin, 0, y)
      invariant Extends(list, list')
    {
      ghost var l0 := list';
      list', fin := ScanRow(d, hs, J, |list|, net, list', fin, y);
      ExtendsTrans(list, l0, list');
    }
    ScanDone(d, hs, J, net, list, list', fin);
  }

  /**
   * The list `list'` is `list` followed by the junctions of the network, each
   * exactly once and with its elevation.
   */
  ghost predicate JunctionList(d: Dem, hs: seq<GridCell>, list: seq<GridCell>, list': seq<GridCell>)
  {
    && Extends(list, list')
    && Positions(list'[|list|..]) == Junctions(d, hs)
    && (forall k, l | |list| <= k < l < |list'| :: list'[k].Pos() != list'[l].Pos())
    && (forall k | |list| <= k < |list'| :: list'[k].value == d.z.Get(list'[k].Pos()))
  }

  /** The end of the scan: every channel cell is settled. */
  lemma ScanDone(d: Dem, hs: seq<GridCell>, J: set<Cell>, net: array2<int>, list: seq<GridCell>, list': seq<GridCell>,
                 fin: set<Cell>)
    requires Shaped(net, d) && J == Junctions(d, hs) && Extends(list, list')
    requires AllKnown(d, hs, net, fin) && ListOk(d, J, list', |list|, fin) && SettledBefore(d, hs, fin, 0, net.Length1)
    ensures forall x, y | 0 <= x < net.Length0 && 0 <= y < net.Length1 :: net[x, y] == ChOrder(d, hs, Cell(x, y))
    ensures JunctionList(d, hs, list, list')
  {
    forall x, y | 0 <= x < net.Length0 && 0 <= y < net.Length1
      ensures net[x, y] == ChOrder(d, hs, Cell(x, y))
    {
      assert Known(d, hs, net, fin, x, y);
    }
    assert fin * J == J;
    NoRepeatsDistinct(list'[|list|..]);
    forall k, l | |list| <= k < l < |list'|
      ensures list'[k].Pos() != list'[l].Pos()
    {
      assert list'[|list|..][k - |list|] == list'[k];
      assert list'[|list|..][l - |list|] == list'[l];
    }
  }
}
