/**
 * Exclusion areas: starting from an outlet cell, a breadth-first flood over
 * the eight neighbours marks every cell connected to the outlet through
 * cells of the outlet's integer class, and writes those cells, and the
 * outlet, as no-data into an integer copy of the input whose no-data value
 * is 0.
 */
module ExclusionAreas {
  import opened Grid
  import WatershedsBySize

  /** The no-data value the result raster is given before the flood. */
  const ResultNoData := 0

  /** A cell's integer class: Java's `(int)` cast of its value. */
  function Class(g: Layer<real>, c: Cell): int
  {
    WatershedsBySize.JavaInt(g.Get(c))
  }

  /** A frontier cell looks at its neighbours only when its class, read back as a double, is not no-data. */
  predicate Expands(g: Layer<real>, c: Cell)
  {
    !g.IsNoData(Class(g, c) as real)
  }

  /** A neighbour joins the flood when it holds data of the outlet's class `init`. */
  predicate Joins(g: Layer<real>, init: int, q: Cell)
  {
    g.Valid(q) && Class(g, q) == init
  }

  /** The cells one flood round adds around the cells of `s`. */
  ghost function Spread(g: Layer<real>, init: int, s: set<Cell>): set<Cell>
  {
    set p, i | p in s && 0 <= i < 8 && Expands(g, p) && Joins(g, init, Neighbour(p, i)) :: Neighbour(p, i)
  }

  /** The cells that looking at the directions `0 .. n-1` around `p` adds. */
  ghost function SpreadFrom(g: Layer<real>, init: int, p: Cell, n: int): set<Cell>
  {
    set i | 0 <= i < n && i < 8 && Expands(g, p) && Joins(g, init, Neighbour(p, i)) :: Neighbour(p, i)
  }

  /** The cells the flood has marked after `k` rounds. */
  ghost function Level(g: Layer<real>, outlet: Cell, k: nat): set<Cell>
  {
    if k == 0 then {outlet}
    else Level(g, outlet, k - 1) + Spread(g, Class(g, outlet), Level(g, outlet, k - 1))
  }

  /** No round adds anything to `t`. */
  ghost predicate Closed(g: Layer<real>, init: int, t: set<Cell>)
  {
    forall p, i | p in t && 0 <= i < 8 && Expands(g, p) && Joins(g, init, Neighbour(p, i)) :: Neighbour(p, i) in t
  }

  ghost function Points(cs: seq<Cell>): set<Cell>
  {
    set c | c in cs
  }

  /** Each cell of the list occurs once. */
  predicate Distinct(cs: seq<Cell>)
  {
    forall i, j | 0 <= i < j < |cs| :: cs[i] != cs[j]
  }

  ghost function Window(g: Layer<real>): set<Cell>
  {
    set x, y | 0 <= x < g.nx && 0 <= y < g.ny :: Cell(x, y)
  }

  // Properties of the flood rounds.

  lemma SpreadUnion(g: Layer<real>, init: int, a: set<Cell>, b: set<Cell>)
    ensures Spread(g, init, a + b) == Spread(g, init, a) + Spread(g, init, b)
  {
  }

  lemma SpreadMono(g: Layer<real>, init: int, a: set<Cell>, b: set<Cell>)
    requires a <= b
    ensures Spread(g, init, a) <= Spread(g, init, b)
  {
  }

  /** Spreading around one more cell adds what that cell's eight directions add. */
  lemma SpreadAdd(g: Layer<real>, init: int, s: set<Cell>, p: Cell)
    ensures Spread(g, init, s + {p}) == Spread(g, init, s) + SpreadFrom(g, init, p, 8)
  {
    SpreadUnion(g, init, s, {p});
    assert Spread(g, init, {p}) == SpreadFrom(g, init, p, 8);
  }

  /** Looking at direction `n` adds neighbour `n` exactly when it joins. */
  lemma SpreadFromStep(g: Layer<real>, init: int, p: Cell, n: int)
    requires 0 <= n < 8
    ensures SpreadFrom(g, init, p, n + 1) ==
      SpreadFrom(g, init, p, n) + (if Expands(g, p) && Joins(g, init, Neighbour(p, n)) then {Neighbour(p, n)} else {})
  {
  }

  /** The flood only grows. */
  lemma LevelGrows(g: Layer<real>, outlet: Cell, k: nat)
    ensures Level(g, outlet, k) <= Level(g, outlet, k + 1)
  {
  }

  /**
   * Every cell the flood marks lies in any set that holds the outlet and
   * that no round can enlarge: the flood never escapes the outlet's
   * connected area.
   */
  lemma {:induction false} LevelLeast(g: Layer<real>, outlet: Cell, t: set<Cell>, k: nat)
    requires outlet in t && Closed(g, Class(g, outlet), t)
    ensures Level(g, outlet, k) <= t
  {
    if k > 0 {
      LevelLeast(g, outlet, t, k - 1);
      var init := Class(g, outlet);
      forall q | q in Spread(g, init, Level(g, outlet, k - 1))
        ensures q in t
      {
        var p, i :| p in Level(g, outlet, k - 1) && 0 <= i < 8 && Expands(g, p) && Joins(g, init, Neighbour(p, i)) && q == Neighbour(p, i);
      }
    }
  }

  /** Apart from the outlet, every marked cell holds data of the outlet's class. */
  lemma {:induction false} LevelJoins(g: Layer<real>, outlet: Cell, k: nat, c: Cell)
    requires c in Level(g, outlet, k) && c != outlet
    ensures Joins(g, Class(g, outlet), c)
  {
    if k > 0 && c !in Level(g, outlet, k - 1) {
      var init := Class(g, outlet);
      var p, i :| p in Level(g, outlet, k - 1) && 0 <= i < 8 && Expands(g, p) && Joins(g, init, Neighbour(p, i)) && c == Neighbour(p, i);
    } else if k > 0 {
      LevelJoins(g, outlet, k - 1, c);
    }
  }

  /** When the outlet's class reads back as no-data, the flood never leaves the outlet. */
  lemma {:induction false} NoDataOutlet(g: Layer<real>, outlet: Cell, k: nat)
    requires !Expands(g, outlet)
    ensures Level(g, outlet, k) == {outlet}
  {
    if k > 0 {
      NoDataOutlet(g, outlet, k - 1);
      assert Spread(g, Class(g, outlet), {outlet}) == {};
    }
  }

  /**
   * When the newest cells of round `k` are none, every cell marked has been
   * spread around, and no later round enlarges the marked set.
   */
  lemma Settled(g: Layer<real>, outlet: Cell, k: nat, prev: set<Cell>)
    requires prev <= Level(g, outlet, k) && Level(g, outlet, k) - prev == {}
    requires Spread(g, Class(g, outlet), prev) <= Level(g, outlet, k)
    ensures Closed(g, Class(g, outlet), Level(g, outlet, k))
  {
    var init := Class(g, outlet);
    var s := Level(g, outlet, k);
    NothingAdded(prev, s);
    forall p, i | p in s && 0 <= i < 8 && Expands(g, p) && Joins(g, init, Neighbour(p, i))
      ensures Neighbour(p, i) in s
    {
      assert Neighbour(p, i) in Spread(g, init, s);
    }
  }

  /**
   * The next round around the whole marked set adds only what it adds
   * around the newest cells, when those before them have been spread.
   */
  lemma NextLevel(g: Layer<real>, outlet: Cell, k: nat, prev: set<Cell>, newest: set<Cell>)
    requires Level(g, outlet, k) == prev + newest
    requires Spread(g, Class(g, outlet), prev) <= Level(g, outlet, k)
    ensures Level(g, outlet, k + 1) == Level(g, outlet, k) + Spread(g, Class(g, outlet), newest)
  {
    SpreadUnion(g, Class(g, outlet), prev, newest);
  }

  // The state of the flood.

  /** One cell of the visited flags and of the result, as the marked set `v` fixes them. */
  ghost predicate MarkAt(g: Layer<real>, outlet: Cell, v: set<Cell>, c: Cell, seen: bool, r: int)
  {
    && (seen <==> c in v)
    && r == if c in v && c != outlet then ResultNoData else Class(g, c)
  }

  /** The visited flags are `v`, and the result is the input's classes with what `v` holds besides the outlet written as no-data. */
  ghost predicate Marks(g: Layer<real>, outlet: Cell, v: set<Cell>, visited: array2<bool>, result: array2<int>)
    reads visited, result
  {
    && visited.Length0 == g.nx && visited.Length1 == g.ny
    && result.Length0 == g.nx && result.Length1 == g.ny
    && (forall c | c in v :: g.InWindow(c))
    && forall x, y | 0 <= x < g.nx && 0 <= y < g.ny :: MarkAt(g, outlet, v, Cell(x, y), visited[x, y], result[x, y])
  }

  /** Marks cell `q` as visited and writes it as no-data. */
  method Enqueue(visited: array2<bool>, result: array2<int>, q: Cell)
    requires 0 <= q.x < visited.Length0 && 0 <= q.y < visited.Length1
    requires 0 <= q.x < result.Length0 && 0 <= q.y < result.Length1
    modifies visited, result
    ensures visited[q.x, q.y] && result[q.x, q.y] == ResultNoData
    ensures forall x, y | 0 <= x < visited.Length0 && 0 <= y < visited.Length1 && Cell(x, y) != q :: visited[x, y] == old(visited[x, y])
    ensures forall x, y | 0 <= x < result.Length0 && 0 <= y < result.Length1 && Cell(x, y) != q :: result[x, y] == old(result[x, y])
  {
    visited[q.x, q.y] := true;
    result[q.x, q.y] := ResultNoData;
  }

  /**
   * Looks at neighbour `n` of frontier cell `p`: a neighbour with data, not
   * yet visited and of class `init` is visited, written as no-data and added
   * to the next frontier.
   */
  method VisitNeighbour(g: Layer<real>, outlet: Cell, p: Cell, n: int, visited: array2<bool>, result: array2<int>,
                        adj: seq<Cell>, ghost base: set<Cell>, ghost v: set<Cell>)
    returns (adj': seq<Cell>, ghost v': set<Cell>)
    requires 0 <= n < 8 && Expands(g, p)
    requires Marks(g, outlet, v, visited, result) && outlet in base && base <= v
    requires Points(adj) == v - base && Distinct(adj)
    modifies visited, result
    ensures Marks(g, outlet, v', visited, result)
    ensures v' == v + (if Joins(g, Class(g, outlet), Neighbour(p, n)) then {Neighbour(p, n)} else {})
    ensures Points(adj') == v' - base && Distinct(adj')
  {
    var init := Class(g, outlet);
    adj', v' := adj, v;
    var q := Neighbour(p, n);
    var value := g.Get(q);
    if !g.IsNoData(value) {
      var cls := WatershedsBySize.JavaInt(value);
      if !visited[q.x, q.y] {
        if init == cls {
          Enqueue(visited, result, q);
          assert q !in Points(adj);
          adj' := adj + [q];
          v' := v + {q};
          assert Points(adj') == Points(adj) + {q};
          assert q != outlet;
          assert forall x, y | 0 <= x < g.nx && 0 <= y < g.ny :: MarkAt(g, outlet, v', Cell(x, y), visited[x, y], result[x, y]);
        }
      } else {
        assert q in v;
      }
    }
  }

  /** All eight neighbours of frontier cell `p`. */
  method VisitPoint(g: Layer<real>, outlet: Cell, p: Cell, visited: array2<bool>, result: array2<int>,
                    adj: seq<Cell>, ghost base: set<Cell>, ghost v: set<Cell>)
    returns (adj': seq<Cell>, ghost v': set<Cell>)
    requires Marks(g, outlet, v, visited, result) && outlet in base && base <= v
    requires Points(adj) == v - base && Distinct(adj)
    modifies visited, result
    ensures Marks(g, outlet, v', visited, result)
    ensures v' == v + SpreadFrom(g, Class(g, outlet), p, 8)
    ensures Points(adj') == v' - base && Distinct(adj')
  {
    adj', v' := adj, v;
    if Expands(g, p) {
      for n := 0 to 8
        invariant Marks(g, outlet, v', visited, result)
        invariant v' == v + SpreadFrom(g, Class(g, outlet), p, n)
        invariant Points(adj') == v' - base && Distinct(adj')
      {
        SpreadFromStep(g, Class(g, outlet), p, n);
        adj', v' := VisitNeighbour(g, outlet, p, n, visited, result, adj', base, v');
      }
    } else {
      assert SpreadFrom(g, Class(g, outlet), p, 8) == {};
    }
  }

  /**
   * One round of `exclude`: every cell of the frontier `central` looks at
   * its neighbours; the cells it adds form the next frontier.  `last` is
   * the frontier cell looked at last.
   */
  method Round(g: Layer<real>, outlet: Cell, central: seq<Cell>, visited: array2<bool>, result: array2<int>,
               ghost v: set<Cell>, last: Cell)
    returns (adj: seq<Cell>, ghost v': set<Cell>, last': Cell)
    requires Marks(g, outlet, v, visited, result) && outlet in v && Points(central) <= v && last in v
    modifies visited, result
    ensures Marks(g, outlet, v', visited, result)
    ensures v' == v + Spread(g, Class(g, outlet), Points(central))
    ensures Points(adj) == v' - v && Distinct(adj)
    ensures last' in v'
  {
    var init := Class(g, outlet);
    adj, v', last' := [], v, last;
    for t := 0 to |central|
      invariant Marks(g, outlet, v', visited, result)
      invariant v' == v + Spread(g, init, Points(central[..t]))
      invariant Points(adj) == v' - v && Distinct(adj)
      invariant last' in v'
    {
      assert central[..t + 1] == central[..t] + [central[t]];
      assert Points(central[..t + 1]) == Points(central[..t]) + {central[t]};
      SpreadAdd(g, init, Points(central[..t]), central[t]);
      last' := central[t];
      assert last' in v;
      adj, v' := VisitPoint(g, outlet, central[t], visited, result, adj, v, v');
    }
    assert central[..|central|] == central;
  }

  /**
   * `exclude`: floods round by round from the outlet until a round adds
   * nothing or the host reports cancellation before a round (`cancelled`
   * gives its answer at each round), then writes the last frontier cell it
   * looked at as no-data.  `region` is the marked set and `rounds` the
   * number of rounds run.
   */
  method Exclude(g: Layer<real>, outlet: Cell, visited: array2<bool>, result: array2<int>, cancelled: nat -> bool)
    returns (ghost region: set<Cell>, rounds: nat, complete: bool, last: Cell)
    requires g.InWindow(outlet) && Marks(g, outlet, {}, visited, result)
    modifies visited, result
    ensures region == Level(g, outlet, rounds) && outlet in region && last in region
    ensures complete ==> Closed(g, Class(g, outlet), region)
    ensures !complete ==> cancelled(rounds)
    ensures forall x, y | 0 <= x < g.nx && 0 <= y < g.ny ::
      result[x, y] == if Cell(x, y) in region && (Cell(x, y) != outlet || last == outlet) then ResultNoData else Class(g, Cell(x, y))
  {
    MarkOutlet(g, outlet, visited, result);
    var central := [outlet];
    ghost var v: set<Cell> := {outlet};
    ghost var prev: set<Cell> := {};
    last := outlet;
    rounds := 0;
    assert Points(central) == {outlet};
    while |central| != 0 && !cancelled(rounds)
      invariant Marks(g, outlet, v, visited, result)
      invariant v == Level(g, outlet, rounds) && outlet in v && last in v
      invariant prev <= v && Points(central) == v - prev
      invariant Spread(g, Class(g, outlet), prev) <= v
      decreases Window(g) - v, |central|
    {
      var adj;
      ghost var v';
      adj, v', last := Advance(g, outlet, rounds, central, visited, result, prev, v, last);
      prev, v := v, v';
      central := adj;
      rounds := rounds + 1;
    }
    region := v;
    complete := |central| == 0;
    if complete {
      assert Points(central) == {};
      Settled(g, outlet, rounds, prev);
    }
    WriteLast(g, outlet, region, visited, result, last);
  }

  /**
   * A round of `exclude` seen against the flood levels: after round `k` the
   * marked set is level `k + 1`, and it gains a window cell exactly when
   * the next frontier is not empty.
   */
  method Advance(g: Layer<real>, outlet: Cell, k: nat, central: seq<Cell>, visited: array2<bool>, result: array2<int>,
                 ghost prev: set<Cell>, ghost v: set<Cell>, last: Cell)
    returns (adj: seq<Cell>, ghost v': set<Cell>, last': Cell)
    requires Marks(g, outlet, v, visited, result)
    requires v == Level(g, outlet, k) && outlet in v && last in v
    requires prev <= v && Points(central) == v - prev
    requires Spread(g, Class(g, outlet), prev) <= v
    modifies visited, result
    ensures Marks(g, outlet, v', visited, result)
    ensures v' == Level(g, outlet, k + 1) && v <= v' && last' in v'
    ensures Points(adj) == v' - v && Spread(g, Class(g, outlet), v) <= v'
    ensures |adj| > 0 ==> Window(g) - v' < Window(g) - v
    ensures |adj| == 0 ==> Window(g) - v' == Window(g) - v
  {
    NextLevel(g, outlet, k, prev, Points(central));
    adj, v', last' := Round(g, outlet, central, visited, result, v, last);
    if |adj| > 0 {
      assert adj[0] in Points(adj);
      assert adj[0] in Window(g) - v;
    } else {
      NothingAdded(v, v');
    }
  }

  lemma NothingAdded<T>(a: set<T>, b: set<T>)
    requires a <= b && b - a == {}
    ensures a == b
  {
    forall e | e in b
      ensures e in a
    {
      assert e !in b - a;
    }
  }

  /** Marks the outlet as visited; the result is left as it is. */
  method MarkOutlet(g: Layer<real>, outlet: Cell, visited: array2<bool>, result: array2<int>)
    requires g.InWindow(outlet) && Marks(g, outlet, {}, visited, result)
    modifies visited
    ensures Marks(g, outlet, {outlet}, visited, result)
  {
    visited[outlet.x, outlet.y] := true;
    assert forall x, y | 0 <= x < g.nx && 0 <= y < g.ny :: MarkAt(g, outlet, {outlet}, Cell(x, y), visited[x, y], result[x, y]);
  }

  /** The last write of `exclude`: the frontier cell looked at last becomes no-data. */
  method WriteLast(g: Layer<real>, outlet: Cell, ghost v: set<Cell>, visited: array2<bool>, result: array2<int>, last: Cell)
    requires Marks(g, outlet, v, visited, result) && last in v
    modifies result
    ensures forall x, y | 0 <= x < g.nx && 0 <= y < g.ny ::
      result[x, y] == if Cell(x, y) in v && (Cell(x, y) != outlet || last == outlet) then ResultNoData else Class(g, Cell(x, y))
  {
    assert g.InWindow(last);
    result[last.x, last.y] := ResultNoData;
    assert forall x, y | 0 <= x < g.nx && 0 <= y < g.ny :: MarkAt(g, outlet, v, Cell(x, y), old(visited[x, y]), old(result[x, y]));
  }

  /**
   * `processAlgorithm`: the result starts as the integer classes of the
   * input with 0 as its no-data value, `exclude` floods from the outlet, and
   * the outlet itself is written as no-data.  The result is no-data exactly
   * on the marked cells; when no cancellation came, the marked cells are the
   * least set that holds the outlet and that a round cannot enlarge, that is
   * the cells joined to the outlet through neighbours of its class.
   */
  method CreateExclusionAreas(g: Layer<real>, outlet: Cell, cancelled: nat -> bool)
    returns (result: array2<int>, ghost region: set<Cell>, rounds: nat, complete: bool)
    requires g.InWindow(outlet)
    ensures fresh(result) && result.Length0 == g.nx && result.Length1 == g.ny
    ensures region == Level(g, outlet, rounds) && outlet in region
    ensures complete ==> Closed(g, Class(g, outlet), region)
    ensures !complete ==> cancelled(rounds)
    ensures forall t | outlet in t && Closed(g, Class(g, outlet), t) :: region <= t
    ensures forall x, y | 0 <= x < g.nx && 0 <= y < g.ny ::
      result[x, y] == if Cell(x, y) in region then ResultNoData else Class(g, Cell(x, y))
  {
    var visited := new bool[g.nx, g.ny]((x, y) => false);
    result := new int[g.nx, g.ny]((x, y) => Class(g, Cell(x, y)));
    var last;
    region, rounds, complete, last := Exclude(g, outlet, visited, result, cancelled);
    result[outlet.x, outlet.y] := ResultNoData;
    forall t | outlet in t && Closed(g, Class(g, outlet), t)
      ensures region <= t
    {
      LevelLeast(g, outlet, t, rounds);
    }
  }
}
