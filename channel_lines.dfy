/**
 * The vector output of the channel network: one polyline per listed head
 * or junction, walked down the D8 path until the next listed cell, with its
 * length, its Strahler order and the list index of the cell it ends at; and
 * the driver that runs the whole algorithm.
 */
module ChannelLines {
  import opened Grid
  import opened Drainage
  import opened Cells
  import opened ChannelNetwork

  /**
   * The downstream walk of one polyline: the cells after the start, the
   * summed step distances, and the list index found at the last step taken
   * (`None` when no step is taken).
   */
  datatype Walk = Walk(path: seq<Cell>, length: real, next: Option<int>)

  /** The `do … while` walk of `createVectorLayer` from cell `c`. */
  function WalkFrom(d: Dem, list: seq<GridCell>, c: Cell): (w: Walk)
    ensures |w.path| == 0 <==> Dir(d, c) < 0
    ensures w.next.None? <==> |w.path| == 0
    decreases Depth(d, c)
  {
    var dir := Dir(d, c);
    if dir < 0 then Walk([], 0.0, None)
    else
      DirDescends(d, c);
      var n := Neighbour(c, dir);
      var idx := IndexOf(list, n);
      if idx != -1 then Walk([n], Dist(d, dir), Some(idx))
      else
        var w := WalkFrom(d, list, n);
        Walk([n] + w.path, Dist(d, dir) + w.length, if w.next.Some? then w.next else Some(-1))
  }

  /** The vertices of a walk: the start, then the cells stepped to. */
  function Vertices(c: Cell, w: Walk): seq<Cell>
  {
    [c] + w.path
  }

  /** Each vertex but the last has a downslope direction, which leads to the next vertex. */
  predicate FollowsFlow(d: Dem, v: seq<Cell>)
  {
    forall k | 0 <= k < |v| - 1 :: Dir(d, v[k]) >= 0 && v[k + 1] == Next(d, v[k])
  }

  /** Every step of the walk follows the downslope direction of the cell it leaves. */
  lemma {:induction false} WalkFollowsFlow(d: Dem, list: seq<GridCell>, c: Cell)
    ensures FollowsFlow(d, Vertices(c, WalkFrom(d, list, c)))
    decreases Depth(d, c)
  {
    var w := WalkFrom(d, list, c);
    if Dir(d, c) < 0 {
      assert Vertices(c, w) == [c];
    } else {
      var n := Next(d, c);
      if IndexOf(list, n) != -1 {
        assert Vertices(c, w) == [c, n];
      } else {
        DirDescends(d, c);
        WalkFollowsFlow(d, list, n);
        var v' := Vertices(n, WalkFrom(d, list, n));
        var v := Vertices(c, w);
        assert v == [c] + v';
        forall k | 0 <= k < |v| - 1
          ensures Dir(d, v[k]) >= 0 && v[k + 1] == Next(d, v[k])
        {
          if k > 0 {
            assert v[k] == v'[k - 1] && v[k + 1] == v'[k];
          }
        }
      }
    }
  }

  /** Every cell of `path` lies on the flow path of `c`. */
  predicate OnFlowPath(d: Dem, c: Cell, path: seq<Cell>)
  {
    forall k | 0 <= k < |path| :: Reaches(d, c, path[k])
  }

  /** Every vertex of the walk lies on the flow path of the start. */
  lemma {:induction false} WalkOnFlowPath(d: Dem, list: seq<GridCell>, c: Cell)
    ensures OnFlowPath(d, c, WalkFrom(d, list, c).path)
    decreases Depth(d, c)
  {
    var w := WalkFrom(d, list, c);
    if Dir(d, c) >= 0 {
      var n := Next(d, c);
      DirDescends(d, c);
      assert Reaches(d, c, n) by {
        assert Reaches(d, n, n);
      }
      if IndexOf(list, n) != -1 {
        assert w.path == [n];
      } else {
        WalkOnFlowPath(d, list, n);
        var p' := WalkFrom(d, list, n).path;
        assert w.path == [n] + p';
        forall k | 0 <= k < |w.path|
          ensures Reaches(d, c, w.path[k])
        {
          if k > 0 {
            assert w.path[k] == p'[k - 1];
            assert Reaches(d, n, p'[k - 1]);
          }
        }
      }
    }
  }

  /**
   * The stopping rule: the walk passes no listed cell before its last
   * vertex; it ends at list entry `next` when that is an index, and at a
   * cell without a downslope direction, not listed, when `next` is -1.
   */
  predicate StopsRight(d: Dem, list: seq<GridCell>, w: Walk)
  {
    && (forall k | 0 <= k < |w.path| - 1 :: IndexOf(list, w.path[k]) == -1)
    && (w.next.Some? ==> |w.path| > 0 && -1 <= w.next.value < |list| && w.next.value == IndexOf(list, w.path[|w.path| - 1]))
    && (w.next == Some(-1) ==> |w.path| > 0 && Dir(d, w.path[|w.path| - 1]) < 0)
  }

  /** Every walk keeps the stopping rule. */
  lemma {:induction false} WalkStops(d: Dem, list: seq<GridCell>, c: Cell)
    ensures StopsRight(d, list, WalkFrom(d, list, c))
    decreases Depth(d, c)
  {
    if Dir(d, c) >= 0 {
      var n := Next(d, c);
      if IndexOf(list, n) == -1 {
        DirDescends(d, c);
        WalkStops(d, list, n);
        StopsBehind(d, list, n, WalkFrom(d, list, n), WalkFrom(d, list, c));
      }
    }
  }

  /** An unlisted cell stepped to before a walk that keeps the rule. */
  lemma StopsBehind(d: Dem, list: seq<GridCell>, n: Cell, w': Walk, w: Walk)
    requires IndexOf(list, n) == -1 && StopsRight(d, list, w')
    requires w'.next.None? <==> |w'.path| == 0
    requires |w'.path| == 0 <==> Dir(d, n) < 0
    requires w.path == [n] + w'.path && w.next == if w'.next.Some? then w'.next else Some(-1)
    ensures StopsRight(d, list, w)
  {
    PrefixUnlisted(list, n, w'.path, w.path);
    var p := w.path;
    if |w'.path| == 0 {
      assert p == [n];
    } else {
      assert p[|p| - 1] == w'.path[|w'.path| - 1];
    }
  }

  /** No listed cell before the last one, with an unlisted cell put in front. */
  lemma PrefixUnlisted(list: seq<GridCell>, n: Cell, rest: seq<Cell>, p: seq<Cell>)
    requires IndexOf(list, n) == -1
    requires forall k | 0 <= k < |rest| - 1 :: IndexOf(list, rest[k]) == -1
    requires p == [n] + rest
    ensures forall k | 0 <= k < |p| - 1 :: IndexOf(list, p[k]) == -1
  {
    forall k | 1 <= k < |p| - 1
      ensures IndexOf(list, p[k]) == -1
    {
      assert p[k] == rest[k - 1];
    }
  }

  /** The shorter of the two step distances. */
  function MinStep(d: Dem): real
  {
    if d.cellSize <= d.diagonal then d.cellSize else d.diagonal
  }

  /** The longer of the two step distances. */
  function MaxStep(d: Dem): real
  {
    if d.cellSize <= d.diagonal then d.diagonal else d.cellSize
  }

  /** `n` times the distance `r`. */
  function Times(n: nat, r: real): real
  {
    if n == 0 then 0.0 else Times(n - 1, r) + r
  }

  /** The length lies between one shorter and one longer step distance per step. */
  lemma {:induction false} WalkLength(d: Dem, list: seq<GridCell>, c: Cell)
    ensures var w := WalkFrom(d, list, c);
      Times(|w.path|, MinStep(d)) <= w.length <= Times(|w.path|, MaxStep(d))
    decreases Depth(d, c)
  {
    var w := WalkFrom(d, list, c);
    if Dir(d, c) >= 0 {
      var n := Next(d, c);
      var step := Dist(d, Dir(d, c));
      assert MinStep(d) <= step <= MaxStep(d);
      if IndexOf(list, n) != -1 {
        assert |w.path| == 1 && w.length == step;
      } else {
        DirDescends(d, c);
        WalkLength(d, list, n);
        var w' := WalkFrom(d, list, n);
        assert |w.path| == |w'.path| + 1 && w.length == step + w'.length;
      }
    }
  }

  /** The walk that `createVectorLayer` runs for one polyline. */
  method WalkLine(d: Dem, list: seq<GridCell>, c: Cell) returns (path: seq<Cell>, length: real, next: Option<int>)
    ensures Walk(path, length, next) == WalkFrom(d, list, c)
  {
    path, length, next := [], 0.0, None;
    var cur := c;
    var going := true;
    assert Joined(path, length, next, WalkFrom(d, list, cur)) == WalkFrom(d, list, c);
    while going
      invariant going ==> next == (if |path| == 0 then None else Some(-1))
      invariant going ==> Joined(path, length, next, WalkFrom(d, list, cur)) == WalkFrom(d, list, c)
      invariant !going ==> Walk(path, length, next) == WalkFrom(d, list, c)
      decreases going, Depth(d, cur)
    {
      var dir := Dir(d, cur);
      if dir >= 0 {
        DirDescends(d, cur);
        JoinedStep(d, list, cur, path, length, next);
        var n := Neighbour(cur, dir);
        path := path + [n];
        length := length + Dist(d, dir);
        var idx := IndexOf(list, n);
        next := Some(idx);
        if idx != -1 {
          going := false;
        }
        cur := n;
      } else {
        JoinedEnd(d, list, cur, path, length, next);
        going := false;
      }
    }
  }

  /** The walk so far followed by the walk still ahead. */
  function Joined(path: seq<Cell>, length: real, next: Option<int>, w: Walk): Walk
  {
    Walk(path + w.path, length + w.length, if w.next.Some? then w.next else next)
  }

  /** One step of the walk moves a cell from the walk ahead to the walk so far. */
  lemma JoinedStep(d: Dem, list: seq<GridCell>, cur: Cell, path: seq<Cell>, length: real, next: Option<int>)
    requires Dir(d, cur) >= 0 && next == (if |path| == 0 then None else Some(-1))
    ensures var n := Next(d, cur); var step := Dist(d, Dir(d, cur));
      Joined(path, length, next, WalkFrom(d, list, cur)) ==
        if IndexOf(list, n) != -1 then Walk(path + [n], length + step, Some(IndexOf(list, n)))
        else Joined(path + [n], length + step, Some(-1), WalkFrom(d, list, n))
  {
    DirDescends(d, cur);
    var n := Next(d, cur);
    if IndexOf(list, n) == -1 {
      var w := WalkFrom(d, list, n);
      assert path + ([n] + w.path) == (path + [n]) + w.path;
    }
  }

  /** At a cell without a direction nothing is ahead. */
  lemma JoinedEnd(d: Dem, list: seq<GridCell>, cur: Cell, path: seq<Cell>, length: real, next: Option<int>)
    requires Dir(d, cur) < 0
    ensures Joined(path, length, next, WalkFrom(d, list, cur)) == Walk(path, length, next)
  {
    assert path + [] == path;
  }

  // ---------------------------------------------------------------------
  // The polylines.

  /** One feature of the vector layer: its attributes and its vertices (as cells). */
  datatype Line = Line(id: int, length: real, order: int, next: int, vertices: seq<Cell>)

  /**
   * The features for sorted entries `k-1` down to 0, `prev` being the value
   * of the downslope index left by the feature before: the index is not
   * reset between features, so a feature whose walk takes no step repeats it.
   */
  function LinesDown(d: Dem, list: seq<GridCell>, sorted: seq<GridCell>, net: array2<int>, noData: int, k: int, prev: int): (r: seq<Line>)
    requires 0 <= k <= |sorted|
    reads net
    ensures |r| == k
    decreases k
  {
    if k == 0 then []
    else
      var c := sorted[k - 1].Pos();
      var w := WalkFrom(d, list, c);
      var next := if w.next.Some? then w.next.value else prev;
      [Line(k - 1, w.length, ReadInt(net, c, noData), next, Vertices(c, w))] + LinesDown(d, list, sorted, net, noData, k - 1, next)
  }

  /** The features of `createVectorLayer`, over the list sorted by elevation, highest first. */
  function Lines(d: Dem, list: seq<GridCell>, net: array2<int>, noData: int): seq<Line>
    reads net
  {
    var sorted := Sort(list);
    LinesDown(d, list, sorted, net, noData, |sorted|, -1)
  }

  /** `createVectorLayer`. */
  method CreateLines(d: Dem, list: seq<GridCell>, net: array2<int>, noData: int) returns (lines: seq<Line>)
    ensures lines == Lines(d, list, net, noData)
  {
    var sorted := Sort(list);
    lines := [];
    var prev := -1;
    var i := |sorted| - 1;
    while i > -1
      invariant -1 <= i < |sorted|
      invariant lines + LinesDown(d, list, sorted, net, noData, i + 1, prev) == LinesDown(d, list, sorted, net, noData, |sorted|, -1)
    {
      ghost var prev0 := prev;
      var c := sorted[i].Pos();
      var path, length, next := WalkLine(d, list, c);
      if next.Some? {
        prev := next.value;
      }
      var line := Line(i, length, ReadInt(net, c, noData), prev, [c] + path);
      LinesStep(d, list, sorted, net, noData, i, prev0, Walk(path, length, next), lines);
      lines := lines + [line];
      i := i - 1;
    }
  }

  /**
   * One feature of the loop of `createVectorLayer`: appended to the features
   * drawn so far (`lines`), it leaves the same features still to come.
   */
  lemma LinesStep(d: Dem, list: seq<GridCell>, sorted: seq<GridCell>, net: array2<int>, noData: int, i: int, prev: int, w: Walk,
                  lines: seq<Line>)
    requires 0 <= i < |sorted| && w == WalkFrom(d, list, sorted[i].Pos())
    ensures var c := sorted[i].Pos(); var next := if w.next.Some? then w.next.value else prev;
      (lines + [Line(i, w.length, ReadInt(net, c, noData), next, [c] + w.path)]) + LinesDown(d, list, sorted, net, noData, i, next)
      == lines + LinesDown(d, list, sorted, net, noData, i + 1, prev)
  {
    var c := sorted[i].Pos();
    var next := if w.next.Some? then w.next.value else prev;
    var line := Line(i, w.length, ReadInt(net, c, noData), next, [c] + w.path);
    assert [line] + LinesDown(d, list, sorted, net, noData, i, next) == LinesDown(d, list, sorted, net, noData, i + 1, prev);
    AppendAssoc(lines, line, LinesDown(d, list, sorted, net, noData, i, next));
  }

  lemma AppendAssoc<T>(a: seq<T>, b: T, c: seq<T>)
    ensures (a + [b]) + c == a + ([b] + c)
  {
  }

  /**
   * A feature as `createVectorLayer` draws it from cell `start`: it follows
   * the flow from `start`, passes no listed cell before its end, and names
   * the list entry at its end (-1 when the end, not listed, has no
   * downslope direction); its length is between one shorter and one
   * longer step distance per step.
   */
  predicate LineOk(d: Dem, list: seq<GridCell>, l: Line, start: Cell)
  {
    var v := l.vertices;
    && |v| >= 1 && v[0] == start && FollowsFlow(d, v)
    && (forall m | 1 <= m < |v| - 1 :: IndexOf(list, v[m]) == -1)
    && (|v| > 1 ==> l.next == IndexOf(list, v[|v| - 1]) && (l.next == -1 ==> Dir(d, v[|v| - 1]) < 0))
    && Times(|v| - 1, MinStep(d)) <= l.length <= Times(|v| - 1, MaxStep(d))
  }

  /**
   * Feature `l` is the one drawn from cell `c` as entry `id`: the walk from
   * `c` gives its vertices, its length and (when it takes a step) its
   * downslope index, and the network value at `c` its order.
   */
  predicate FromWalk(d: Dem, list: seq<GridCell>, net: array2<int>, noData: int, l: Line, c: Cell, id: int)
    reads net
  {
    var w := WalkFrom(d, list, c);
    && l.id == id && l.length == w.length && l.order == ReadInt(net, c, noData) && l.vertices == Vertices(c, w)
    && (w.next.Some? ==> l.next == w.next.value)
  }

  /** The feature drawn by the walk from `c` is well formed. */
  lemma WalkMakesLine(d: Dem, list: seq<GridCell>, net: array2<int>, noData: int, l: Line, c: Cell, id: int)
    requires FromWalk(d, list, net, noData, l, c, id)
    ensures LineOk(d, list, l, c)
  {
    var w := WalkFrom(d, list, c);
    WalkFollowsFlow(d, list, c);
    WalkStops(d, list, c);
    WalkLength(d, list, c);
    var v := Vertices(c, w);
    forall m | 1 <= m < |v| - 1
      ensures IndexOf(list, v[m]) == -1
    {
      assert v[m] == w.path[m - 1];
    }
    if |v| > 1 {
      assert v[|v| - 1] == w.path[|w.path| - 1];
    }
  }

  /** Feature `j` of `r` is the one drawn from sorted entry `k-1-j`. */
  predicate Drawn(d: Dem, list: seq<GridCell>, sorted: seq<GridCell>, net: array2<int>, noData: int, k: int, r: seq<Line>)
    requires |r| <= k <= |sorted|
    reads net
  {
    forall j | 0 <= j < |r| :: FromWalk(d, list, net, noData, r[j], sorted[k - 1 - j].Pos(), k - 1 - j)
  }

  /** A feature without a step repeats the downslope index of the feature before (`prev` for the first). */
  predicate Chained(r: seq<Line>, prev: int)
  {
    && (|r| > 0 && |r[0].vertices| == 1 ==> r[0].next == prev)
    && forall j | 0 < j < |r| && |r[j].vertices| == 1 :: r[j].next == r[j - 1].next
  }

  /** The features for sorted entries `k-1` down to 0 are drawn as above. */
  lemma {:induction false} LinesDownDrawn(d: Dem, list: seq<GridCell>, sorted: seq<GridCell>, net: array2<int>, noData: int,
                                         k: int, prev: int)
    requires 0 <= k <= |sorted|
    ensures Drawn(d, list, sorted, net, noData, k, LinesDown(d, list, sorted, net, noData, k, prev))
    decreases k
  {
    if k > 0 {
      var c := sorted[k - 1].Pos();
      var w := WalkFrom(d, list, c);
      var next := if w.next.Some? then w.next.value else prev;
      var l := Line(k - 1, w.length, ReadInt(net, c, noData), next, Vertices(c, w));
      LinesDownDrawn(d, list, sorted, net, noData, k - 1, next);
      DrawnCons(d, list, sorted, net, noData, k, l, LinesDown(d, list, sorted, net, noData, k - 1, next));
    }
  }

  /** The features for sorted entries `k-1` down to 0 are chained as above. */
  lemma {:induction false} LinesDownChained(d: Dem, list: seq<GridCell>, sorted: seq<GridCell>, net: array2<int>, noData: int,
                                           k: int, prev: int)
    requires 0 <= k <= |sorted|
    ensures Chained(LinesDown(d, list, sorted, net, noData, k, prev), prev)
    decreases k
  {
    if k > 0 {
      var c := sorted[k - 1].Pos();
      var w := WalkFrom(d, list, c);
      var next := if w.next.Some? then w.next.value else prev;
      var l := Line(k - 1, w.length, ReadInt(net, c, noData), next, Vertices(c, w));
      LinesDownChained(d, list, sorted, net, noData, k - 1, next);
      assert |l.vertices| == 1 + |w.path|;
      ChainedCons(l, LinesDown(d, list, sorted, net, noData, k - 1, next), prev);
    }
  }

  lemma DrawnCons(d: Dem, list: seq<GridCell>, sorted: seq<GridCell>, net: array2<int>, noData: int, k: int, l: Line, r: seq<Line>)
    requires 0 < k <= |sorted| && |r| == k - 1 && Drawn(d, list, sorted, net, noData, k - 1, r)
    requires FromWalk(d, list, net, noData, l, sorted[k - 1].Pos(), k - 1)
    ensures Drawn(d, list, sorted, net, noData, k, [l] + r)
  {
    var r2 := [l] + r;
    forall j | 1 <= j < |r2|
      ensures FromWalk(d, list, net, noData, r2[j], sorted[k - 1 - j].Pos(), k - 1 - j)
    {
      assert r2[j].id == r[j - 1].id;
    }
  }

  lemma ChainedCons(l: Line, r: seq<Line>, prev: int)
    requires Chained(r, l.next) && (|l.vertices| == 1 ==> l.next == prev)
    ensures Chained([l] + r, prev)
  {
    var r2 := [l] + r;
    forall j | 0 < j < |r2| && |r2[j].vertices| == 1
      ensures r2[j].next == r2[j - 1].next
    {
      assert r2[j].next == r[j - 1].next && r2[j].vertices == r[j - 1].vertices;
      if j > 1 {
        assert r2[j - 1].next == r[j - 2].next;
      }
    }
  }

  /**
   * The features of `createVectorLayer`: one per list entry, drawn from the
   * sorted list read backwards (feature `j` from sorted entry
   * `|list|-1-j`, which is its ID, with the network value there as its
   * order), each well formed; a feature without a step repeats the
   * downslope index of the feature before, and the first one names -1.
   */
  lemma LinesShape(d: Dem, list: seq<GridCell>, net: array2<int>, noData: int)
    ensures var r := Lines(d, list, net, noData); var s := Sort(list);
      && |r| == |list|
      && (forall j | 0 <= j < |r| ::
            && r[j].id == |list| - 1 - j
            && LineOk(d, list, r[j], s[|list| - 1 - j].Pos())
            && r[j].order == ReadInt(net, s[|list| - 1 - j].Pos(), noData))
      && Chained(r, -1)
  {
    var r := Lines(d, list, net, noData);
    var s := Sort(list);
    LinesDownDrawn(d, list, s, net, noData, |list|, -1);
    LinesDownChained(d, list, s, net, noData, |list|, -1);
    forall j | 0 <= j < |r|
      ensures && r[j].id == |list| - 1 - j
              && LineOk(d, list, r[j], s[|list| - 1 - j].Pos())
              && r[j].order == ReadInt(net, s[|list| - 1 - j].Pos(), noData)
    {
      var c := s[|list| - 1 - j].Pos();
      assert FromWalk(d, list, net, noData, r[j], c, |list| - 1 - j);
      WalkMakesLine(d, list, net, noData, r[j], c, |list| - 1 - j);
    }
  }

  /** Feature `j` starts at sorted entry `|list|-1-j`. */
  lemma LinesStart(d: Dem, list: seq<GridCell>, net: array2<int>, noData: int, j: int)
    requires 0 <= j < |Lines(d, list, net, noData)|
    ensures var r := Lines(d, list, net, noData);
      |r| == |list| && |r[j].vertices| > 0 && r[j].vertices[0] == Sort(list)[|list| - 1 - j].Pos()
  {
    var s := Sort(list);
    LinesDownDrawn(d, list, s, net, noData, |list|, -1);
    var r := Lines(d, list, net, noData);
    assert FromWalk(d, list, net, noData, r[j], s[|list| - 1 - j].Pos(), |list| - 1 - j);
  }

  /** Every feature starts at a listed cell. */
  lemma LinesStartListed(d: Dem, list: seq<GridCell>, net: array2<int>, noData: int)
    ensures var r := Lines(d, list, net, noData);
      forall j | 0 <= j < |r| :: |r[j].vertices| > 0 && exists k | 0 <= k < |list| :: r[j].vertices[0] == list[k].Pos()
  {
    var r := Lines(d, list, net, noData);
    var s := Sort(list);
    forall j | 0 <= j < |r|
      ensures |r[j].vertices| > 0 && exists k | 0 <= k < |list| :: r[j].vertices[0] == list[k].Pos()
    {
      LinesStart(d, list, net, noData, j);
      var g := s[|list| - 1 - j];
      assert g in multiset(s);
      var k :| 0 <= k < |list| && list[k] == g;
    }
  }

  /** Every listed cell starts a feature. */
  lemma ListedStartLines(d: Dem, list: seq<GridCell>, net: array2<int>, noData: int)
    ensures var r := Lines(d, list, net, noData);
      forall k | 0 <= k < |list| :: exists j | 0 <= j < |r| :: |r[j].vertices| > 0 && r[j].vertices[0] == list[k].Pos()
  {
    var r := Lines(d, list, net, noData);
    var s := Sort(list);
    forall k | 0 <= k < |list|
      ensures exists j | 0 <= j < |r| :: |r[j].vertices| > 0 && r[j].vertices[0] == list[k].Pos()
    {
      assert list[k] in multiset(list);
      var i :| 0 <= i < |s| && s[i] == list[k];
      assert |r| == |list|;
      LinesStart(d, list, net, noData, |list| - 1 - i);
    }
  }

  /** The features come highest listed value first. */
  lemma LinesDescend(d: Dem, list: seq<GridCell>, net: array2<int>, noData: int)
    ensures var r := Lines(d, list, net, noData);
      forall j, j' | 0 <= j < j' < |r| :: 0 <= r[j].id < |list| && 0 <= r[j'].id < |list| &&
        Sort(list)[r[j'].id].value <= Sort(list)[r[j].id].value
  {
    LinesShape(d, list, net, noData);
  }

  // ---------------------------------------------------------------------
  // The whole algorithm.

  /** Tracing from the sorted heads marks the cells on the flow path of some head. */
  lemma OnChannelSorted(d: Dem, hs: seq<GridCell>, b: Cell)
    ensures OnChannel(d, Sort(hs), b) <==> exists k | 0 <= k < |hs| :: Reaches(d, hs[k].Pos(), b)
  {
    var s := Sort(hs);
    if OnChannel(d, s, b) {
      var i :| 0 <= i < |s| && Reaches(d, s[i].Pos(), b);
      assert s[i] in multiset(s);
      var k :| 0 <= k < |hs| && hs[k] == s[i];
    }
    if exists k | 0 <= k < |hs| :: Reaches(d, hs[k].Pos(), b) {
      var k :| 0 <= k < |hs| && Reaches(d, hs[k].Pos(), b);
      assert hs[k] in multiset(hs);
      var i :| 0 <= i < |s| && s[i] == hs[k];
    }
  }

  /**
   * `calculateChannelNetwork` after the network raster is cleared to 0: the
   * heads are found, the network is traced from them in the sorted order,
   * orders and junctions are computed, and the features are drawn.  The
   * raster ends up holding every cell's Strahler order within the network
   * (0 off it), the list the heads followed by every junction once, and
   * every feature carries the order of the cell it starts at.
   */
  method CalculateChannelNetwork(d: Dem, m: int, threshold: real, t: Layer<real>, noData: int)
    returns (net: array2<int>, list: seq<GridCell>, lines: seq<Line>)
    ensures fresh(net) && Shaped(net, d)
    ensures var hs := HeadersBefore(d.z, m, threshold, t, d.z.ny);
      && (forall x, y | 0 <= x < d.z.nx && 0 <= y < d.z.ny :: net[x, y] == ChOrder(d, Sort(hs), Cell(x, y)))
      && JunctionList(d, Sort(hs), hs, list)
      && lines == Lines(d, list, net, noData)
      && (forall j | 0 <= j < |lines| :: |lines[j].vertices| > 0 && lines[j].order == ChOrder(d, Sort(hs), lines[j].vertices[0]))
  {
    var hs := GetHeaders(d.z, m, threshold, t);
    net := new int[d.z.nx, d.z.ny]((x, y) => 0);
    var heads := Sort(hs);
    TraceAll(d, net, heads);
    list := ScanOrders(d, heads, net, hs);
    lines := CreateLines(d, list, net, noData);
    HeadersInWindow(d.z, m, threshold, t);
    LineOrders(d, heads, hs, list, net, noData);
  }

  lemma LineOrders(d: Dem, heads: seq<GridCell>, hs: seq<GridCell>, list: seq<GridCell>, net: array2<int>, noData: int)
    requires Shaped(net, d) && JunctionList(d, heads, hs, list)
    requires forall g | g in hs :: d.z.InWindow(g.Pos())
    requires forall x, y | 0 <= x < d.z.nx && 0 <= y < d.z.ny :: net[x, y] == ChOrder(d, heads, Cell(x, y))
    ensures var r := Lines(d, list, net, noData);
      forall j | 0 <= j < |r| :: |r[j].vertices| > 0 && r[j].order == ChOrder(d, heads, r[j].vertices[0])
  {
    var r := Lines(d, list, net, noData);
    forall j | 0 <= j < |r|
      ensures |r[j].vertices| > 0 && r[j].order == ChOrder(d, heads, r[j].vertices[0])
    {
      LineOrder(d, heads, hs, list, net, noData, j);
    }
  }

  /** A feature's order is the network value at its start, a listed cell of the window. */
  lemma LineOrder(d: Dem, heads: seq<GridCell>, hs: seq<GridCell>, list: seq<GridCell>, net: array2<int>, noData: int, j: int)
    requires Shaped(net, d) && JunctionList(d, heads, hs, list)
    requires forall g | g in hs :: d.z.InWindow(g.Pos())
    requires forall x, y | 0 <= x < d.z.nx && 0 <= y < d.z.ny :: net[x, y] == ChOrder(d, heads, Cell(x, y))
    requires 0 <= j < |Lines(d, list, net, noData)|
    ensures var l := Lines(d, list, net, noData)[j];
      |l.vertices| > 0 && l.order == ChOrder(d, heads, l.vertices[0])
  {
    var s := Sort(list);
    LinesShape(d, list, net, noData);
    LinesStart(d, list, net, noData, j);
    var g := s[|list| - 1 - j];
    assert g in multiset(s);
    assert g in list;
    var k :| 0 <= k < |list| && list[k] == g;
    if k < |hs| {
      assert g == hs[k];
    } else {
      assert g in list[|hs|..];
      assert g.Pos() in Junctions(d, heads);
    }
  }
}
