/**
 * The D8 drainage relation induced by the host's downslope direction: which
 * neighbours drain into a cell, where the flow path of a cell goes, and the
 * set of cells upslope of a cell.
 */
module Drainage {
  import opened Grid

  /** Neighbour `i` of `c` sends its D8 flow into `c`. */
  predicate Drains(d: Dem, c: Cell, i: int)
    requires 0 <= i < 8
  {
    Dir(d, Neighbour(c, i)) == (i + 4) % 8
  }

  /** A cell drained into is valid, and the draining neighbour is valid and strictly higher. */
  lemma DrainsUphill(d: Dem, c: Cell, i: int)
    requires 0 <= i < 8 && Drains(d, c, i)
    ensures d.z.Valid(c) && d.z.Valid(Neighbour(c, i))
    ensures d.z.Get(c) < d.z.Get(Neighbour(c, i))
    ensures Height(d, Neighbour(c, i)) < Height(d, c)
  {
    OppositeNeighbour(c, i);
    DirDescends(d, Neighbour(c, i));
  }

  /** The D8 successor of a cell with a direction. */
  function Next(d: Dem, c: Cell): Cell
    requires Dir(d, c) >= 0
  {
    Neighbour(c, Dir(d, c))
  }

  /** The D8 flow path that starts at `a` passes through `b`. */
  predicate Reaches(d: Dem, a: Cell, b: Cell)
    decreases Depth(d, a)
  {
    a == b || (Dir(d, a) >= 0 && (DirDescends(d, a); Reaches(d, Next(d, a), b)))
  }

  /** The cells of the window whose flow path passes through `c` (including `c`). */
  ghost function Upslope(d: Dem, c: Cell): set<Cell>
  {
    set x: int, y: int | 0 <= x < d.z.nx && 0 <= y < d.z.ny && Reaches(d, Cell(x, y), c) :: Cell(x, y)
  }

  lemma DrainsReaches(d: Dem, c: Cell, i: int)
    requires 0 <= i < 8 && Drains(d, c, i)
    ensures Reaches(d, Neighbour(c, i), c)
  {
    OppositeNeighbour(c, i);
  }

  /** Flow paths descend strictly. */
  lemma {:induction false} ReachesDescends(d: Dem, a: Cell, b: Cell)
    requires Reaches(d, a, b) && a != b
    ensures d.z.Valid(a) && d.z.Valid(b) && d.z.Get(b) < d.z.Get(a)
    decreases Depth(d, a)
  {
    DirDescends(d, a);
    if Next(d, a) != b {
      ReachesDescends(d, Next(d, a), b);
    }
  }

  lemma {:induction false} ReachesTrans(d: Dem, a: Cell, b: Cell, c: Cell)
    requires Reaches(d, a, b) && Reaches(d, b, c)
    ensures Reaches(d, a, c)
    decreases Depth(d, a)
  {
    if a != b {
      DirDescends(d, a);
      ReachesTrans(d, Next(d, a), b, c);
    }
  }

  /** Two cells on the flow path of `a` lie on one path, one after the other. */
  lemma {:induction false} ReachesLinear(d: Dem, a: Cell, p: Cell, q: Cell)
    requires Reaches(d, a, p) && Reaches(d, a, q)
    ensures Reaches(d, p, q) || Reaches(d, q, p)
    decreases Depth(d, a)
  {
    if a != p && a != q {
      DirDescends(d, a);
      ReachesLinear(d, Next(d, a), p, q);
    }
  }

  /** The last step of a flow path into `c` comes from a neighbour that drains into `c`. */
  lemma {:induction false} ReachesLastStep(d: Dem, a: Cell, c: Cell) returns (i: int)
    requires Reaches(d, a, c) && a != c
    ensures 0 <= i < 8 && Drains(d, c, i) && Reaches(d, a, Neighbour(c, i))
    decreases Depth(d, a)
  {
    var n := Next(d, a);
    DirDescends(d, a);
    if n == c {
      var k := Dir(d, a);
      i := (k + 4) % 8;
      OppositeNeighbour(a, k);
      OppositeTwice(k);
      assert Neighbour(c, i) == a;
    } else {
      i := ReachesLastStep(d, n, c);
    }
  }

  /** A path into a draining neighbour continues into `c`. */
  lemma ReachesThrough(d: Dem, a: Cell, c: Cell, i: int)
    requires 0 <= i < 8 && Drains(d, c, i) && Reaches(d, a, Neighbour(c, i))
    ensures Reaches(d, a, c)
  {
    DrainsReaches(d, c, i);
    ReachesTrans(d, a, Neighbour(c, i), c);
  }

  /** The upslope areas of two different neighbours draining into `c` are disjoint. */
  lemma DrainersDisjoint(d: Dem, c: Cell, i: int, j: int, a: Cell)
    requires 0 <= i < 8 && 0 <= j < 8 && i != j
    requires Drains(d, c, i) && Drains(d, c, j)
    requires Reaches(d, a, Neighbour(c, i))
    ensures !Reaches(d, a, Neighbour(c, j))
  {
    var p, q := Neighbour(c, i), Neighbour(c, j);
    NeighboursDistinct(c, i, j);
    DrainsUphill(d, c, i);
    DrainsUphill(d, c, j);
    if Reaches(d, a, q) {
      ReachesLinear(d, a, p, q);
      if Reaches(d, p, q) {
        DrainsReaches(d, c, i);
        OppositeNeighbour(c, i);
        assert Next(d, p) == c;
        ReachesDescends(d, c, q);
      } else {
        DrainsReaches(d, c, j);
        OppositeNeighbour(c, j);
        assert Next(d, q) == c;
        ReachesDescends(d, c, p);
      }
    }
  }

  /** A cell is never upslope of a neighbour that drains into it. */
  lemma NotAboveDrainer(d: Dem, c: Cell, i: int)
    requires 0 <= i < 8 && Drains(d, c, i)
    ensures !Reaches(d, c, Neighbour(c, i))
  {
    DrainsUphill(d, c, i);
    OppositeNeighbour(c, i);
    if Reaches(d, c, Neighbour(c, i)) {
      ReachesDescends(d, c, Neighbour(c, i));
    }
  }

  /** The direction, seen from `c`, of the neighbour through which the path from `a` enters `c`. */
  function LastStep(d: Dem, a: Cell, c: Cell): int
    requires Reaches(d, a, c) && a != c
    decreases Depth(d, a)
  {
    DirDescends(d, a);
    if Next(d, a) == c then (Dir(d, a) + 4) % 8 else LastStep(d, Next(d, a), c)
  }

  lemma {:induction false} LastStepDrains(d: Dem, a: Cell, c: Cell)
    requires Reaches(d, a, c) && a != c
    ensures 0 <= LastStep(d, a, c) < 8
    ensures Drains(d, c, LastStep(d, a, c)) && Reaches(d, a, Neighbour(c, LastStep(d, a, c)))
    decreases Depth(d, a)
  {
    DirDescends(d, a);
    if Next(d, a) == c {
      var k := Dir(d, a);
      OppositeNeighbour(a, k);
      OppositeTwice(k);
      assert LastStep(d, a, c) == (k + 4) % 8;
      assert Neighbour(c, (k + 4) % 8) == a;
    } else {
      LastStepDrains(d, Next(d, a), c);
      var j := LastStep(d, a, c);
      assert j == LastStep(d, Next(d, a), c);
      assert Reaches(d, Next(d, a), Neighbour(c, j));
    }
  }

  /** The cells upslope of draining neighbour `i` are those whose path enters `c` from `i`. */
  lemma BranchIff(d: Dem, c: Cell, i: int, a: Cell)
    requires 0 <= i < 8 && Drains(d, c, i)
    ensures Reaches(d, a, Neighbour(c, i)) <==> a != c && Reaches(d, a, c) && LastStep(d, a, c) == i
  {
    if Reaches(d, a, Neighbour(c, i)) {
      ReachesThrough(d, a, c, i);
      if a == c {
        NotAboveDrainer(d, c, i);
      } else {
        LastStepDrains(d, a, c);
        var j := LastStep(d, a, c);
        if j != i {
          DrainersDisjoint(d, c, i, j, a);
        }
      }
    }
    if a != c && Reaches(d, a, c) && LastStep(d, a, c) == i {
      LastStepDrains(d, a, c);
    }
  }

  /**
   * Progress of a walk over the neighbours of `c`: `a` is `c` itself or lies
   * upslope of one of the draining neighbours `0..i-1`.
   */
  ghost predicate Covered(d: Dem, c: Cell, a: Cell, i: int)
  {
    a == c || (a != c && Reaches(d, a, c) && LastStep(d, a, c) < i)
  }

  lemma CoveredStep(d: Dem, c: Cell, i: int, a: Cell)
    requires 0 <= i < 8
    ensures Covered(d, c, a, i + 1) <==> Covered(d, c, a, i) || (Drains(d, c, i) && Reaches(d, a, Neighbour(c, i)))
  {
    if Drains(d, c, i) {
      BranchIff(d, c, i, a);
    }
    if a != c && Reaches(d, a, c) {
      LastStepDrains(d, a, c);
    }
  }

  lemma CoveredEnds(d: Dem, c: Cell, a: Cell)
    ensures Covered(d, c, a, 0) <==> a == c
    ensures Covered(d, c, a, 8) <==> Reaches(d, a, c)
  {
    if a != c && Reaches(d, a, c) {
      LastStepDrains(d, a, c);
    }
  }

  /** Union of the upslope areas of the neighbours `k..7` that drain into `c`. */
  ghost function Branches(d: Dem, c: Cell, k: int): set<Cell>
    requires 0 <= k <= 8
    decreases 8 - k
  {
    if k == 8 then {}
    else (if Drains(d, c, k) then Upslope(d, Neighbour(c, k)) else {}) + Branches(d, c, k + 1)
  }

  /** A member of the branches lies upslope of one of the draining neighbours `k..7`. */
  lemma {:induction false} BranchOf(d: Dem, c: Cell, k: int, a: Cell) returns (i: int)
    requires 0 <= k <= 8 && a in Branches(d, c, k)
    ensures k <= i < 8 && Drains(d, c, i) && Reaches(d, a, Neighbour(c, i)) && d.z.InWindow(a)
    decreases 8 - k
  {
    if Drains(d, c, k) && a in Upslope(d, Neighbour(c, k)) {
      i := k;
    } else {
      i := BranchOf(d, c, k + 1, a);
    }
  }

  /** Every window cell upslope of a draining neighbour `i >= k` belongs to the branches. */
  lemma {:induction false} InBranches(d: Dem, c: Cell, k: int, i: int, a: Cell)
    requires 0 <= k <= i < 8 && Drains(d, c, i) && Reaches(d, a, Neighbour(c, i)) && d.z.InWindow(a)
    ensures a in Branches(d, c, k)
    decreases 8 - k
  {
    if k == i {
      InUpslope(d, a, Neighbour(c, k));
    } else {
      InBranches(d, c, k + 1, i, a);
    }
  }

  /** The cells of the window whose flow path passes through `c`. */
  lemma InUpslope(d: Dem, a: Cell, c: Cell)
    ensures a in Upslope(d, c) <==> d.z.InWindow(a) && Reaches(d, a, c)
  {
    assert a == Cell(a.x, a.y);
  }

  /** Removing `t` from disjoint sets keeps their sizes apart. */
  lemma DiffUnion(a: set<Cell>, b: set<Cell>, t: set<Cell>)
    requires a !! b
    ensures |(a + b) - t| == |a - t| + |b - t|
  {
    assert (a + b) - t == (a - t) + (b - t);
    assert (a - t) !! (b - t);
  }

  /** The upslope area of `c` is `c` plus the upslope areas of its draining neighbours. */
  lemma UpslopeSplit(d: Dem, c: Cell)
    requires d.z.InWindow(c)
    ensures Upslope(d, c) == {c} + Branches(d, c, 0)
    ensures c !in Branches(d, c, 0)
  {
    forall a | a in Upslope(d, c)
      ensures a in {c} + Branches(d, c, 0)
    {
      if a != c {
        var i := ReachesLastStep(d, a, c);
        InBranches(d, c, 0, i, a);
      }
    }
    forall a | a in Branches(d, c, 0)
      ensures a in Upslope(d, c)
    {
      var i := BranchOf(d, c, 0, a);
      ReachesThrough(d, a, c, i);
      InUpslope(d, a, c);
    }
    InUpslope(d, c, c);
    if c in Branches(d, c, 0) {
      var i := BranchOf(d, c, 0, c);
      NotAboveDrainer(d, c, i);
    }
  }

  /** The upslope area of draining neighbour `k` shares nothing with the later branches. */
  lemma BranchDisjoint(d: Dem, c: Cell, k: int)
    requires 0 <= k < 8 && Drains(d, c, k)
    ensures Upslope(d, Neighbour(c, k)) !! Branches(d, c, k + 1)
  {
    forall a | a in Upslope(d, Neighbour(c, k)) && a in Branches(d, c, k + 1)
      ensures false
    {
      var i := BranchOf(d, c, k + 1, a);
      DrainersDisjoint(d, c, k, i, a);
    }
  }

  function Filter(s: set<Cell>, p: Cell -> bool): set<Cell>
  {
    set a | a in s && p(a)
  }

  lemma FilterUnion(a: set<Cell>, b: set<Cell>, p: Cell -> bool)
    requires a !! b
    ensures |Filter(a + b, p)| == |Filter(a, p)| + |Filter(b, p)|
  {
    assert Filter(a + b, p) == Filter(a, p) + Filter(b, p);
    assert Filter(a, p) !! Filter(b, p);
  }

  lemma FilterSingle(c: Cell, p: Cell -> bool)
    ensures |Filter({c}, p)| == if p(c) then 1 else 0
  {
    if p(c) {
      assert Filter({c}, p) == {c};
    } else {
      assert Filter({c}, p) == {};
    }
  }

  /**
   * The accumulated count of cells satisfying `p`, computed as the algorithms
   * do: the cell itself, plus the counts of the neighbours draining into it.
   */
  ghost function UpCount(d: Dem, p: Cell -> bool, c: Cell): nat
    decreases Height(d, c), 9
  {
    (if p(c) then 1 else 0) + UpCountFrom(d, p, c, 0)
  }

  ghost function UpCountFrom(d: Dem, p: Cell -> bool, c: Cell, k: int): nat
    requires 0 <= k <= 8
    decreases Height(d, c), 8 - k
  {
    if k == 8 then 0
    else
      (if Drains(d, c, k) then (DrainsUphill(d, c, k); UpCount(d, p, Neighbour(c, k))) else 0)
      + UpCountFrom(d, p, c, k + 1)
  }

  /**
   * Flow conservation on D8: the accumulated count at `c` is the number of
   * cells satisfying `p` whose flow path passes through `c`.
   */
  lemma {:induction false} UpCountIsUpslopeCount(d: Dem, p: Cell -> bool, c: Cell)
    requires d.z.InWindow(c)
    ensures UpCount(d, p, c) == |Filter(Upslope(d, c), p)|
    decreases Height(d, c), 9
  {
    UpslopeSplit(d, c);
    BranchesCount(d, p, c, 0);
    FilterUnion({c}, Branches(d, c, 0), p);
    FilterSingle(c, p);
  }

  lemma {:induction false} BranchesCount(d: Dem, p: Cell -> bool, c: Cell, k: int)
    requires 0 <= k <= 8
    ensures UpCountFrom(d, p, c, k) == |Filter(Branches(d, c, k), p)|
    decreases Height(d, c), 8 - k
  {
    if k == 8 {
      assert Filter({}, p) == {};
    } else {
      BranchesCount(d, p, c, k + 1);
      if Drains(d, c, k) {
        DrainsUphill(d, c, k);
        UpCountIsUpslopeCount(d, p, Neighbour(c, k));
        BranchDisjoint(d, c, k);
        FilterUnion(Upslope(d, Neighbour(c, k)), Branches(d, c, k + 1), p);
        assert Branches(d, c, k) == Upslope(d, Neighbour(c, k)) + Branches(d, c, k + 1);
        assert UpCountFrom(d, p, c, k) == UpCount(d, p, Neighbour(c, k)) + UpCountFrom(d, p, c, k + 1);
      } else {
        assert Branches(d, c, k) == Branches(d, c, k + 1);
        assert UpCountFrom(d, p, c, k) == UpCountFrom(d, p, c, k + 1);
      }
    }
  }
}
