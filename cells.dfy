/**
 * The host's grid-cell record (a position and the value read there) and the
 * two library operations the algorithms apply to lists of them: the stable
 * sort by value and the search by position.
 */
module Cells {
  import opened Grid

  /** A cell position together with a raster value read at it. */
  datatype GridCell = GridCell(x: int, y: int, value: real)
  {
    function Pos(): Cell
    {
      Cell(x, y)
    }
  }

  /** The list is in non-decreasing order of value, as the cells' ordering compares them. */
  predicate SortedByValue(s: seq<GridCell>)
  {
    forall i, j | 0 <= i < j < |s| :: s[i].value <= s[j].value
  }

  /** Inserts `g` in front of the first entry that is not smaller. */
  function Insert(g: GridCell, s: seq<GridCell>): (r: seq<GridCell>)
    requires SortedByValue(s)
    ensures SortedByValue(r)
    ensures multiset(r) == multiset(s) + multiset{g}
    ensures forall k | 0 <= k < |r| :: r[k] == g || r[k] in s
  {
    if |s| == 0 || g.value <= s[0].value then
      [g] + s
    else
      var t := Insert(g, s[1..]);
      InsertBehind(g, s, t);
      [s[0]] + t
  }

  /** Putting the head back in front of the insertion into the tail. */
  lemma InsertBehind(g: GridCell, s: seq<GridCell>, t: seq<GridCell>)
    requires SortedByValue(s) && |s| > 0 && g.value > s[0].value
    requires SortedByValue(t) && multiset(t) == multiset(s[1..]) + multiset{g}
    requires forall k | 0 <= k < |t| :: t[k] == g || t[k] in s[1..]
    ensures SortedByValue([s[0]] + t)
    ensures multiset([s[0]] + t) == multiset(s) + multiset{g}
    ensures forall k | 0 <= k < |t| + 1 :: ([s[0]] + t)[k] == g || ([s[0]] + t)[k] in s
  {
    assert s == [s[0]] + s[1..];
    LeastFirst(s, t, g);
    var r := [s[0]] + t;
    forall i, j | 0 <= i < j < |r|
      ensures r[i].value <= r[j].value
    {
      assert r[j] == t[j - 1];
      if i > 0 {
        assert r[i] == t[i - 1];
      }
    }
    forall k | 0 < k < |r| && r[k] != g
      ensures r[k] in s
    {
      assert r[k] == t[k - 1] && t[k - 1] in s[1..];
    }
  }

  /** What is inserted behind the head is no smaller than the head. */
  lemma LeastFirst(s: seq<GridCell>, t: seq<GridCell>, g: GridCell)
    requires SortedByValue(s) && |s| > 0 && g.value > s[0].value
    requires forall k | 0 <= k < |t| :: t[k] == g || t[k] in s[1..]
    ensures forall k | 0 <= k < |t| :: s[0].value <= t[k].value
  {
    forall k | 0 <= k < |t|
      ensures s[0].value <= t[k].value
    {
      if t[k] != g {
        var j :| 0 <= j < |s[1..]| && s[1..][j] == t[k];
        assert s[j + 1] == t[k];
      }
    }
  }

  /** The entries of `s` with value `v`, in their order in `s`. */
  function WithValue(s: seq<GridCell>, v: real): seq<GridCell>
  {
    if |s| == 0 then [] else (if s[0].value == v then [s[0]] else []) + WithValue(s[1..], v)
  }

  /** Insertion puts `g` in front of every entry with the same value. */
  lemma {:induction false} InsertStable(g: GridCell, s: seq<GridCell>, v: real)
    requires SortedByValue(s)
    ensures WithValue(Insert(g, s), v) == (if g.value == v then [g] else []) + WithValue(s, v)
  {
    if |s| == 0 || g.value <= s[0].value {
      assert ([g] + s)[1..] == s;
    } else {
      var t := Insert(g, s[1..]);
      var head := if s[0].value == v then [s[0]] else [];
      var mine := if g.value == v then [g] else [];
      assert ([s[0]] + t)[1..] == t;
      InsertStable(g, s[1..], v);
      calc {
        WithValue(Insert(g, s), v);
        WithValue([s[0]] + t, v);
        head + WithValue(t, v);
        head + (mine + WithValue(s[1..], v));
        { Swap(head, mine, WithValue(s[1..], v)); }
        mine + (head + WithValue(s[1..], v));
        mine + WithValue(s, v);
      }
    }
  }

  /** Two lists of which one is empty commute in front of a third. */
  lemma Swap(a: seq<GridCell>, b: seq<GridCell>, c: seq<GridCell>)
    requires a == [] || b == []
    ensures a + (b + c) == b + (a + c)
  {
    if a == [] {
      assert a + (b + c) == b + c == b + (a + c);
    } else {
      assert a + (b + c) == a + c == b + (a + c);
    }
  }

  /**
   * The library sort of a list of cells by value: stable (the entries of
   * each value keep their order), so it agrees with any other stable sort of
   * the same list.
   */
  function Sort(s: seq<GridCell>): (r: seq<GridCell>)
    ensures SortedByValue(r)
    ensures multiset(r) == multiset(s)
    ensures |r| == |s|
    ensures forall v :: WithValue(r, v) == WithValue(s, v)
  {
    if |s| == 0 then []
    else
      assert s == [s[0]] + s[1..];
      var t := Sort(s[1..]);
      assert forall v :: WithValue(Insert(s[0], t), v) == WithValue(s, v) by {
        forall v
          ensures WithValue(Insert(s[0], t), v) == WithValue(s, v)
        {
          InsertStable(s[0], t, v);
        }
      }
      Insert(s[0], t)
  }

  /** The list's search by position: the first index holding cell `c`, or -1. */
  function IndexOf(s: seq<GridCell>, c: Cell): (r: int)
    ensures -1 <= r < |s|
    ensures r >= 0 ==> s[r].Pos() == c && forall k | 0 <= k < r :: s[k].Pos() != c
    ensures r == -1 <==> forall k | 0 <= k < |s| :: s[k].Pos() != c
  {
    if |s| == 0 then -1
    else if s[|s| - 1].Pos() == c && IndexOf(s[..|s| - 1], c) == -1 then |s| - 1
    else
      var r := IndexOf(s[..|s| - 1], c);
      assert forall k | 0 <= k < |s| - 1 :: s[..|s| - 1][k] == s[k];
      r
  }
}
