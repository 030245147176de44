/**
 * Watershed labelling from a channel network: outlets are processed from the
 * highest to the lowest, each labelling the still unlabelled cells of its
 * upslope area with the next basin id; a basin smaller than the minimum size
 * gives its id back to the counter.
 */
module Watersheds {
  import opened Grid
  import opened Drainage
  import opened Cells
  import opened WatershedDirections
  import opened WatershedOutlets
  import opened WatershedBasins

  /** The outlets in the order `calculateBasins` sorts them: by elevation, stably. */
  ghost function SortedOutlets(d: Dem, net: Layer<int>): seq<GridCell>
  {
    Sort(AllOutlets(d.z, net, StoredDirs(d)))
  }

  /** The outlet handled at step `j`: the sorted list is walked from its end. */
  function OutletAt(s: seq<GridCell>, j: int): Cell
    requires 0 <= j < |s|
  {
    s[|s| - 1 - j].Pos()
  }

  /** The upslope area of every step's outlet, in processing order. */
  ghost function Areas(d: Dem, s: seq<GridCell>): (u: seq<set<Cell>>)
    ensures |u| == |s|
  {
    seq(|s|, j requires 0 <= j < |s| => Upslope(d, OutletAt(s, j)))
  }

  /** The cells labelled after the first `j` steps: the union of their areas. */
  function Covering(u: seq<set<Cell>>, j: int): set<Cell>
    requires 0 <= j <= |u|
  {
    if j == 0 then {} else Covering(u, j - 1) + u[j - 1]
  }

  /** The cells step `j` labels: those of its area not labelled before. */
  function Fresh(u: seq<set<Cell>>, j: int): set<Cell>
    requires 0 <= j < |u|
  {
    u[j] - Covering(u, j)
  }

  /** The basin counter after the first `j` steps: a step below `minSize` gives its id back. */
  function Counter(u: seq<set<Cell>>, minSize: int, j: int): int
    requires 0 <= j <= |u|
  {
    if j == 0 then 0 else Counter(u, minSize, j - 1) + if |Fresh(u, j - 1)| < minSize then 0 else 1
  }

  /** A basin raster with no cell labelled. */
  function Unlabelled(z: Layer<real>): map<Cell, int>
  {
    map x, y | 0 <= x < z.nx && 0 <= y < z.ny :: Cell(x, y) := NoBasin
  }

  /** The basin raster after the first `j` steps: step `i` paints its fresh cells `Counter(i) + 1`. */
  function Labels(m0: map<Cell, int>, u: seq<set<Cell>>, minSize: int, j: int): map<Cell, int>
    requires 0 <= j <= |u|
  {
    if j == 0 then m0
    else Paint(Labels(m0, u, minSize, j - 1), Fresh(u, j - 1), Counter(u, minSize, j - 1) + 1)
  }

  /** Every cell of `m0` is unlabelled. */
  predicate Blank(m0: map<Cell, int>)
  {
    forall a | a in m0 :: m0[a] == NoBasin
  }

  /**
   * `calculateBasins`: directions, outlets sorted by elevation, then every
   * outlet from the highest down labels its basin.
   */
  method CalculateBasins(d: Dem, net: Layer<int>, minSize: int) returns (basins: array2<int>)
    ensures fresh(basins) && Shaped(basins, d)
    ensures var e := Inner(d);
      Snapshot(basins) == Labels(Unlabelled(d.z), Areas(e, SortedOutlets(e, net)), minSize, |SortedOutlets(e, net)|)
  {
    var e := Inner(d);
    var dirs := PrepareDirections(e);
    DirsAreStored(e, dirs);
    var outlets := GetOutlets(e.z, net, dirs);
    var sorted := Sort(outlets);
    basins := NewBasins(d.z);
    LabelOutlets(e, dirs, basins, sorted, minSize);
  }

  /**
   * The loop of `calculateBasins` over a fresh basins raster: its index runs
   * down the sorted outlets from the last (highest); step `j` is the turn
   * with index `|sorted| - 1 - j`.
   */
  method LabelOutlets(d: Dem, dirs: array2<int>, basins: array2<int>, sorted: seq<GridCell>, minSize: int)
    requires Rasters(d, dirs, basins) && Snapshot(basins) == Unlabelled(d.z)
    modifies basins
    ensures Snapshot(basins) == Labels(Unlabelled(d.z), Areas(d, sorted), minSize, |sorted|)
  {
    var counter := 0;
    for j := 0 to |sorted|
      invariant Turns(d, dirs, basins, sorted, minSize, j)
      invariant counter == Counter(Areas(d, sorted), minSize, j)
    {
      counter := ProcessOutlet(d, dirs, basins, sorted, minSize, j, counter);
    }
  }

  /** After the first `j` turns the rasters still fit and `basins` holds the labels of those turns. */
  ghost predicate Turns(d: Dem, dirs: array2<int>, basins: array2<int>, s: seq<GridCell>, minSize: int, j: int)
    reads dirs, basins
  {
    0 <= j <= |s| && Rasters(d, dirs, basins) && Snapshot(basins) == Labels(Unlabelled(d.z), Areas(d, s), minSize, j)
  }

  /** The basins raster before any outlet is handled: every cell `NoBasin`. */
  method NewBasins(z: Layer<real>) returns (basins: array2<int>)
    ensures fresh(basins) && basins.Length0 == z.nx && basins.Length1 == z.ny
    ensures Snapshot(basins) == Unlabelled(z)
  {
    basins := new int[z.nx, z.ny]((x, y) => NoBasin);
    forall c | c in Unlabelled(z)
      ensures c in Snapshot(basins) && Snapshot(basins)[c] == NoBasin
    {
      UnlabelledKeys(z, c);
    }
    assert Snapshot(basins).Keys == Unlabelled(z).Keys;
  }

  /**
   * One turn of `calculateBasins`'s loop: the next basin id labels the
   * outlet's basin; when that basin is smaller than `minSize`, the counter is
   * set to `NoBasin` for a second `getBasin` from the same outlet and then
   * restored to the id before.
   */
  method ProcessOutlet(d: Dem, dirs: array2<int>, basins: array2<int>, s: seq<GridCell>, minSize: int, j: int, counter: int)
    returns (counter': int)
    requires j < |s| && Turns(d, dirs, basins, s, minSize, j)
    requires counter == Counter(Areas(d, s), minSize, j)
    modifies basins
    ensures Turns(d, dirs, basins, s, minSize, j + 1)
    ensures counter' == Counter(Areas(d, s), minSize, j + 1)
  {
    counter' := counter + 1;
    var o := OutletAt(s, j);
    var n := LabelStep(d, dirs, basins, s, minSize, j, counter');
    CounterStep(Areas(d, s), minSize, j, n);
    if n < minSize {
      var saved := counter' - 1;
      counter' := NoBasin;
      UndoStep(d, dirs, basins, s, minSize, j, counter');
      counter' := saved;
    }
  }

  /** The first `getBasin` of step `j`: step `j`'s fresh cells get its id and are counted. */
  method LabelStep(d: Dem, dirs: array2<int>, basins: array2<int>, s: seq<GridCell>, minSize: int, j: int, id: int)
    returns (n: int)
    requires 0 <= j < |s| && Rasters(d, dirs, basins)
    requires Snapshot(basins) == Labels(Unlabelled(d.z), Areas(d, s), minSize, j)
    requires id == Counter(Areas(d, s), minSize, j) + 1
    modifies basins
    ensures Snapshot(basins) == Labels(Unlabelled(d.z), Areas(d, s), minSize, j + 1)
    ensures n == |Fresh(Areas(d, s), j)|
  {
    var o := OutletAt(s, j);
    ReadyAt(d, basins, s, minSize, j, o);
    FreshIsUnlabelled(d, s, j);
    n := GetBasin(d, dirs, basins, id, o, Covering(Areas(d, s), j));
    PaintedStep(Snapshot(basins), Unlabelled(d.z), Areas(d, s), minSize, j, Upslope(d, o) - Covering(Areas(d, s), j), id);
  }

  /** Step `j`'s fresh cells are what `getBasin` from its outlet finds unlabelled. */
  lemma FreshIsUnlabelled(d: Dem, s: seq<GridCell>, j: int)
    requires 0 <= j < |s|
    ensures Fresh(Areas(d, s), j) == Upslope(d, OutletAt(s, j)) - Covering(Areas(d, s), j)
  {
  }

  /** The second `getBasin` of step `j`, with the counter at `id`. */
  method UndoStep(d: Dem, dirs: array2<int>, basins: array2<int>, s: seq<GridCell>, minSize: int, j: int, id: int)
    requires 0 <= j < |s| && Rasters(d, dirs, basins)
    requires Snapshot(basins) == Labels(Unlabelled(d.z), Areas(d, s), minSize, j + 1)
    modifies basins
    ensures Snapshot(basins) == old(Snapshot(basins))
  {
    UndoReady(d, basins, s, minSize, j);
    Rollback(d, dirs, basins, id, OutletAt(s, j), Covering(Areas(d, s), j + 1));
  }

  /**
   * The second `getBasin` of a basin below the minimum size, with the counter
   * at `id`: it starts at the outlet `c`, whose upslope area is already
   * labelled, so it changes nothing.
   */
  method Rollback(d: Dem, dirs: array2<int>, basins: array2<int>, id: int, c: Cell, ghost taken: set<Cell>)
    requires Rasters(d, dirs, basins) && Ready(d, basins, c, taken) && Upslope(d, c) - taken == {}
    modifies basins
    ensures Snapshot(basins) == old(Snapshot(basins))
  {
    var none := GetBasin(d, dirs, basins, id, c, taken);
    PaintNothing(old(Snapshot(basins)), id);
  }

  /** A raster holding the labels before step `j` is ready for `getBasin` at `c`. */
  lemma ReadyAt(d: Dem, w: array2<int>, s: seq<GridCell>, minSize: int, j: int, c: Cell)
    requires 0 <= j <= |s| && Snapshot(w) == Labels(Unlabelled(d.z), Areas(d, s), minSize, j)
    ensures Ready(d, w, c, Covering(Areas(d, s), j))
  {
    StepReady(d, s, minSize, j, c);
  }

  /** After step `j` the raster is ready for a second `getBasin` from its outlet, which finds nothing to label. */
  lemma UndoReady(d: Dem, w: array2<int>, s: seq<GridCell>, minSize: int, j: int)
    requires 0 <= j < |s| && Snapshot(w) == Labels(Unlabelled(d.z), Areas(d, s), minSize, j + 1)
    ensures Ready(d, w, OutletAt(s, j), Covering(Areas(d, s), j + 1))
    ensures Upslope(d, OutletAt(s, j)) - Covering(Areas(d, s), j + 1) == {}
  {
    ReadyAt(d, w, s, minSize, j + 1, OutletAt(s, j));
    AlreadyCovered(d, s, j);
  }

  /** After step `j`, nothing upslope of its outlet is left unlabelled. */
  lemma AlreadyCovered(d: Dem, s: seq<GridCell>, j: int)
    requires 0 <= j < |s|
    ensures Upslope(d, OutletAt(s, j)) - Covering(Areas(d, s), j + 1) == {}
  {
  }

  /** Step `j` takes a new id exactly when its basin has at least `minSize` cells. */
  lemma CounterStep(u: seq<set<Cell>>, minSize: int, j: int, n: int)
    requires 0 <= j < |u| && n == |Fresh(u, j)|
    ensures Counter(u, minSize, j + 1) == Counter(u, minSize, j) + if n < minSize then 0 else 1
  {
  }

  /** A raster painted as step `j` paints holds the labels after step `j`. */
  lemma PaintedStep(m: map<Cell, int>, m0: map<Cell, int>, u: seq<set<Cell>>, minSize: int, j: int, painted: set<Cell>, id: int)
    requires 0 <= j < |u| && painted == Fresh(u, j) && id == Counter(u, minSize, j) + 1
    requires m == Paint(Labels(m0, u, minSize, j), painted, id)
    ensures m == Labels(m0, u, minSize, j + 1)
  {
  }

  /** The labels before step `j` are what `getBasin` needs at the outlet `c`. */
  lemma StepReady(d: Dem, s: seq<GridCell>, minSize: int, j: int, c: Cell)
    requires 0 <= j <= |s|
    ensures Agrees(d, Labels(Unlabelled(d.z), Areas(d, s), minSize, j), c, Covering(Areas(d, s), j))
    ensures ClosedUp(d, c, Covering(Areas(d, s), j))
  {
    var u := Areas(d, s);
    var m0 := Unlabelled(d.z);
    forall a | d.z.InWindow(a) && Reaches(d, a, c)
      ensures a in Labels(m0, u, minSize, j) && (Labels(m0, u, minSize, j)[a] != NoBasin <==> a in Covering(u, j))
    {
      UnlabelledKeys(d.z, a);
      LabelsAgree(m0, u, minSize, j, a);
    }
    forall a, b | a in Covering(u, j) && Reaches(d, a, c) && Reaches(d, b, a) && d.z.InWindow(b)
      ensures b in Covering(u, j)
    {
      CoveringClosed(d, s, j, a, b);
    }
  }

  /** The blank raster's cells are the window's. */
  lemma UnlabelledKeys(z: Layer<real>, a: Cell)
    ensures a in Unlabelled(z) <==> z.InWindow(a)
    ensures Blank(Unlabelled(z))
  {
    assert a == Cell(a.x, a.y);
  }

  /** The area of step `j`: the window cells whose flow path passes through its outlet. */
  lemma AreaAt(d: Dem, s: seq<GridCell>, j: int, a: Cell)
    requires 0 <= j < |s|
    ensures a in Areas(d, s)[j] <==> d.z.InWindow(a) && Reaches(d, a, OutletAt(s, j))
  {
    InUpslope(d, a, OutletAt(s, j));
  }

  /** A labelled cell is a window cell whose flow path passes through an earlier outlet. */
  lemma CoveringMeaning(d: Dem, s: seq<GridCell>, j: int, a: Cell)
    requires 0 <= j <= |s|
    ensures a in Covering(Areas(d, s), j) <==> d.z.InWindow(a) && exists i | 0 <= i < j :: Reaches(d, a, OutletAt(s, i))
  {
    CoverMembers(Areas(d, s), j, a);
    forall i | 0 <= i < j
      ensures a in Areas(d, s)[i] <==> d.z.InWindow(a) && Reaches(d, a, OutletAt(s, i))
    {
      AreaAt(d, s, i, a);
    }
  }

  /** A cell is labelled after `j` steps exactly when one of them has it in its area. */
  lemma {:induction false} CoverMembers(u: seq<set<Cell>>, j: int, a: Cell)
    requires 0 <= j <= |u|
    ensures a in Covering(u, j) <==> exists i | 0 <= i < j :: a in u[i]
  {
    if j > 0 {
      CoverMembers(u, j - 1, a);
    }
  }

  /** Everything above a labelled cell is labelled. */
  lemma CoveringClosed(d: Dem, s: seq<GridCell>, j: int, a: Cell, b: Cell)
    requires 0 <= j <= |s| && a in Covering(Areas(d, s), j) && Reaches(d, b, a) && d.z.InWindow(b)
    ensures b in Covering(Areas(d, s), j)
  {
    CoveringMeaning(d, s, j, a);
    CoveringMeaning(d, s, j, b);
    var i :| 0 <= i < j && Reaches(d, a, OutletAt(s, i));
    ReachesTrans(d, b, a, OutletAt(s, i));
  }

  /**
   * Step `j` labels exactly the window cells whose flow path passes through
   * its outlet and through no outlet handled before.
   */
  lemma FreshMeaning(d: Dem, s: seq<GridCell>, j: int, a: Cell)
    requires 0 <= j < |s|
    ensures a in Fresh(Areas(d, s), j) <==>
      d.z.InWindow(a) && Reaches(d, a, OutletAt(s, j)) && forall i | 0 <= i < j :: !Reaches(d, a, OutletAt(s, i))
  {
    CoveringMeaning(d, s, j, a);
    AreaAt(d, s, j, a);
  }

  /** The counter is never negative. */
  lemma {:induction false} CounterNonNegative(u: seq<set<Cell>>, minSize: int, j: int)
    requires 0 <= j <= |u|
    ensures 0 <= Counter(u, minSize, j)
  {
    if j > 0 {
      CounterNonNegative(u, minSize, j - 1);
    }
  }

  /** The counter never decreases and grows by at most one a step. */
  lemma {:induction false} CounterBounds(u: seq<set<Cell>>, minSize: int, i: int, j: int)
    requires 0 <= i <= j <= |u|
    ensures Counter(u, minSize, i) <= Counter(u, minSize, j) <= Counter(u, minSize, i) + (j - i)
  {
    if i < j {
      CounterBounds(u, minSize, i, j - 1);
    }
  }

  /** Once labelled, a cell stays labelled. */
  lemma {:induction false} CoveringGrows(u: seq<set<Cell>>, i: int, j: int)
    requires 0 <= i <= j <= |u|
    ensures Covering(u, i) <= Covering(u, j)
  {
    if i < j {
      CoveringGrows(u, i, j - 1);
    }
  }

  /** No cell is labelled by two steps. */
  lemma FreshDisjoint(u: seq<set<Cell>>, i: int, j: int)
    requires 0 <= i < j < |u|
    ensures Fresh(u, i) !! Fresh(u, j)
  {
    CoveringGrows(u, i + 1, j);
  }

  /**
   * The labels agree with the covering: the raster keeps its cells, and a
   * cell carries a basin exactly when some step so far labelled it.
   */
  lemma {:induction false} LabelsAgree(m0: map<Cell, int>, u: seq<set<Cell>>, minSize: int, j: int, a: Cell)
    requires 0 <= j <= |u| && Blank(m0)
    ensures a in Labels(m0, u, minSize, j) <==> a in m0
    ensures a in m0 ==> (Labels(m0, u, minSize, j)[a] != NoBasin <==> a in Covering(u, j))
  {
    if j > 0 {
      var m := Labels(m0, u, minSize, j - 1);
      LabelsAgree(m0, u, minSize, j - 1, a);
      CounterNonNegative(u, minSize, j - 1);
      if a in m0 {
        PaintAt(m, Fresh(u, j - 1), Counter(u, minSize, j - 1) + 1, a);
      }
    }
  }

  /** Every cell step `i` labels carries that step's id `Counter(i) + 1` from then on. */
  lemma {:induction false} LabelsMeaning(m0: map<Cell, int>, u: seq<set<Cell>>, minSize: int, i: int, j: int, a: Cell)
    requires 0 <= i < j <= |u| && a in m0 && a in Fresh(u, i)
    ensures a in Labels(m0, u, minSize, j) && Labels(m0, u, minSize, j)[a] == Counter(u, minSize, i) + 1
  {
    var m := Labels(m0, u, minSize, j - 1);
    LabelsKeys(m0, u, minSize, j - 1);
    LabelsKeys(m0, u, minSize, j);
    PaintAt(m, Fresh(u, j - 1), Counter(u, minSize, j - 1) + 1, a);
    if i < j - 1 {
      LabelsMeaning(m0, u, minSize, i, j - 1, a);
      FreshDisjoint(u, i, j - 1);
    }
  }

  /** Painting keeps the raster's cells. */
  lemma {:induction false} LabelsKeys(m0: map<Cell, int>, u: seq<set<Cell>>, minSize: int, j: int)
    requires 0 <= j <= |u|
    ensures Labels(m0, u, minSize, j).Keys == m0.Keys
  {
    if j > 0 {
      LabelsKeys(m0, u, minSize, j - 1);
    }
  }

  /** A basin of at least `minSize` cells gets an id no later step uses. */
  lemma BigIdsDistinct(u: seq<set<Cell>>, minSize: int, i: int, k: int)
    requires 0 <= i < k < |u| && |Fresh(u, i)| >= minSize
    ensures Counter(u, minSize, i) + 1 < Counter(u, minSize, k) + 1
  {
    CounterBounds(u, minSize, i + 1, k);
  }

  /**
   * A basin below the minimum size keeps its labels, and the next step labels
   * its own cells with the same id: two different basins share one label.
   */
  lemma SmallBasinSharesId(m0: map<Cell, int>, u: seq<set<Cell>>, minSize: int, j: int, a: Cell, b: Cell)
    requires 0 <= j && j + 1 < |u| && |Fresh(u, j)| < minSize
    requires a in m0 && a in Fresh(u, j) && b in m0 && b in Fresh(u, j + 1)
    ensures a != b
    ensures a in Labels(m0, u, minSize, j + 2) && b in Labels(m0, u, minSize, j + 2)
    ensures Labels(m0, u, minSize, j + 2)[a] == Labels(m0, u, minSize, j + 2)[b] != NoBasin
  {
    FreshDisjoint(u, j, j + 1);
    LabelsMeaning(m0, u, minSize, j, j + 2, a);
    LabelsMeaning(m0, u, minSize, j + 1, j + 2, b);
    CounterStep(u, minSize, j, |Fresh(u, j)|);
    CounterNonNegative(u, minSize, j);
  }

  /** Two one-cell basins with a minimum size of two both end up labelled 1. */
  lemma SharedIdExample()
    ensures Labels(map[Cell(0, 0) := NoBasin, Cell(1, 0) := NoBasin], [{Cell(0, 0)}, {Cell(1, 0)}], 2, 2)
      == map[Cell(0, 0) := 1, Cell(1, 0) := 1]
  {
    var m0 := map[Cell(0, 0) := NoBasin, Cell(1, 0) := NoBasin];
    var u := [{Cell(0, 0)}, {Cell(1, 0)}];
    assert Fresh(u, 0) == {Cell(0, 0)};
    assert Counter(u, 2, 1) == 0;
    assert Labels(m0, u, 2, 1) == map[Cell(0, 0) := 1, Cell(1, 0) := NoBasin];
    assert Fresh(u, 1) == {Cell(1, 0)};
  }

  /**
   * The labelling the rollback evidently intends: a basin below the minimum
   * size is reset to `NoBasin`, so its cells stay free for later outlets and
   * its id goes to the next basin. `Kept` is what the basins kept so far cover.
   */
  function Kept(u: seq<set<Cell>>, minSize: int, j: int): set<Cell>
    requires 0 <= j <= |u|
    decreases j, 0
  {
    if j == 0 then {} else Kept(u, minSize, j - 1) + if |KeptFresh(u, minSize, j - 1)| >= minSize then u[j - 1] else {}
  }

  /** The cells step `j` would label in the intended labelling. */
  function KeptFresh(u: seq<set<Cell>>, minSize: int, j: int): set<Cell>
    requires 0 <= j < |u|
    decreases j, 1
  {
    u[j] - Kept(u, minSize, j)
  }

  /** Whether step `j`'s basin is kept in the intended labelling. */
  predicate Big(u: seq<set<Cell>>, minSize: int, j: int)
    requires 0 <= j < |u|
  {
    |KeptFresh(u, minSize, j)| >= minSize
  }

  /** The number of basins kept after `j` steps. */
  function KeptCounter(u: seq<set<Cell>>, minSize: int, j: int): int
    requires 0 <= j <= |u|
  {
    if j == 0 then 0 else KeptCounter(u, minSize, j - 1) + if Big(u, minSize, j - 1) then 1 else 0
  }

  /** The intended basin raster after `j` steps. */
  function KeptLabels(m0: map<Cell, int>, u: seq<set<Cell>>, minSize: int, j: int): map<Cell, int>
    requires 0 <= j <= |u|
  {
    if j == 0 then m0
    else if Big(u, minSize, j - 1) then
      Paint(KeptLabels(m0, u, minSize, j - 1), KeptFresh(u, minSize, j - 1), KeptCounter(u, minSize, j - 1) + 1)
    else KeptLabels(m0, u, minSize, j - 1)
  }

  /** What the kept basins cover only grows. */
  lemma {:induction false} KeptGrows(u: seq<set<Cell>>, minSize: int, i: int, j: int)
    requires 0 <= i <= j <= |u|
    ensures Kept(u, minSize, i) <= Kept(u, minSize, j)
  {
    if i < j {
      KeptGrows(u, minSize, i, j - 1);
    }
  }

  /** The kept-basin counter is never negative. */
  lemma {:induction false} KeptCounterNonNegative(u: seq<set<Cell>>, minSize: int, j: int)
    requires 0 <= j <= |u|
    ensures 0 <= KeptCounter(u, minSize, j)
  {
    if j > 0 {
      KeptCounterNonNegative(u, minSize, j - 1);
    }
  }

  /** A kept basin's cells carry its id from then on. */
  lemma {:induction false} KeptMeaning(m0: map<Cell, int>, u: seq<set<Cell>>, minSize: int, i: int, j: int, a: Cell)
    requires 0 <= i < j <= |u| && Big(u, minSize, i) && a in m0 && a in KeptFresh(u, minSize, i)
    ensures a in KeptLabels(m0, u, minSize, j) && KeptLabels(m0, u, minSize, j)[a] == KeptCounter(u, minSize, i) + 1
  {
    KeptKeys(m0, u, minSize, j - 1);
    var m := KeptLabels(m0, u, minSize, j - 1);
    if i < j - 1 {
      KeptMeaning(m0, u, minSize, i, j - 1, a);
      KeptGrows(u, minSize, i + 1, j - 1);
      if Big(u, minSize, j - 1) {
        PaintAt(m, KeptFresh(u, minSize, j - 1), KeptCounter(u, minSize, j - 1) + 1, a);
      }
    } else {
      PaintAt(m, KeptFresh(u, minSize, j - 1), KeptCounter(u, minSize, j - 1) + 1, a);
    }
  }

  /** In the intended labelling, kept basins get pairwise different ids. */
  lemma {:induction false} KeptIdsDistinct(u: seq<set<Cell>>, minSize: int, i: int, k: int)
    requires 0 <= i < k < |u| && Big(u, minSize, i)
    ensures KeptCounter(u, minSize, i) + 1 <= KeptCounter(u, minSize, k)
  {
    if k > i + 1 {
      KeptIdsDistinct(u, minSize, i, k - 1);
    }
  }

  /** The intended labelling keeps the raster's cells. */
  lemma {:induction false} KeptKeys(m0: map<Cell, int>, u: seq<set<Cell>>, minSize: int, j: int)
    requires 0 <= j <= |u|
    ensures KeptLabels(m0, u, minSize, j).Keys == m0.Keys
  {
    if j > 0 {
      KeptKeys(m0, u, minSize, j - 1);
    }
  }

  /** Every labelled cell of the intended raster belongs to a kept basin and carries its id. */
  lemma {:induction false} KeptOrigin(m0: map<Cell, int>, u: seq<set<Cell>>, minSize: int, j: int, a: Cell)
    requires 0 <= j <= |u| && Blank(m0) && a in KeptLabels(m0, u, minSize, j) && KeptLabels(m0, u, minSize, j)[a] != NoBasin
    ensures exists i | 0 <= i < j ::
              (Big(u, minSize, i) && a in KeptFresh(u, minSize, i) && KeptLabels(m0, u, minSize, j)[a] == KeptCounter(u, minSize, i) + 1)
  {
    KeptKeys(m0, u, minSize, j);
    KeptKeys(m0, u, minSize, j - 1);
    var m := KeptLabels(m0, u, minSize, j - 1);
    if Big(u, minSize, j - 1) && a in KeptFresh(u, minSize, j - 1) {
      PaintAt(m, KeptFresh(u, minSize, j - 1), KeptCounter(u, minSize, j - 1) + 1, a);
      KeptMeaning(m0, u, minSize, j - 1, j, a);
    } else {
      if Big(u, minSize, j - 1) {
        PaintAt(m, KeptFresh(u, minSize, j - 1), KeptCounter(u, minSize, j - 1) + 1, a);
      }
      KeptOrigin(m0, u, minSize, j - 1, a);
      var i :| 0 <= i < j - 1 && Big(u, minSize, i) && a in KeptFresh(u, minSize, i) && m[a] == KeptCounter(u, minSize, i) + 1;
      KeptMeaning(m0, u, minSize, i, j, a);
    }
  }

  /**
   * In the intended labelling every basin id on the raster labels at least
   * `minSize` cells.
   */
  lemma KeptSizes(m0: map<Cell, int>, u: seq<set<Cell>>, minSize: int, j: int, a: Cell)
    requires 0 <= j <= |u| && Blank(m0) && forall i | 0 <= i < |u| :: u[i] <= m0.Keys
    requires a in KeptLabels(m0, u, minSize, j) && KeptLabels(m0, u, minSize, j)[a] != NoBasin
    ensures |set b | b in KeptLabels(m0, u, minSize, j) && KeptLabels(m0, u, minSize, j)[b] == KeptLabels(m0, u, minSize, j)[a]| >= minSize
  {
    KeptKeys(m0, u, minSize, j);
    var m := KeptLabels(m0, u, minSize, j);
    KeptOrigin(m0, u, minSize, j, a);
    var i :| 0 <= i < j && Big(u, minSize, i) && a in KeptFresh(u, minSize, i) && m[a] == KeptCounter(u, minSize, i) + 1;
    var basin := KeptFresh(u, minSize, i);
    var same := set b | b in m && m[b] == m[a];
    forall b | b in basin
      ensures b in same
    {
      KeptMeaning(m0, u, minSize, i, j, b);
    }
    assert same == basin + (same - basin);
  }
}
