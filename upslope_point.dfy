/**
 * Upslope area of a single outlet: every cell whose D8 flow path passes
 * through the outlet is marked 1, everything else stays 0.
 */
module UpslopeAreaFromPoint {
  import opened Grid
  import opened Drainage

  /**
   * `writeCell`: marks `c` and, recursively, every neighbour that drains into
   * it.  There is no visited test; the drainage relation is a forest, so each
   * upslope cell is reached once.
   */
  method WriteCell(d: Dem, w: array2<int>, c: Cell)
    requires Shaped(w, d)
    modifies w
    ensures forall x, y | 0 <= x < w.Length0 && 0 <= y < w.Length1 ::
      w[x, y] == if d.z.Valid(c) && Reaches(d, Cell(x, y), c) then 1 else old(w[x, y])
    decreases Height(d, c)
  {
    if d.z.Valid(c) {
      w[c.x, c.y] := 1;
      forall x, y | 0 <= x < w.Length0 && 0 <= y < w.Length1
        ensures Covered(d, c, Cell(x, y), 0) <==> Cell(x, y) == c
      {
        CoveredEnds(d, c, Cell(x, y));
      }
      for i := 0 to 8
        invariant forall x, y | 0 <= x < w.Length0 && 0 <= y < w.Length1 ::
          w[x, y] == if Covered(d, c, Cell(x, y), i) then 1 else old(w[x, y])
      {
        forall x, y | 0 <= x < w.Length0 && 0 <= y < w.Length1
          ensures Covered(d, c, Cell(x, y), i + 1) <==>
            Covered(d, c, Cell(x, y), i) || (Drains(d, c, i) && Reaches(d, Cell(x, y), Neighbour(c, i)))
        {
          CoveredStep(d, c, i, Cell(x, y));
        }
        var n := Neighbour(c, i);
        if d.z.Valid(n) {
          var dir := Dir(d, n);
          if dir >= 0 && (i + 4) % 8 == dir {
            DrainsUphill(d, c, i);
            WriteCell(d, w, n);
          }
        }
      }
      forall x, y | 0 <= x < w.Length0 && 0 <= y < w.Length1
        ensures Covered(d, c, Cell(x, y), 8) <==> Reaches(d, Cell(x, y), c)
      {
        CoveredEnds(d, c, Cell(x, y));
      }
    }
  }

  /**
   * `processAlgorithm`: the result layer starts at 0 everywhere and ends with
   * 1 exactly on the cells whose flow path passes through a valid outlet.
   */
  method UpslopeArea(d: Dem, outlet: Cell) returns (w: array2<int>)
    ensures fresh(w) && Shaped(w, d)
    ensures forall x, y | 0 <= x < w.Length0 && 0 <= y < w.Length1 ::
      w[x, y] == if d.z.Valid(outlet) && Reaches(Inner(d), Cell(x, y), outlet) then 1 else 0
  {
    w := new int[d.z.nx, d.z.ny]((x, y) => 0);
    WriteCell(Inner(d), w, outlet);
  }
}
