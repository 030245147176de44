/**
 * Flow accumulation: every cell sends its accumulated flow to its neighbours
 * in the fractions held by eight flow layers (one per direction), computed
 * by D8, Rho8, D-infinity or multiple flow directions; the accumulation is a
 * memoised upslope recursion, and the result is scaled to an area.
 */
module AccFlow {
  import opened Grid
  import opened Drainage

  /** The accumulation raster starts at -1 everywhere, the "not visited" mark. */
  const NotVisited: real := -1.0

  /** The flow-direction methods, as numbered by the method parameter. */
  const D8: int := 0
  const Rho8: int := 1
  const DInf: int := 2
  const Mfd: int := 3

  /** The fraction of the flow of a cell that leaves it towards direction `j`. */
  type Shares = (int, Cell) -> real

  /** The eight flow layers, indexed by direction, column and row. */
  predicate FlowShaped(flow: array3<real>, d: Dem)
  {
    flow.Length0 == 8 && flow.Length1 == d.z.nx && flow.Length2 == d.z.ny
  }

  /** The flow layers hold `share`. */
  ghost predicate Holds(d: Dem, flow: array3<real>, share: Shares)
    requires FlowShaped(flow, d)
    reads flow
  {
    forall j, x, y | 0 <= j < 8 && 0 <= x < d.z.nx && 0 <= y < d.z.ny :: flow[j, x, y] == share(j, Cell(x, y))
  }

  /** Flow only ever leaves a valid cell towards a valid, strictly lower neighbour. */
  ghost predicate Downhill(d: Dem, share: Shares)
  {
    forall j, a | 0 <= j < 8 && d.z.Valid(a) && share(j, a) > 0.0 :: LowerIn(d.z, a, j)
  }

  /** Neighbour `i` of `c` is valid and sends part of its flow into `c`. */
  predicate Inflows(d: Dem, share: Shares, c: Cell, i: int)
    requires 0 <= i < 8
  {
    d.z.Valid(Neighbour(c, i)) && share((i + 4) % 8, Neighbour(c, i)) > 0.0
  }

  lemma InflowUphill(d: Dem, share: Shares, c: Cell, i: int)
    requires 0 <= i < 8 && Downhill(d, share) && Inflows(d, share, c, i)
    ensures d.z.Valid(c) && Height(d, Neighbour(c, i)) < Height(d, c)
  {
    OppositeNeighbour(c, i);
    assert LowerIn(d.z, Neighbour(c, i), (i + 4) % 8);
    HigherCell(d, c, Neighbour(c, i));
  }

  /** The weight of a cell: the weight layer's value when there is one (no-data included), else 1. */
  function Weight(weights: Option<Layer<real>>, c: Cell): real
  {
    match weights
    case None => 1.0
    case Some(w) => w.Get(c)
  }

  /** What a neighbour sends: its accumulated flow times its share. */
  function Sent(acc: real, share: real): real
  {
    acc * share
  }

  /**
   * The accumulated flow of `getFlow`: -1 for a no-data elevation, otherwise
   * the cell's own weight plus, for every neighbour sending it a share, that
   * neighbour's accumulated flow times the share.
   */
  ghost function Acc(d: Dem, share: Shares, weights: Option<Layer<real>>, c: Cell): real
    requires Downhill(d, share)
    decreases Height(d, c), 9
  {
    if !d.z.Valid(c) then NotVisited else Weight(weights, c) + InflowFrom(d, share, weights, c, 0)
  }

  /** What the neighbours `k..7` send into `c`. */
  ghost function InflowFrom(d: Dem, share: Shares, weights: Option<Layer<real>>, c: Cell, k: int): real
    requires Downhill(d, share) && 0 <= k <= 8
    decreases Height(d, c), 8 - k
  {
    if k == 8 then 0.0
    else
      (if Inflows(d, share, c, k)
       then (InflowUphill(d, share, c, k);
             Sent(Acc(d, share, weights, Neighbour(c, k)), share((k + 4) % 8, Neighbour(c, k))))
       else 0.0)
      + InflowFrom(d, share, weights, c, k + 1)
  }

  // ---------------------------------------------------------------------
  // The flow layers.

  /** `doD8`: the whole flow goes to the D8 direction. */
  function D8Share(d: Dem, j: int, c: Cell): real
  {
    if j == Dir(d, c) then 1.0 else 0.0
  }

  /** The direction sector of an aspect in degrees (`(int) (aspect / 45)`) and the fraction past it. */
  function Sector(aspect: real): (s: int)
    ensures aspect >= 0.0 ==> s as real * 45.0 <= aspect < (s + 1) as real * 45.0
    ensures 0.0 <= aspect < 360.0 ==> 0 <= s < 8
  {
    Trunc(aspect / 45.0)
  }

  function SectorFraction(aspect: real): real
  {
    FMod(aspect, 45.0) / 45.0
  }

  /**
   * `doRho8`: the flow goes to the aspect's sector, or to the next one when
   * the fraction past the sector exceeds a random draw `r` (drawn by the host).
   */
  function Rho8Dir(aspect: real, r: real): (j: int)
    ensures 0 <= j < 8
    ensures j == Sector(aspect) % 8 || j == (Sector(aspect) + 1) % 8
    ensures j == (Sector(aspect) + 1) % 8 <== SectorFraction(aspect) > r
  {
    (if SectorFraction(aspect) > r then Sector(aspect) + 1 else Sector(aspect)) % 8
  }

  function Rho8Share(aspect: real, r: real, j: int): real
  {
    if aspect >= 0.0 && j == Rho8Dir(aspect, r) then 1.0 else 0.0
  }

  /** `doDInf`: the flow is split between the aspect's sector and the next one. */
  function DInfShare(aspect: real, j: int): real
  {
    if aspect < 0.0 then 0.0
    else if j == Sector(aspect) % 8 then 1.0 - SectorFraction(aspect)
    else if j == (Sector(aspect) + 1) % 8 then SectorFraction(aspect)
    else 0.0
  }

  /** `doMFD` gives a share to neighbour `i` when it has data and the elevation drops towards it. */
  predicate MfdTarget(z: Layer<real>, c: Cell, i: int)
    requires 0 <= i < 8
  {
    z.Valid(Neighbour(c, i)) && z.Get(c) - z.Get(Neighbour(c, i)) > 0.0
  }

  /** The host's slope weights (`Math.pow` of drop over distance); positive. */
  type MfdWeights = w: (Cell, int) -> real | forall c, i :: w(c, i) > 0.0
    witness (c: Cell, i: int) => 1.0

  function MfdWeight(z: Layer<real>, w: MfdWeights, c: Cell, i: int): real
    requires 0 <= i < 8
  {
    if MfdTarget(z, c, i) then w(c, i) else 0.0
  }

  /** `dzSum` after the first `k` directions. */
  function MfdTotal(z: Layer<real>, w: MfdWeights, c: Cell, k: int): real
    requires 0 <= k <= 8
  {
    if k == 0 then 0.0 else MfdTotal(z, w, c, k - 1) + MfdWeight(z, w, c, k - 1)
  }

  /** `doMFD` on fresh layers: every weight divided by their total. */
  function MfdShare(z: Layer<real>, w: MfdWeights, j: int, c: Cell): real
    requires 0 <= j < 8
  {
    if MfdTarget(z, c, j) then (MfdTotalPositive(z, w, c, 8, j); w(c, j) / MfdTotal(z, w, c, 8)) else 0.0
  }

  /** The layers `calculateFlows` leaves, starting from zero layers. */
  function CellShare(d: Dem, m: int, aspect: Cell -> real, random: Cell -> real, w: MfdWeights, j: int, c: Cell): real
    requires 0 <= j < 8
  {
    if m == D8 then D8Share(d, j, c)
    else if m == Rho8 then Rho8Share(aspect(c), random(c), j)
    else if m == DInf then DInfShare(aspect(c), j)
    else if m == Mfd then MfdShare(d.z, w, j, c)
    else 0.0
  }

  function FlowShares(d: Dem, m: int, aspect: Cell -> real, random: Cell -> real, w: MfdWeights): Shares
  {
    (j: int, c: Cell) => if 0 <= j < 8 then CellShare(d, m, aspect, random, w, j, c) else 0.0
  }

  /** The shares a cell gives to directions `0..k-1`. */
  function ShareSum(share: Shares, c: Cell, k: int): real
    requires 0 <= k <= 8
  {
    if k == 0 then 0.0 else ShareSum(share, c, k - 1) + share(k - 1, c)
  }

  /** D8 sends exactly the whole flow of a cell with a direction, and nothing otherwise. */
  lemma {:induction false} D8SharesSum(d: Dem, aspect: Cell -> real, random: Cell -> real, w: MfdWeights, c: Cell, k: int)
    requires 0 <= k <= 8
    ensures ShareSum(FlowShares(d, D8, aspect, random, w), c, k) == if 0 <= Dir(d, c) < k then 1.0 else 0.0
  {
    if k > 0 {
      D8SharesSum(d, aspect, random, w, c, k - 1);
    }
  }

  /** D-infinity splits the whole flow of a cell with an aspect. */
  lemma DInfSharesSum(d: Dem, aspect: Cell -> real, random: Cell -> real, w: MfdWeights, c: Cell)
    requires aspect(c) >= 0.0
    ensures ShareSum(FlowShares(d, DInf, aspect, random, w), c, 8) == 1.0
  {
    var s := FlowShares(d, DInf, aspect, random, w);
    forall j | 0 <= j < 8
      ensures s(j, c) == DInfShare(aspect(c), j)
    {
      DInfShareIs(d, aspect, random, w, j, c);
    }
    DInfWhole(s, c, aspect(c));
  }

  /** Shares that are the D-infinity split of aspect `a` add up to the whole flow. */
  lemma DInfWhole(s: Shares, c: Cell, a: real)
    requires a >= 0.0
    requires forall j | 0 <= j < 8 :: s(j, c) == DInfShare(a, j)
    ensures ShareSum(s, c, 8) == 1.0
  {
    var p, q := Sector(a) % 8, (Sector(a) + 1) % 8;
    DInfPrefix(s, c, 8, p, q, SectorFraction(a));
  }

  /** The D-infinity layer of direction `j`. */
  lemma DInfShareIs(d: Dem, aspect: Cell -> real, random: Cell -> real, w: MfdWeights, j: int, c: Cell)
    requires 0 <= j < 8 && aspect(c) >= 0.0
    ensures FlowShares(d, DInf, aspect, random, w)(j, c) == DInfShare(aspect(c), j)
  {
  }

  /** Shares `1 - f` and `f` in two distinct directions `p` and `q`, summed over the first `k` directions. */
  lemma {:induction false} DInfPrefix(s: Shares, c: Cell, k: int, p: int, q: int, f: real)
    requires 0 <= k <= 8 && 0 <= p < 8 && 0 <= q < 8 && p != q
    requires forall j | 0 <= j < 8 :: s(j, c) == if j == p then 1.0 - f else if j == q then f else 0.0
    ensures ShareSum(s, c, k) == (if p < k then 1.0 - f else 0.0) + (if q < k then f else 0.0)
  {
    if k > 0 {
      DInfPrefix(s, c, k - 1, p, q, f);
    }
  }

  /** The MFD shares of a cell with a lower neighbour add up to the whole flow. */
  lemma MfdSharesSum(d: Dem, aspect: Cell -> real, random: Cell -> real, w: MfdWeights, c: Cell, i: int)
    requires 0 <= i < 8 && MfdTarget(d.z, c, i)
    ensures MfdTotal(d.z, w, c, 8) > 0.0
    ensures ShareSum(FlowShares(d, Mfd, aspect, random, w), c, 8) == 1.0
  {
    MfdTotalPositive(d.z, w, c, 8, i);
    var t := MfdTotal(d.z, w, c, 8);
    var s := FlowShares(d, Mfd, aspect, random, w);
    forall j | 0 <= j < 8
      ensures s(j, c) == MfdWeight(d.z, w, c, j) / t
    {
      MfdShareIs(d, aspect, random, w, j, c, t);
    }
    MfdWhole(s, d.z, w, c, t);
  }

  /** Shares that are the weights over their total add up to the whole flow. */
  lemma MfdWhole(s: Shares, z: Layer<real>, w: MfdWeights, c: Cell, t: real)
    requires t == MfdTotal(z, w, c, 8) && t > 0.0
    requires forall j | 0 <= j < 8 :: s(j, c) == MfdWeight(z, w, c, j) / t
    ensures ShareSum(s, c, 8) == 1.0
  {
    MfdPrefix(s, z, w, c, 8, t);
    assert t / t == 1.0;
  }

  lemma {:induction false} MfdTotalPositive(z: Layer<real>, w: MfdWeights, c: Cell, k: int, i: int)
    requires 0 <= i < k <= 8 && MfdTarget(z, c, i)
    ensures MfdTotal(z, w, c, k) > 0.0
  {
    MfdTotalNonNegative(z, w, c, k - 1);
    if i < k - 1 {
      MfdTotalPositive(z, w, c, k - 1, i);
    }
  }

  lemma {:induction false} MfdTotalNonNegative(z: Layer<real>, w: MfdWeights, c: Cell, k: int)
    requires 0 <= k <= 8
    ensures MfdTotal(z, w, c, k) >= 0.0
  {
    if k > 0 {
      MfdTotalNonNegative(z, w, c, k - 1);
    }
  }

  /** The MFD layer of direction `j` holds the weight of `j` over the total. */
  lemma MfdShareIs(d: Dem, aspect: Cell -> real, random: Cell -> real, w: MfdWeights, j: int, c: Cell, t: real)
    requires 0 <= j < 8 && t == MfdTotal(d.z, w, c, 8) && t > 0.0
    ensures FlowShares(d, Mfd, aspect, random, w)(j, c) == MfdWeight(d.z, w, c, j) / t
  {
    assert CellShare(d, Mfd, aspect, random, w, j, c) == MfdShare(d.z, w, j, c);
  }

  lemma {:induction false} MfdPrefix(s: Shares, z: Layer<real>, w: MfdWeights, c: Cell, k: int, t: real)
    requires 0 <= k <= 8 && t > 0.0
    requires forall j | 0 <= j < 8 :: s(j, c) == MfdWeight(z, w, c, j) / t
    ensures ShareSum(s, c, k) == MfdTotal(z, w, c, k) / t
  {
    if k > 0 {
      MfdPrefix(s, z, w, c, k - 1, t);
      DivAdd(MfdTotal(z, w, c, k - 1), MfdWeight(z, w, c, k - 1), t);
    }
  }

  lemma DivAdd(a: real, b: real, t: real)
    requires t != 0.0
    ensures a / t + b / t == (a + b) / t
  {
  }

  /** D8 layers send flow downhill only. */
  lemma D8Downhill(d: Dem, aspect: Cell -> real, random: Cell -> real, w: MfdWeights)
    ensures Downhill(d, FlowShares(d, D8, aspect, random, w))
  {
  }

  /** MFD layers send flow downhill only. */
  lemma MfdDownhill(d: Dem, aspect: Cell -> real, random: Cell -> real, w: MfdWeights)
    ensures Downhill(d, FlowShares(d, Mfd, aspect, random, w))
  {
  }

  /** `share` is the D8 layers' share. */
  ghost predicate IsD8(d: Dem, share: Shares)
  {
    forall j, a | 0 <= j < 8 :: share(j, a) == D8Share(d, j, a)
  }

  lemma D8LayersAreD8(d: Dem, aspect: Cell -> real, random: Cell -> real, w: MfdWeights)
    ensures IsD8(d, FlowShares(d, D8, aspect, random, w))
  {
  }

  /**
   * With D8 layers and no weight layer, the accumulated flow of a valid cell
   * is the number of cells whose D8 flow path passes through it, itself
   * included.
   */
  lemma D8CountsUpslope(d: Dem, aspect: Cell -> real, random: Cell -> real, w: MfdWeights, c: Cell)
    requires d.z.Valid(c)
    ensures d.z.InWindow(c)
    ensures (D8Downhill(d, aspect, random, w); Acc(d, FlowShares(d, D8, aspect, random, w), None, c)) == |Upslope(d, c)| as real
  {
    D8Downhill(d, aspect, random, w);
    D8LayersAreD8(d, aspect, random, w);
    D8AccIsCount(d, FlowShares(d, D8, aspect, random, w), c);
    UpCountIsUpslopeCount(d, AnyCell, c);
    assert Filter(Upslope(d, c), AnyCell) == Upslope(d, c);
  }

  /** Every cell counts once. */
  predicate AnyCell(a: Cell)
  {
    true
  }

  lemma {:induction false} D8AccIsCount(d: Dem, share: Shares, c: Cell)
    requires d.z.Valid(c) && IsD8(d, share) && Downhill(d, share)
    ensures Acc(d, share, None, c) == UpCount(d, AnyCell, c) as real
    decreases Height(d, c), 9, 0
  {
    D8InflowIsCount(d, share, c, 0);
  }

  lemma {:induction false} D8InflowIsCount(d: Dem, share: Shares, c: Cell, k: int)
    requires 0 <= k <= 8 && IsD8(d, share) && Downhill(d, share)
    ensures InflowFrom(d, share, None, c, k) == UpCountFrom(d, AnyCell, c, k) as real
    decreases Height(d, c), 8 - k, 1
  {
    if k < 8 {
      D8InflowIsCount(d, share, c, k + 1);
      var n := Neighbour(c, k);
      if Drains(d, c, k) {
        D8Inflow(d, share, c, k);
        InflowFromTaken(d, share, None, c, k);
        UpCountFromTaken(d, AnyCell, c, k);
        CountStep(Sent(Acc(d, share, None, n), share((k + 4) % 8, n)), UpCount(d, AnyCell, n),
                  InflowFrom(d, share, None, c, k + 1), UpCountFrom(d, AnyCell, c, k + 1),
                  InflowFrom(d, share, None, c, k), UpCountFrom(d, AnyCell, c, k));
      } else {
        assert share((k + 4) % 8, n) == D8Share(d, (k + 4) % 8, n);
        assert !Inflows(d, share, c, k);
        InflowFromSkipped(d, share, None, c, k);
        UpCountFromSkipped(d, AnyCell, c, k);
        CountStep(0.0, 0, InflowFrom(d, share, None, c, k + 1), UpCountFrom(d, AnyCell, c, k + 1),
                  InflowFrom(d, share, None, c, k), UpCountFrom(d, AnyCell, c, k));
      }
    }
  }

  /** A D8 drainer sends its whole accumulated flow, which is its count. */
  lemma {:induction false} D8Inflow(d: Dem, share: Shares, c: Cell, k: int)
    requires 0 <= k < 8 && IsD8(d, share) && Downhill(d, share) && Drains(d, c, k)
    ensures Inflows(d, share, c, k)
    ensures Sent(Acc(d, share, None, Neighbour(c, k)), share((k + 4) % 8, Neighbour(c, k))) == UpCount(d, AnyCell, Neighbour(c, k)) as real
    decreases Height(d, c), 8 - k, 0
  {
    var n := Neighbour(c, k);
    DrainsUphill(d, c, k);
    D8AccIsCount(d, share, n);
    assert share((k + 4) % 8, n) == D8Share(d, (k + 4) % 8, n) == 1.0;
  }

  lemma InflowFromTaken(d: Dem, share: Shares, weights: Option<Layer<real>>, c: Cell, k: int)
    requires 0 <= k < 8 && Downhill(d, share) && Inflows(d, share, c, k)
    ensures InflowFrom(d, share, weights, c, k) ==
      Sent(Acc(d, share, weights, Neighbour(c, k)), share((k + 4) % 8, Neighbour(c, k))) + InflowFrom(d, share, weights, c, k + 1)
  {
  }

  lemma InflowFromSkipped(d: Dem, share: Shares, weights: Option<Layer<real>>, c: Cell, k: int)
    requires 0 <= k < 8 && Downhill(d, share) && !Inflows(d, share, c, k)
    ensures InflowFrom(d, share, weights, c, k) == InflowFrom(d, share, weights, c, k + 1)
  {
  }

  lemma UpCountFromTaken(d: Dem, p: Cell -> bool, c: Cell, k: int)
    requires 0 <= k < 8 && Drains(d, c, k)
    ensures UpCountFrom(d, p, c, k) == UpCount(d, p, Neighbour(c, k)) + UpCountFrom(d, p, c, k + 1)
  {
  }

  lemma UpCountFromSkipped(d: Dem, p: Cell -> bool, c: Cell, k: int)
    requires 0 <= k < 8 && !Drains(d, c, k)
    ensures UpCountFrom(d, p, c, k) == UpCountFrom(d, p, c, k + 1)
  {
  }

  lemma CountStep(a: real, b: nat, u: real, t: nat, s: real, n: nat)
    requires a == b as real && u == t as real && s == a + u && n == b + t
    ensures s == n as real
  {
  }

  // ---------------------------------------------------------------------
  // `calculateFlows` and the `do*` methods.

  /** `doD8` on cell `(x, y)`, with the DEM's direction `dir` there (-1 for none). */
  method DoD8(flow: array3<real>, dir: int, x: int, y: int)
    requires flow.Length0 == 8 && 0 <= x < flow.Length1 && 0 <= y < flow.Length2 && -1 <= dir < 8
    modifies flow
    ensures forall j, i, k | 0 <= j < 8 && 0 <= i < flow.Length1 && 0 <= k < flow.Length2 ::
      flow[j, i, k] == if i == x && k == y && j == dir then 1.0 else old(flow[j, i, k])
  {
    if dir >= 0 {
      flow[dir % 8, x, y] := 1.0;
    }
  }

  /** `doRho8` on cell `(x, y)`, with its aspect in degrees and the host's random draw `r`. */
  method DoRho8(flow: array3<real>, aspect: real, r: real, x: int, y: int)
    requires flow.Length0 == 8 && 0 <= x < flow.Length1 && 0 <= y < flow.Length2
    modifies flow
    ensures forall j, i, k | 0 <= j < 8 && 0 <= i < flow.Length1 && 0 <= k < flow.Length2 ::
      flow[j, i, k] == if i == x && k == y && aspect >= 0.0 && j == Rho8Dir(aspect, r) then 1.0 else old(flow[j, i, k])
  {
    if aspect >= 0.0 {
      var dir := Trunc(aspect / 45.0);
      if FMod(aspect, 45.0) / 45.0 > r {
        dir := dir + 1;
      }
      dir := dir % 8;
      flow[dir, x, y] := 1.0;
    }
  }

  /** `doDInf` on cell `(x, y)`, with its aspect in degrees. */
  method DoDInf(flow: array3<real>, aspect: real, x: int, y: int)
    requires flow.Length0 == 8 && 0 <= x < flow.Length1 && 0 <= y < flow.Length2
    modifies flow
    ensures forall j, i, k | 0 <= j < 8 && 0 <= i < flow.Length1 && 0 <= k < flow.Length2 ::
      flow[j, i, k] ==
        if i == x && k == y && aspect >= 0.0 && j == (Sector(aspect) + 1) % 8 then SectorFraction(aspect)
        else if i == x && k == y && aspect >= 0.0 && j == Sector(aspect) % 8 then 1.0 - SectorFraction(aspect)
        else old(flow[j, i, k])
  {
    if aspect >= 0.0 {
      var dir := Trunc(aspect / 45.0);
      var f := FMod(aspect, 45.0) / 45.0;
      flow[dir % 8, x, y] := 1.0 - f;
      flow[(dir + 1) % 8, x, y] := f;
    }
  }

  /** The value `doMFD` leaves in layer `j` of `c`, from the value `v0` the layer held. */
  function MfdAfter(z: Layer<real>, w: MfdWeights, c: Cell, j: int, v0: real): real
    requires 0 <= j < 8
  {
    var v := if MfdTarget(z, c, j) then w(c, j) else v0;
    if MfdTotal(z, w, c, 8) > 0.0 && v > 0.0 then v / MfdTotal(z, w, c, 8) else v
  }

  /** `doMFD` on cell `(x, y)`: weights towards the lower neighbours, then divided by their total. */
  method DoMfd(z: Layer<real>, w: MfdWeights, flow: array3<real>, x: int, y: int)
    requires flow.Length0 == 8 && 0 <= x < flow.Length1 && 0 <= y < flow.Length2
    modifies flow
    ensures forall j, i, k | 0 <= j < 8 && 0 <= i < flow.Length1 && 0 <= k < flow.Length2 ::
      flow[j, i, k] == if i == x && k == y then MfdAfter(z, w, Cell(x, y), j, old(flow[j, i, k])) else old(flow[j, i, k])
  {
    var dzSum := CollectMfd(z, w, flow, x, y);
    if dzSum > 0.0 {
      DivideCell(flow, x, y, dzSum);
    }
  }

  /** The first loop of `doMFD`: each lower neighbour's weight, and their total. */
  method CollectMfd(z: Layer<real>, w: MfdWeights, flow: array3<real>, x: int, y: int) returns (dzSum: real)
    requires flow.Length0 == 8 && 0 <= x < flow.Length1 && 0 <= y < flow.Length2
    modifies flow
    ensures dzSum == MfdTotal(z, w, Cell(x, y), 8)
    ensures forall j, a, b | 0 <= j < 8 && 0 <= a < flow.Length1 && 0 <= b < flow.Length2 ::
      flow[j, a, b] == if a == x && b == y && MfdTarget(z, Cell(x, y), j) then w(Cell(x, y), j) else old(flow[j, a, b])
  {
    var c := Cell(x, y);
    var zc := z.Get(c);
    dzSum := 0.0;
    for i := 0 to 8
      invariant dzSum == MfdTotal(z, w, c, i)
      invariant forall j, a, b | 0 <= j < 8 && 0 <= a < flow.Length1 && 0 <= b < flow.Length2 ::
        flow[j, a, b] == if a == x && b == y && j < i && MfdTarget(z, c, j) then w(c, j) else old(flow[j, a, b])
    {
      var z2 := z.Get(Neighbour(c, i));
      if !z.IsNoData(z2) {
        var dif := zc - z2;
        if dif > 0.0 {
          var f := w(c, i);
          dzSum := dzSum + f;
          flow[i, x, y] := f;
        }
      }
    }
  }

  /** The second loop of `doMFD`: every positive share of cell `(x, y)` divided by `total`. */
  method DivideCell(flow: array3<real>, x: int, y: int, total: real)
    requires flow.Length0 == 8 && 0 <= x < flow.Length1 && 0 <= y < flow.Length2 && total > 0.0
    modifies flow
    ensures forall j, a, b | 0 <= j < 8 && 0 <= a < flow.Length1 && 0 <= b < flow.Length2 ::
      flow[j, a, b] == if a == x && b == y && old(flow[j, a, b]) > 0.0 then old(flow[j, a, b]) / total else old(flow[j, a, b])
  {
    for i := 0 to 8
      invariant forall j, a, b | 0 <= j < 8 && 0 <= a < flow.Length1 && 0 <= b < flow.Length2 ::
        flow[j, a, b] == if a == x && b == y && j < i && old(flow[j, a, b]) > 0.0 then old(flow[j, a, b]) / total else old(flow[j, a, b])
    {
      var f := flow[i, x, y];
      if f > 0.0 {
        flow[i, x, y] := f / total;
      }
    }
  }

  /** One step of `calculateFlows`: the method's `do*` on cell `(x, y)`. */
  method FlowsAt(d: Dem, m: int, aspect: Cell -> real, random: Cell -> real, w: MfdWeights, flow: array3<real>, x: int, y: int)
    requires FlowShaped(flow, d) && 0 <= x < d.z.nx && 0 <= y < d.z.ny
    requires forall j | 0 <= j < 8 :: flow[j, x, y] == 0.0
    modifies flow
    ensures forall j, i, k | 0 <= j < 8 && 0 <= i < d.z.nx && 0 <= k < d.z.ny ::
      flow[j, i, k] == if i == x && k == y then CellShare(d, m, aspect, random, w, j, Cell(x, y)) else old(flow[j, i, k])
  {
    if m == D8 {
      D8At(d, m, aspect, random, w, flow, x, y);
    } else if m == Rho8 {
      Rho8At(d, m, aspect, random, w, flow, x, y);
    } else if m == DInf {
      DInfAt(d, m, aspect, random, w, flow, x, y);
    } else if m == Mfd {
      MfdAt(d, m, aspect, random, w, flow, x, y);
    }
  }

  method D8At(d: Dem, m: int, aspect: Cell -> real, random: Cell -> real, w: MfdWeights, flow: array3<real>, x: int, y: int)
    requires m == D8 && FlowShaped(flow, d) && 0 <= x < d.z.nx && 0 <= y < d.z.ny
    requires forall j | 0 <= j < 8 :: flow[j, x, y] == 0.0
    modifies flow
    ensures forall j, i, k | 0 <= j < 8 && 0 <= i < d.z.nx && 0 <= k < d.z.ny ::
      flow[j, i, k] == if i == x && k == y then CellShare(d, m, aspect, random, w, j, Cell(x, y)) else old(flow[j, i, k])
  {
    DoD8(flow, Dir(d, Cell(x, y)), x, y);
  }

  method Rho8At(d: Dem, m: int, aspect: Cell -> real, random: Cell -> real, w: MfdWeights, flow: array3<real>, x: int, y: int)
    requires m == Rho8 && FlowShaped(flow, d) && 0 <= x < d.z.nx && 0 <= y < d.z.ny
    requires forall j | 0 <= j < 8 :: flow[j, x, y] == 0.0
    modifies flow
    ensures forall j, i, k | 0 <= j < 8 && 0 <= i < d.z.nx && 0 <= k < d.z.ny ::
      flow[j, i, k] == if i == x && k == y then CellShare(d, m, aspect, random, w, j, Cell(x, y)) else old(flow[j, i, k])
  {
    DoRho8(flow, aspect(Cell(x, y)), random(Cell(x, y)), x, y);
  }

  method DInfAt(d: Dem, m: int, aspect: Cell -> real, random: Cell -> real, w: MfdWeights, flow: array3<real>, x: int, y: int)
    requires m == DInf && FlowShaped(flow, d) && 0 <= x < d.z.nx && 0 <= y < d.z.ny
    requires forall j | 0 <= j < 8 :: flow[j, x, y] == 0.0
    modifies flow
    ensures forall j, i, k | 0 <= j < 8 && 0 <= i < d.z.nx && 0 <= k < d.z.ny ::
      flow[j, i, k] == if i == x && k == y then CellShare(d, m, aspect, random, w, j, Cell(x, y)) else old(flow[j, i, k])
  {
    DoDInf(flow, aspect(Cell(x, y)), x, y);
  }

  method MfdAt(d: Dem, m: int, aspect: Cell -> real, random: Cell -> real, w: MfdWeights, flow: array3<real>, x: int, y: int)
    requires m == Mfd && FlowShaped(flow, d) && 0 <= x < d.z.nx && 0 <= y < d.z.ny
    requires forall j | 0 <= j < 8 :: flow[j, x, y] == 0.0
    modifies flow
    ensures forall j, i, k | 0 <= j < 8 && 0 <= i < d.z.nx && 0 <= k < d.z.ny ::
      flow[j, i, k] == if i == x && k == y then CellShare(d, m, aspect, random, w, j, Cell(x, y)) else old(flow[j, i, k])
  {
    var c := Cell(x, y);
    DoMfd(d.z, w, flow, x, y);
    forall j | 0 <= j < 8 && MfdTarget(d.z, c, j)
      ensures MfdTotal(d.z, w, c, 8) > 0.0
    {
      MfdTotalPositive(d.z, w, c, 8, j);
    }
  }

  /** `calculateFlows` over fresh (zero) layers. */
  method CalculateFlows(d: Dem, m: int, aspect: Cell -> real, random: Cell -> real, w: MfdWeights, flow: array3<real>)
    requires FlowShaped(flow, d)
    requires forall j, x, y | 0 <= j < 8 && 0 <= x < d.z.nx && 0 <= y < d.z.ny :: flow[j, x, y] == 0.0
    modifies flow
    ensures Holds(d, flow, FlowShares(d, m, aspect, random, w))
  {
    for y := 0 to d.z.ny
      invariant forall j, a, b | 0 <= j < 8 && 0 <= a < d.z.nx && 0 <= b < d.z.ny ::
        flow[j, a, b] == if b < y then CellShare(d, m, aspect, random, w, j, Cell(a, b)) else 0.0
    {
      for x := 0 to d.z.nx
        invariant forall j, a, b | 0 <= j < 8 && 0 <= a < d.z.nx && 0 <= b < d.z.ny ::
          flow[j, a, b] == if Before(Cell(a, b), x, y) then CellShare(d, m, aspect, random, w, j, Cell(a, b)) else 0.0
      {
        FlowsAt(d, m, aspect, random, w, flow, x, y);
      }
    }
  }

  // ---------------------------------------------------------------------
  // `calculateAccFlows` and `getFlow`.

  /** A memo entry is untouched (-1) or final. */
  ghost predicate Known(d: Dem, share: Shares, weights: Option<Layer<real>>, a: Cell, v: real)
    requires Downhill(d, share)
  {
    v == NotVisited || v == Acc(d, share, weights, a)
  }

  /** An entry is unchanged, or final for a cell no lower than `c`. */
  ghost predicate Kept(d: Dem, share: Shares, weights: Option<Layer<real>>, c: Cell, a: Cell, v: real, v0: real)
    requires Downhill(d, share)
  {
    v == v0 || (Height(d, a) <= Height(d, c) && v == Acc(d, share, weights, a))
  }

  /**
   * `getFlow`: the accumulated flow of `c`, after those of the neighbours
   * sending it a share.  A cell whose value is not -1 has been done and is
   * skipped; a cell with a no-data elevation is left at -1.
   */
  method GetFlow(d: Dem, ghost share: Shares, flow: array3<real>, weights: Option<Layer<real>>, acc: array2<real>, c: Cell)
    requires FlowShaped(flow, d) && Holds(d, flow, share) && Downhill(d, share)
    requires Shaped(acc, d) && d.z.InWindow(c)
    requires forall x, y | 0 <= x < d.z.nx && 0 <= y < d.z.ny ::
      Known(d, share, weights, Cell(x, y), acc[x, y]) || Height(d, Cell(x, y)) > Height(d, c)
    modifies acc
    ensures forall x, y | 0 <= x < d.z.nx && 0 <= y < d.z.ny ::
      Kept(d, share, weights, c, Cell(x, y), acc[x, y], old(acc[x, y]))
    ensures acc[c.x, c.y] == Acc(d, share, weights, c)
    decreases Height(d, c), 1
  {
    if acc[c.x, c.y] != NotVisited {
      return;
    }
    var weight := Weight(weights, c);
    if d.z.Valid(c) {
      acc[c.x, c.y] := weight;
      AccUnfold(d, share, weights, c);
      var j := 4;
      for i := 0 to 8
        invariant j == (i + 4) % 8
        invariant acc[c.x, c.y] + InflowFrom(d, share, weights, c, i) == Acc(d, share, weights, c)
        invariant forall x, y | 0 <= x < d.z.nx && 0 <= y < d.z.ny && Cell(x, y) != c ::
          Kept(d, share, weights, c, Cell(x, y), acc[x, y], old(acc[x, y]))
      {
        ghost var before := acc[c.x, c.y];
        AddInflow(d, share, flow, weights, acc, c, i, j);
        Carry(acc[c.x, c.y], InflowFrom(d, share, weights, c, i + 1), before, InflowFrom(d, share, weights, c, i),
              Acc(d, share, weights, c));
        NextOpposite(i, j);
        j := (j + 1) % 8;
      }
    }
  }

  lemma AccUnfold(d: Dem, share: Shares, weights: Option<Layer<real>>, c: Cell)
    requires Downhill(d, share) && d.z.Valid(c)
    ensures Acc(d, share, weights, c) == Weight(weights, c) + InflowFrom(d, share, weights, c, 0)
  {
  }

  lemma NextOpposite(i: int, j: int)
    requires 0 <= i < 8 && j == (i + 4) % 8
    ensures (j + 1) % 8 == (i + 1 + 4) % 8
  {
  }

  lemma Carry(a: real, b: real, a0: real, b0: real, t: real)
    requires a + b == a0 + b0 && a0 + b0 == t
    ensures a + b == t
  {
  }

  /** One pass of `getFlow`'s neighbour loop: what neighbour `i` sends (its layer `j`) is added to `c`. */
  method AddInflow(d: Dem, ghost share: Shares, flow: array3<real>, weights: Option<Layer<real>>, acc: array2<real>,
                   c: Cell, i: int, j: int)
    requires FlowShaped(flow, d) && Holds(d, flow, share) && Downhill(d, share)
    requires Shaped(acc, d) && d.z.InWindow(c) && 0 <= i < 8 && j == (i + 4) % 8
    requires forall x, y | 0 <= x < d.z.nx && 0 <= y < d.z.ny && Cell(x, y) != c ::
      Known(d, share, weights, Cell(x, y), acc[x, y]) || Height(d, Cell(x, y)) > Height(d, c)
    modifies acc
    ensures acc[c.x, c.y] + InflowFrom(d, share, weights, c, i + 1) == old(acc[c.x, c.y]) + InflowFrom(d, share, weights, c, i)
    ensures forall x, y | 0 <= x < d.z.nx && 0 <= y < d.z.ny && Cell(x, y) != c ::
      Kept(d, share, weights, c, Cell(x, y), acc[x, y], old(acc[x, y]))
    decreases Height(d, c), 0
  {
    var n := Neighbour(c, i);
    if d.z.Valid(n) {
      var f := flow[j, n.x, n.y];
      if f > 0.0 {
        assert Inflows(d, share, c, i);
        InflowUphill(d, share, c, i);
        GetFlow(d, share, flow, weights, acc, n);
        var v := Sent(acc[n.x, n.y], f);
        var v2 := acc[c.x, c.y];
        acc[c.x, c.y] := v + v2;
        InflowFromTaken(d, share, weights, c, i);
      } else {
        InflowFromSkipped(d, share, weights, c, i);
      }
    } else {
      InflowFromSkipped(d, share, weights, c, i);
    }
  }

  /** Every entry of the memo is untouched or final. */
  ghost predicate AllKnown(d: Dem, share: Shares, weights: Option<Layer<real>>, acc: array2<real>)
    requires Downhill(d, share) && Shaped(acc, d)
    reads acc
  {
    forall x, y | 0 <= x < d.z.nx && 0 <= y < d.z.ny :: Known(d, share, weights, Cell(x, y), acc[x, y])
  }

  /** Every cell scanned before `(x, y)` is final. */
  ghost predicate Done(d: Dem, share: Shares, weights: Option<Layer<real>>, acc: array2<real>, x: int, y: int)
    requires Downhill(d, share) && Shaped(acc, d)
    reads acc
  {
    forall i, j | 0 <= i < d.z.nx && 0 <= j < d.z.ny && Before(Cell(i, j), x, y) ::
      acc[i, j] == Acc(d, share, weights, Cell(i, j))
  }

  /** One step of `calculateAccFlows`. */
  method AccStep(d: Dem, ghost share: Shares, flow: array3<real>, weights: Option<Layer<real>>, acc: array2<real>, x: int, y: int)
    requires FlowShaped(flow, d) && Holds(d, flow, share) && Downhill(d, share)
    requires Shaped(acc, d) && 0 <= x < d.z.nx && 0 <= y < d.z.ny
    requires AllKnown(d, share, weights, acc) && Done(d, share, weights, acc, x, y)
    modifies acc
    ensures AllKnown(d, share, weights, acc) && Done(d, share, weights, acc, x + 1, y)
  {
    label L:
    GetFlow(d, share, flow, weights, acc, Cell(x, y));
    assert AllKnown(d, share, weights, acc) by {
      forall i, j | 0 <= i < d.z.nx && 0 <= j < d.z.ny
        ensures Known(d, share, weights, Cell(i, j), acc[i, j])
      {
        assert old@L(Known(d, share, weights, Cell(i, j), acc[i, j]));
      }
    }
  }

  /** `calculateAccFlows`: every cell in row order, from -1 everywhere. */
  method CalculateAccFlows(d: Dem, ghost share: Shares, flow: array3<real>, weights: Option<Layer<real>>, acc: array2<real>)
    requires FlowShaped(flow, d) && Holds(d, flow, share) && Downhill(d, share) && Shaped(acc, d)
    requires forall x, y | 0 <= x < d.z.nx && 0 <= y < d.z.ny :: acc[x, y] == NotVisited
    modifies acc
    ensures forall x, y | 0 <= x < d.z.nx && 0 <= y < d.z.ny :: acc[x, y] == Acc(d, share, weights, Cell(x, y))
  {
    for y := 0 to d.z.ny
      invariant AllKnown(d, share, weights, acc) && Done(d, share, weights, acc, 0, y)
    {
      for x := 0 to d.z.nx
        invariant AllKnown(d, share, weights, acc) && Done(d, share, weights, acc, x, y)
      {
        AccStep(d, share, flow, weights, acc, x, y);
      }
      assert Done(d, share, weights, acc, 0, y + 1) by {
        forall i, j | 0 <= i < d.z.nx && 0 <= j < d.z.ny && Before(Cell(i, j), 0, y + 1)
          ensures acc[i, j] == Acc(d, share, weights, Cell(i, j))
        {
          assert Before(Cell(i, j), d.z.nx, y);
        }
      }
    }
    assert Done(d, share, weights, acc, 0, d.z.ny);
  }

  /** A raster value multiplied by a factor. */
  function Times(v: real, f: real): real
  {
    v * f
  }

  /** The host's `multiply`: every cell, no-data ones included, is scaled. */
  method Multiply(a: array2<real>, f: real)
    modifies a
    ensures forall x, y | 0 <= x < a.Length0 && 0 <= y < a.Length1 :: a[x, y] == Times(old(a[x, y]), f)
  {
    for y := 0 to a.Length1
      invariant forall i, j | 0 <= i < a.Length0 && 0 <= j < a.Length1 ::
        a[i, j] == if j < y then old(a[i, j]) * f else old(a[i, j])
    {
      for x := 0 to a.Length0
        invariant forall i, j | 0 <= i < a.Length0 && 0 <= j < a.Length1 ::
          a[i, j] == if Before(Cell(i, j), x, y) then old(a[i, j]) * f else old(a[i, j])
      {
        a[x, y] := a[x, y] * f;
      }
    }
  }

  /**
   * `processAlgorithm`: the flow layers of the chosen method, the
   * accumulation over them, and the scaling by the cell area.  The model
   * requires the layers to send flow downhill only, as D8 and MFD layers do.
   */
  method FlowAccumulation(d: Dem, m: int, weights: Option<Layer<real>>, aspect: Cell -> real, random: Cell -> real, w: MfdWeights)
    returns (acc: array2<real>)
    requires Downhill(d, FlowShares(d, m, aspect, random, w))
    ensures fresh(acc) && Shaped(acc, d)
    ensures forall x, y | 0 <= x < d.z.nx && 0 <= y < d.z.ny ::
      acc[x, y] == Times(Acc(d, FlowShares(d, m, aspect, random, w), weights, Cell(x, y)), d.cellSize * d.cellSize)
  {
    acc := new real[d.z.nx, d.z.ny]((x, y) => NotVisited);
    var flow := new real[8, d.z.nx, d.z.ny]((j, x, y) => 0.0);
    CalculateFlows(d, m, aspect, random, w, flow);
    CalculateAccFlows(d, FlowShares(d, m, aspect, random, w), flow, weights, acc);
    Multiply(acc, d.cellSize * d.cellSize);
  }
}
