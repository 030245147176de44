/**
 * The hyetograph of the modelling package: a rainfall depth per time
 * interval (millimetres) with the interval length in seconds.  It is built
 * from an array, from three design depths, or from a depth-duration curve
 * whose increments are rearranged around a peak interval; it can be
 * delayed and normalised, and answers the rainfall over any time window.
 */
module Hyetographs {
  import opened Series

  function Min(a: int, b: int): int
  {
    if a <= b then a else b
  }

  function Max(a: int, b: int): int
  {
    if a >= b then a else b
  }

  // ---------------------------------------------------------------------
  // Peak-centred placement
  // ---------------------------------------------------------------------

  /**
   * The increment of each interval of a depth-duration curve: `depthAt(n)`
   * is the depth fallen by the end of interval `n`, and the first
   * increment is taken from 0.
   */
  function Increments(depthAt: int -> real, n: nat): seq<real>
  {
    seq(n, i requires 0 <= i < n => depthAt(i + 1) - (if i == 0 then 0.0 else depthAt(i)))
  }

  /** The increments telescope to the curve's depth at the last interval. */
  lemma {:induction false} IncrementsTotal(depthAt: int -> real, n: nat)
    requires n >= 1
    ensures Sum(Increments(depthAt, n)) == depthAt(n)
  {
    if n > 1 {
      assert Increments(depthAt, n)[..n - 1] == Increments(depthAt, n - 1);
      IncrementsTotal(depthAt, n - 1);
    } else {
      assert Increments(depthAt, n)[..0] == [];
    }
  }

  /**
   * The index of the increment that lands on position `q` when `len`
   * increments are placed around the peak position `p`: the first goes to
   * `p`, then step `i` places one at `p + i` and one at `p - i`, each only
   * when that position is inside the series.
   */
  function Source(p: int, len: int, q: int): int
    requires 0 <= p < len && 0 <= q < len
  {
    if q == p then 0
    else if q > p then (q - p) + Min(q - p - 1, p)
    else (p - q) + Min(p - q, len - 1 - p)
  }

  /** The position increment `j` is placed at, the inverse of `Source`. */
  function Target(p: int, len: int, j: int): int
    requires 0 <= p < len && 0 <= j < len
  {
    var a := Min(p, len - 1 - p);
    if j == 0 then p
    else if j <= 2 * a then (if j % 2 == 1 then p + (j + 1) / 2 else p - j / 2)
    else if p < len - 1 - p then p + (j - a)
    else p - (j - a)
  }

  /**
   * The placement is a bijection between positions and increments: each
   * increment is placed exactly once and every position receives one.
   */
  lemma PlacementBijective(p: int, len: int)
    requires 0 <= p < len
    ensures forall q | 0 <= q < len :: 0 <= Source(p, len, q) < len && Target(p, len, Source(p, len, q)) == q
    ensures forall j | 0 <= j < len :: 0 <= Target(p, len, j) < len && Source(p, len, Target(p, len, j)) == j
  {
    forall q | 0 <= q < len
      ensures 0 <= Source(p, len, q) < len && Target(p, len, Source(p, len, q)) == q
    {
      SourceThenTarget(p, len, q);
    }
    forall j | 0 <= j < len
      ensures 0 <= Target(p, len, j) < len && Source(p, len, Target(p, len, j)) == j
    {
      TargetThenSource(p, len, j);
    }
  }

  lemma SourceThenTarget(p: int, len: int, q: int)
    requires 0 <= p < len && 0 <= q < len
    ensures 0 <= Source(p, len, q) < len && Target(p, len, Source(p, len, q)) == q
  {
    var a := Min(p, len - 1 - p);
    var j := Source(p, len, q);
    if q > p {
      if q - p - 1 < p {
        assert j == 2 * (q - p) - 1 && j % 2 == 1;
      }
    } else if q < p {
      if p - q <= len - 1 - p {
        assert j == 2 * (p - q) && j % 2 == 0;
      }
    }
  }

  lemma TargetThenSource(p: int, len: int, j: int)
    requires 0 <= p < len && 0 <= j < len
    ensures 0 <= Target(p, len, j) < len && Source(p, len, Target(p, len, j)) == j
  {
    var a := Min(p, len - 1 - p);
    if 0 < j <= 2 * a {
      if j % 2 == 1 {
        assert Target(p, len, j) == p + (j + 1) / 2;
      } else {
        assert Target(p, len, j) == p - j / 2;
      }
    }
  }

  /** `len` increments rearranged around peak position `p`. */
  function PeakCentred(rain: seq<real>, p: int): (r: seq<real>)
    requires 0 <= p < |rain|
    ensures |r| == |rain|
  {
    seq(|rain|, q requires 0 <= q < |rain| => rain[Source(p, |rain|, q)])
  }

  /** The first increment sits at the peak and increment `j` at `Target(j)`. */
  lemma PeakCentredPlaces(rain: seq<real>, p: int)
    requires 0 <= p < |rain|
    ensures PeakCentred(rain, p)[p] == rain[0]
    ensures forall j | 0 <= j < |rain| :: PeakCentred(rain, p)[Target(p, |rain|, j)] == rain[j]
  {
    PlacementBijective(p, |rain|);
  }

  /**
   * The twelve half-hour depths of the design storm built from the depths
   * of the most intense half hour, hour and six hours.
   */
  function DesignStorm(p05: real, p1: real, p6: real): seq<real>
  {
    var delta := p6 - p1;
    [delta * 0.15 / 2.0, delta * 0.15 / 2.0, delta * 0.17 / 2.0, delta * 0.17 / 2.0,
     delta * 0.19 / 2.0, delta * 0.19 / 2.0, p05, p1 - p05,
     delta * 0.32 / 2.0, delta * 0.32 / 2.0, delta * 0.17 / 2.0, delta * 0.17 / 2.0]
  }

  /**
   * The design storm holds the most intense hour in intervals 6 and 7, and
   * its whole depth is the six-hour depth.
   */
  lemma DesignStormTotal(p05: real, p1: real, p6: real)
    ensures |DesignStorm(p05, p1, p6)| == 12
    ensures DesignStorm(p05, p1, p6)[6] + DesignStorm(p05, p1, p6)[7] == p1
    ensures Sum(DesignStorm(p05, p1, p6)) == p6
  {
    var s := DesignStorm(p05, p1, p6);
    var delta := p6 - p1;
    assert s == s[..3] + s[3..6] + (s[6..9] + s[9..]);
    SumAppend(s[..3], s[3..6]);
    SumAppend(s[6..9], s[9..]);
    SumAppend(s[..3] + s[3..6], s[6..9] + s[9..]);
    SumThree(s[0], s[1], s[2]);
    assert s[..3] == [s[0], s[1], s[2]];
    SumThree(s[3], s[4], s[5]);
    assert s[3..6] == [s[3], s[4], s[5]];
    SumThree(s[6], s[7], s[8]);
    assert s[6..9] == [s[6], s[7], s[8]];
    SumThree(s[9], s[10], s[11]);
    assert s[9..] == [s[9], s[10], s[11]];
  }

  lemma SumThree(a: real, b: real, c: real)
    ensures Sum([a, b, c]) == a + b + c
  {
    assert [a][..0] == [];
    assert Sum([a]) == a;
    assert [a, b][..1] == [a];
    assert Sum([a, b]) == a + b;
    assert [a, b, c][..2] == [a, b];
  }

  // ---------------------------------------------------------------------
  // Rainfall over a time window
  // ---------------------------------------------------------------------

  /**
   * Interval positions: time `t` lies `t / interval` intervals into the
   * series.  A window runs from position `x` to position `y`.
   */
  function Position(interval: int, t: real): real
    requires interval > 0
  {
    t / interval as real
  }

  /** The window's first interval, clamped to the series start. */
  function FirstOf(x: real): int
  {
    Max(x.Floor, 0)
  }

  /** The window's last interval, clamped to the series end. */
  function LastOf(len: int, y: real): int
  {
    Min(y.Floor, len - 1)
  }

  /** Both clamped intervals exist, so `getRainfall` reads inside the array. */
  predicate WindowInside(len: int, interval: int, start: real, duration: real)
  {
    interval > 0 && FirstOf(Position(interval, start)) < len && LastOf(len, Position(interval, start + duration)) >= 0
  }

  /** The sum of entries `lo` up to `hi`, exclusive; 0 when the range is empty. */
  function SumRange(s: seq<real>, lo: int, hi: int): real
    requires 0 <= lo && hi <= |s|
  {
    if lo >= hi then 0.0 else Sum(s[lo..hi])
  }

  lemma SumRangeStep(s: seq<real>, lo: int, i: int)
    requires 0 <= lo <= i < |s|
    ensures SumRange(s, lo, i + 1) == SumRange(s, lo, i) + s[i]
  {
    if lo == i {
      var w := s[i..i + 1];
      assert w[..|w| - 1] == [];
      assert Sum(w) == Sum(w[..|w| - 1]) + w[0];
    } else {
      assert s[lo..i + 1][..i - lo] == s[lo..i];
    }
  }

  /**
   * `getRainfall` over positions `x` to `y`: the whole intervals from the
   * first to the last touched, less the part of the first interval before
   * `x` and the part of the last one after `y`.
   */
  function WindowAt(s: seq<real>, x: real, y: real): real
    requires FirstOf(x) < |s| && LastOf(|s|, y) >= 0
  {
    var a := FirstOf(x);
    var b := LastOf(|s|, y);
    SumRange(s, a, b + 1) - s[a] * (x - a as real) - s[b] * (1.0 - (y - b as real))
  }

  /** `getRainfall` as the code computes it, over times. */
  function Window(s: seq<real>, interval: int, start: real, duration: real): real
    requires WindowInside(|s|, interval, start, duration)
  {
    WindowAt(s, Position(interval, start), Position(interval, start + duration))
  }

  /**
   * The reference: the depth fallen from the series start up to position
   * `x`, the rain of each interval falling evenly across it.
   */
  function CumulativeAt(s: seq<real>, x: real): real
    requires 0.0 <= x
  {
    var a := x.Floor;
    if a >= |s| then Sum(s) else Sum(s[..a]) + s[a] * (x - a as real)
  }

  /** The depth fallen from the series start up to time `t`. */
  function Cumulative(s: seq<real>, interval: int, t: real): real
    requires interval > 0 && 0.0 <= t
  {
    CumulativeAt(s, Position(interval, t))
  }

  /** Dividing by a positive length keeps the order of non-negative times. */
  lemma DivMonotone(u: real, v: real, iv: real)
    requires 0.0 <= u <= v && iv > 0.0
    ensures 0.0 <= u / iv <= v / iv
  {
    assert v / iv - u / iv == (v - u) / iv;
  }

  lemma DivStrict(u: real, v: real, iv: real)
    requires u < v && iv > 0.0
    ensures u / iv < v / iv
  {
    assert v / iv - u / iv == (v - u) / iv;
  }

  /** A slice sum is the difference of two prefix sums. */
  lemma SliceSum(s: seq<real>, lo: int, hi: int)
    requires 0 <= lo <= hi <= |s|
    ensures Sum(s[lo..hi]) == Sum(s[..hi]) - Sum(s[..lo])
  {
    assert s[..hi] == s[..lo] + s[lo..hi];
    SumAppend(s[..lo], s[lo..hi]);
  }

  /**
   * Inside the series, the rainfall over a window is the depth fallen by
   * its end less the depth fallen by its start.
   */
  lemma WindowIsDifference(s: seq<real>, interval: int, start: real, duration: real)
    requires interval > 0 && 0.0 <= start && 0.0 <= duration
    requires start < (|s| * interval) as real && start + duration <= (|s| * interval) as real
    ensures WindowInside(|s|, interval, start, duration)
    ensures Window(s, interval, start, duration) ==
      Cumulative(s, interval, start + duration) - Cumulative(s, interval, start)
  {
    var iv := interval as real;
    assert (|s| * interval) as real == (|s| as real) * iv;
    FloorsInside(|s|, iv, start, duration);
    WindowAtIsDifference(s, Position(interval, start), Position(interval, start + duration));
  }

  /** The same over positions. */
  lemma WindowAtIsDifference(s: seq<real>, x: real, y: real)
    requires 0.0 <= x <= y <= |s| as real && x < |s| as real
    ensures FirstOf(x) < |s| && LastOf(|s|, y) >= 0
    ensures WindowAt(s, x, y) == CumulativeAt(s, y) - CumulativeAt(s, x)
  {
    if y.Floor < |s| {
      WindowEndsInside(s, x, y);
    } else {
      WindowEndsAtLast(s, x, y);
    }
  }

  /** The window ends inside interval `y.Floor`: part of that interval counts. */
  lemma WindowEndsInside(s: seq<real>, x: real, y: real)
    requires 0.0 <= x <= y && y.Floor < |s|
    ensures FirstOf(x) < |s| && LastOf(|s|, y) >= 0
    ensures WindowAt(s, x, y) == CumulativeAt(s, y) - CumulativeAt(s, x)
  {
    var a := x.Floor;
    var e := y.Floor;
    assert FirstOf(x) == a && LastOf(|s|, y) == e;
    assert SumRange(s, a, e + 1) == Sum(s[..e]) + s[e] - Sum(s[..a]) by {
      SliceSum(s, a, e + 1);
      SumPrefix(s, e);
    }
    PartialEnd(Sum(s[..a]), Sum(s[..e]), s[e], s[a] * (x - a as real), y - e as real);
  }

  /** The algebra of a window ending part-way through its last interval. */
  lemma PartialEnd(before: real, upTo: real, last: real, head: real, f: real)
    ensures (upTo + last - before) - head - last * (1.0 - f) == (upTo + last * f) - (before + head)
  {
  }

  /** The window ends at the end of the series: the last interval counts whole. */
  lemma WindowEndsAtLast(s: seq<real>, x: real, y: real)
    requires 0.0 <= x <= y == |s| as real && x < |s| as real
    ensures FirstOf(x) < |s| && LastOf(|s|, y) >= 0
    ensures WindowAt(s, x, y) == CumulativeAt(s, y) - CumulativeAt(s, x)
  {
    var a := x.Floor;
    var b := |s| - 1;
    assert y.Floor == |s|;
    assert FirstOf(x) == a && LastOf(|s|, y) == b;
    SliceSum(s, a, b + 1);
    assert s[..|s|] == s;
    assert 1.0 - (y - b as real) == 0.0;
    assert WindowAt(s, x, y) == Sum(s) - Sum(s[..a]) - s[a] * (x - a as real);
  }


  /** Where the window's start and end fall, in interval positions. */
  lemma FloorsInside(len: nat, iv: real, start: real, duration: real)
    requires iv > 0.0 && 0.0 <= start && 0.0 <= duration
    requires start < (len as real) * iv && start + duration <= (len as real) * iv
    ensures 0.0 <= start / iv <= (start + duration) / iv <= len as real
    ensures start / iv < len as real
  {
    DivMonotone(start, start + duration, iv);
    DivMonotone(start + duration, (len as real) * iv, iv);
    assert (len as real) * iv / iv == len as real;
    DivStrict(start, (len as real) * iv, iv);
  }

  /** At the end of a whole interval the depth fallen is the sum of the intervals before it. */
  lemma CumulativeAligned(s: seq<real>, interval: int, m: int)
    requires interval > 0 && 0 <= m <= |s|
    ensures Cumulative(s, interval, (m * interval) as real) == Sum(s[..m])
  {
    var iv := interval as real;
    assert (m * interval) as real == m as real * iv;
    assert Position(interval, (m * interval) as real) == m as real;
    assert (m as real).Floor == m;
    if m == |s| {
      assert s[..m] == s;
    }
  }

  /**
   * An interval-aligned window inside the series receives exactly the
   * rainfall of the whole intervals it covers.
   */
  lemma WindowAligned(s: seq<real>, interval: int, m: int, n: int)
    requires interval > 0 && 0 <= m < |s| && 0 <= n && m + n <= |s|
    ensures WindowInside(|s|, interval, (m * interval) as real, (n * interval) as real)
    ensures Window(s, interval, (m * interval) as real, (n * interval) as real) == Sum(s[m..m + n])
  {
    var start, duration := (m * interval) as real, (n * interval) as real;
    assert start + duration == ((m + n) * interval) as real by {
      assert m * interval + n * interval == (m + n) * interval;
    }
    assert start + duration <= (|s| * interval) as real by {
      MulNonNegative(|s| - (m + n), interval);
      assert |s| * interval - (m + n) * interval == (|s| - (m + n)) * interval;
    }
    assert start < (|s| * interval) as real by {
      MulAtLeast(|s| - m, interval);
      assert |s| * interval - m * interval == (|s| - m) * interval;
    }
    assert 0.0 <= duration by {
      MulNonNegative(n, interval);
    }
    WindowIsDifference(s, interval, start, duration);
    CumulativeAligned(s, interval, m);
    CumulativeAligned(s, interval, m + n);
    SliceSum(s, m, m + n);
  }

  lemma MulNonNegative(a: int, b: int)
    requires a >= 0 && b >= 0
    ensures a * b >= 0
  {
  }

  /** A whole number of intervals divides back into that number. */
  lemma WholeIntervals(n: int, b: int)
    requires n >= 0 && b > 0
    ensures n * b >= 0 && (n * b) % b == 0 && (n * b) / b == n
  {
    MulNonNegative(n, b);
  }

  // ---------------------------------------------------------------------
  // Rainfall of one interval, as the hyetogram table reads it
  // ---------------------------------------------------------------------

  /** `getRainfallAtInterval` as written: only indices strictly above 0 read the series. */
  function AtInterval(s: seq<real>, i: int): real
  {
    if i < |s| && i > 0 then s[i] else 0.0
  }

  /** The evidently intended reading: every index of the series reads its entry. */
  function AtIntervalIntended(s: seq<real>, i: int): real
  {
    if 0 <= i < |s| then s[i] else 0.0
  }

  /** The column of depths the hyetogram table writes, reading intervals 0 to `|s| - 1`. */
  function Column(s: seq<real>, intended: bool): seq<real>
  {
    seq(|s|, j requires 0 <= j < |s| => if intended then AtIntervalIntended(s, j) else AtInterval(s, j))
  }

  /**
   * As written, the column loses the first interval: it reads 0 there, so
   * the column's total falls short of the storm's by the first depth.
   */
  lemma ColumnLosesFirst(s: seq<real>)
    requires |s| >= 1
    ensures Column(s, false) == [0.0] + s[1..]
    ensures Sum(Column(s, false)) == Sum(s) - s[0]
  {
    var rest := s[1..];
    assert forall j | 0 <= j < |s| :: Column(s, false)[j] == ([0.0] + rest)[j];
    assert Column(s, false) == [0.0] + rest;
    FirstZeroedTotal(s);
  }

  lemma FirstZeroedTotal(s: seq<real>)
    requires |s| >= 1
    ensures Sum([0.0] + s[1..]) == Sum(s) - s[0]
  {
    FirstZeroed(s[0], s[1..]);
    assert s == [s[0]] + s[1..];
  }

  /** Replacing the first entry by 0 takes that entry off the sum. */
  lemma FirstZeroed(v: real, rest: seq<real>)
    ensures Sum([0.0] + rest) == Sum([v] + rest) - v
  {
    SumAppend([v], rest);
    SumAppend([0.0], rest);
    SingletonSum(v);
    SingletonSum(0.0);
  }

  lemma SingletonSum(v: real)
    ensures Sum([v]) == v
  {
    assert [v][..0] == [];
  }

  /** A storm whose first interval rains: its table row for time 0 shows no rain. */
  lemma FirstIntervalExample()
    ensures AtInterval([2.0, 1.0], 0) == 0.0 != [2.0, 1.0][0]
  {
  }

  /** With the intended reading the column is the series itself. */
  lemma ColumnIntended(s: seq<real>)
    ensures Column(s, true) == s
  {
  }

  // ---------------------------------------------------------------------
  // Normalisation
  // ---------------------------------------------------------------------

  /** Every entry divided by `t`. */
  function Divided(s: seq<real>, t: real): (r: seq<real>)
    requires t != 0.0
  {
    seq(|s|, i requires 0 <= i < |s| => s[i] / t)
  }

  /** A series divided by its own total sums to one. */
  lemma NormalizedTotal(s: seq<real>)
    requires Sum(s) != 0.0
    ensures Sum(Divided(s, Sum(s))) == 1.0
  {
    var t := Sum(s);
    assert forall i | 0 <= i < |s| :: Divided(s, t)[i] == Scaled(s, 1.0 / t)[i];
    assert Divided(s, t) == Scaled(s, 1.0 / t);
    ScaledSum(s, 1.0 / t);
  }

  /** The increments of the depth-duration curve over `len` intervals. */
  method IncrementsOf(depthAt: int -> real, len: nat) returns (rain: array<real>)
    ensures fresh(rain) && rain[..] == Increments(depthAt, len)
  {
    ghost var inc := Increments(depthAt, len);
    rain := new real[len];
    var fallen := 0.0;
    var i := 0;
    while i < len
      invariant 0 <= i <= len
      invariant fallen == (if i == 0 then 0.0 else depthAt(i))
      invariant rain[..i] == inc[..i]
    {
      var total := depthAt(i + 1);
      assert inc[i] == total - fallen;
      rain[i] := total - fallen;
      assert rain[..i + 1] == inc[..i] + [inc[i]];
      assert inc[..i + 1] == inc[..i] + [inc[i]];
      fallen := total;
      i := i + 1;
    }
    assert rain[..] == rain[..len];
  }


  /** What step `i` of the placement adds: one increment above the peak, then one below it. */
  lemma SourceStep(p: int, len: int, i: int)
    requires 0 <= p < len && i >= 1
    ensures p + i < len ==> Source(p, len, p + i) == Min(i - 1, len - 1 - p) + Min(i - 1, p) + 1
    ensures p - i >= 0 ==>
      Source(p, len, p - i) == Min(i - 1, len - 1 - p) + Min(i - 1, p) + (if p + i < len then 1 else 0) + 1
    ensures Min(i, len - 1 - p) + Min(i, p) ==
      Min(i - 1, len - 1 - p) + Min(i - 1, p) + (if p + i < len then 1 else 0) + (if p - i >= 0 then 1 else 0)
  {
  }

  /** Step `i` of the placement loop: the next increments go to `p + i`, then to `p - i`. */
  method PlaceStep(rain: array<real>, placed: array<real>, p: int, i: int, k: int) returns (k': int)
    requires placed != rain && placed.Length == rain.Length && 0 <= p < rain.Length && i >= 1
    requires k == Min(i - 1, rain.Length - 1 - p) + Min(i - 1, p)
    requires forall q | 0 <= q < rain.Length && p - i < q < p + i :: placed[q] == rain[Source(p, rain.Length, q)]
    modifies placed
    ensures k' == Min(i, rain.Length - 1 - p) + Min(i, p)
    ensures forall q | 0 <= q < rain.Length && p - i - 1 < q < p + i + 1 :: placed[q] == rain[Source(p, rain.Length, q)]
  {
    var len := rain.Length;
    SourceStep(p, len, i);
    k' := k;
    var q := p + i;
    if q < len {
      k' := k' + 1;
      placed[q] := rain[k'];
    }
    q := p - i;
    if q >= 0 {
      k' := k' + 1;
      placed[q] := rain[k'];
    }
  }

  /**
   * The placement loop: the first increment at the peak, then step `i`
   * takes the next increment to `p + i` and the one after to `p - i`,
   * skipping positions outside the series.
   */
  method PlaceAroundPeak(rain: array<real>, p: int) returns (placed: array<real>)
    requires 0 <= p < rain.Length
    ensures fresh(placed) && placed[..] == PeakCentred(rain[..], p)
  {
    var len := rain.Length;
    var steps := Max(p, len - 1 - p);
    placed := new real[len](_ => 0.0);
    var k := 0;
    placed[p] := rain[0];
    var i := 1;
    while i < steps + 1
      invariant 1 <= i <= steps + 1
      invariant k == Min(i - 1, len - 1 - p) + Min(i - 1, p)
      invariant forall q | 0 <= q < len && p - i < q < p + i :: placed[q] == rain[Source(p, len, q)]
    {
      k := PlaceStep(rain, placed, p, i, k);
      i := i + 1;
    }
    assert forall q | 0 <= q < len :: placed[..][q] == PeakCentred(rain[..], p)[q];
  }

  /** The loop of `getRainfall` adding the whole intervals `lo` to `hi - 1`. */
  method SumBetween(a: array<real>, lo: int, hi: int) returns (total: real)
    requires 0 <= lo <= a.Length && hi <= a.Length
    ensures total == SumRange(a[..], lo, hi)
  {
    total := 0.0;
    var i := lo;
    while i < hi
      invariant lo <= i <= Max(lo, hi)
      invariant total == SumRange(a[..], lo, i)
    {
      SumRangeStep(a[..], lo, i);
      total := total + a[i];
      i := i + 1;
    }
  }

  class Hyetograph {
    var rainfall: array<real>
    const interval: int

    /**
     * The storm built from a depth-duration curve: `time / interval`
     * intervals, whose increments are placed around the peak interval
     * `peakTime / interval - 1`.  The depth-duration formula itself is the
     * parameter `depthAt`.
     */
    constructor PeakCentredStorm(depthAt: int -> real, time: int, interval: int, peakTime: int)
      requires interval > 0
      requires 0 <= TruncDiv(peakTime, interval) - 1 < TruncDiv(time, interval)
      ensures this.interval == interval && fresh(rainfall)
      ensures rainfall[..] ==
        PeakCentred(Increments(depthAt, TruncDiv(time, interval)), TruncDiv(peakTime, interval) - 1)
    {
      var rain := IncrementsOf(depthAt, TruncDiv(time, interval));
      this.interval := interval;
      var placed := PlaceAroundPeak(rain, TruncDiv(peakTime, interval) - 1);
      rainfall := placed;
    }

    /** A hyetograph over a copy of the given depths. */
    constructor FromArray(source: array<real>, interval: int)
      ensures this.interval == interval && fresh(rainfall)
      ensures rainfall[..] == source[..]
    {
      var copy := new real[source.Length](_ => 0.0);
      var i := 0;
      while i < source.Length
        invariant 0 <= i <= source.Length
        invariant forall j | 0 <= j < i :: copy[j] == source[j]
      {
        copy[i] := source[i];
        i := i + 1;
      }
      rainfall := copy;
      this.interval := interval;
    }

    /** The half-hourly design storm of twelve intervals. */
    constructor DesignStormOf(p05: real, p1: real, p6: real)
      ensures interval == 1800 && fresh(rainfall)
      ensures rainfall[..] == DesignStorm(p05, p1, p6)
    {
      var depths := DesignStorm(p05, p1, p6);
      var r := new real[12](i requires 0 <= i < 12 => depths[i]);
      assert r[..] == depths;
      rainfall := r;
      interval := 1800;
    }

    /** `getIntervals`: the number of entries; from there on every interval reads no rain. */
    function Intervals(): (n: int)
      reads this, rainfall
      ensures n == |rainfall[..]|
      ensures forall i | i >= n :: AtInterval(rainfall[..], i) == 0.0
    {
      rainfall.Length
    }

    /** `getDuration`: the number of intervals times their length. */
    function Duration(): (t: int)
      reads this, rainfall
      ensures interval > 0 ==> t >= 0 && t % interval == 0 && t / interval == Intervals()
    {
      if interval > 0 then WholeIntervals(rainfall.Length, interval); rainfall.Length * interval
      else rainfall.Length * interval
    }

    /**
     * `delay`: the series moves `time / interval` whole intervals later,
     * with no rain before it; the duration grows by those intervals.
     */
    method Delay(time: int)
      requires interval > 0 && TruncDiv(time, interval) >= 0
      modifies this`rainfall
      ensures fresh(rainfall)
      ensures rainfall[..] == Shifted(old(rainfall[..]), TruncDiv(time, interval))
      ensures Intervals() == old(Intervals()) + TruncDiv(time, interval)
      ensures Duration() == old(Duration()) + TruncDiv(time, interval) * interval
    {
      var k := TruncDiv(time, interval);
      var src := rainfall;
      var delayed := new real[src.Length + k](_ => 0.0);
      var i := 0;
      while i < src.Length
        invariant 0 <= i <= src.Length
        invariant forall j | 0 <= j < k :: delayed[j] == 0.0
        invariant forall j | 0 <= j < i :: delayed[j + k] == src[j]
      {
        delayed[i + k] := src[i];
        i := i + 1;
      }
      ShiftedAt(src[..], k);
      assert forall j | 0 <= j < delayed.Length :: delayed[..][j] == Shifted(src[..], k)[j] by {
        forall j | 0 <= j < delayed.Length
          ensures delayed[..][j] == Shifted(src[..], k)[j]
        {
          if j >= k { assert delayed[(j - k) + k] == src[j - k]; }
        }
      }
      rainfall := delayed;
    }

    /** `getRainfall`: the depth over the window from `start` lasting `duration` seconds. */
    method Rainfall(start: real, duration: real) returns (total: real)
      requires WindowInside(rainfall.Length, interval, start, duration)
      ensures total == Window(rainfall[..], interval, start, duration)
    {
      var x := start / interval as real;
      var y := (start + duration) / interval as real;
      var first := x.Floor;
      var last := y.Floor;
      first := Max(first, 0);
      last := Min(last, rainfall.Length - 1);
      total := SumBetween(rainfall, first, last + 1);
      total := total - rainfall[first] * (x - first as real);
      total := total - rainfall[last] * (1.0 - (y - last as real));
    }

    /** `getIntensity`: the rainfall of the window per second of it. */
    method Intensity(start: real, duration: real) returns (r: real)
      requires WindowInside(rainfall.Length, interval, start, duration) && duration != 0.0
      ensures r == Window(rainfall[..], interval, start, duration) / duration
    {
      r := Rainfall(start, duration);
      r := r / duration;
    }

    /** `getTotalRainfall`: the sum of all depths. */
    method TotalRainfall() returns (total: real)
      ensures total == Sum(rainfall[..])
    {
      total := 0.0;
      var i := 0;
      while i < rainfall.Length
        invariant 0 <= i <= rainfall.Length
        invariant total == Sum(rainfall[..i])
      {
        SumPrefix(rainfall[..], i);
        assert rainfall[..][..i] == rainfall[..i];
        assert rainfall[..][..i + 1] == rainfall[..i + 1];
        total := total + rainfall[i];
        i := i + 1;
      }
      assert rainfall[..i] == rainfall[..];
    }

    /** `getAverageRainfallIntensity`: the total depth per second of the storm. */
    method AverageIntensity() returns (r: real)
      requires rainfall.Length * interval != 0
      ensures r == Sum(rainfall[..]) / (rainfall.Length * interval) as real
    {
      r := TotalRainfall();
      r := r / (rainfall.Length as real * interval as real);
    }

    /** `normalize`: every depth divided by the total taken before the first division. */
    method Normalize()
      requires Sum(rainfall[..]) != 0.0
      modifies rainfall
      ensures rainfall[..] == Divided(old(rainfall[..]), old(Sum(rainfall[..])))
    {
      var total := TotalRainfall();
      var i := 0;
      while i < rainfall.Length
        invariant 0 <= i <= rainfall.Length
        invariant forall j | 0 <= j < i :: rainfall[j] == old(rainfall[j]) / total
        invariant forall j | i <= j < rainfall.Length :: rainfall[j] == old(rainfall[j])
      {
        rainfall[i] := rainfall[i] / total;
        i := i + 1;
      }
      assert forall j | 0 <= j < rainfall.Length :: rainfall[..][j] == Divided(old(rainfall[..]), total)[j];
    }

    /** `getNormalized`: a normalised copy; this hyetograph is left as it was. */
    method Normalized() returns (h: Hyetograph)
      requires Sum(rainfall[..]) != 0.0
      ensures fresh(h) && fresh(h.rainfall) && h.interval == interval
      ensures h.rainfall[..] == Divided(rainfall[..], Sum(rainfall[..]))
      ensures rainfall[..] == old(rainfall[..])
    {
      h := new Hyetograph.FromArray(rainfall, interval);
      h.Normalize();
    }

    /** `getRainfallAtInterval`, as written (see `AtInterval`). */
    function RainfallAtInterval(i: int): (r: real)
      reads this, rainfall
      ensures 0 < i < rainfall.Length ==> r == rainfall[i]
      ensures i <= 0 || i >= rainfall.Length ==> r == 0.0
    {
      AtInterval(rainfall[..], i)
    }
  }
}
