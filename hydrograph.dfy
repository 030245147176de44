/**
 * The hydrograph of the modelling package: a flow value per time interval
 * (cubic metres) with the interval length in seconds, the operations that
 * shift, combine and scale it, and the read-only summaries (peak, time to
 * peak, total runoff) with the text form of a time span.
 */
module Hydrographs {
  import opened Series

  /** `getPeak`'s running maximum, which starts at negative infinity. */
  datatype Extended = NegativeInfinity | Finite(value: real)

  /** Entry `i` of a series, or 0 past its end. */
  function EntryOr0(s: seq<real>, i: nat): real
  {
    if i < |s| then s[i] else 0.0
  }

  function Max(a: int, b: int): int
  {
    if a >= b then a else b
  }

  /**
   * Two series of the same interval added entry by entry; the result is as
   * long as the longer one and the shorter one counts 0 past its end.
   */
  function Added(a: seq<real>, b: seq<real>): (r: seq<real>)
    ensures |r| == Max(|a|, |b|)
  {
    seq(Max(|a|, |b|), i requires 0 <= i => EntryOr0(a, i) + EntryOr0(b, i))
  }

  /** The order of the two operands does not matter. */
  lemma AddedCommutes(a: seq<real>, b: seq<real>)
    ensures Added(a, b) == Added(b, a)
  {
  }

  /** A series padded with zeros up to length `n`. */
  function Padded(s: seq<real>, n: nat): seq<real>
    requires |s| <= n
  {
    s + seq(n - |s|, _ => 0.0)
  }

  /** The entry-wise sum of two series of one length. */
  function Pairwise(a: seq<real>, b: seq<real>): seq<real>
    requires |a| == |b|
  {
    seq(|a|, i requires 0 <= i < |a| => a[i] + b[i])
  }

  lemma {:induction false} PairwiseSum(a: seq<real>, b: seq<real>)
    requires |a| == |b|
    ensures Sum(Pairwise(a, b)) == Sum(a) + Sum(b)
  {
    if a != [] {
      var n := |a| - 1;
      assert Pairwise(a, b)[..n] == Pairwise(a[..n], b[..n]);
      PairwiseSum(a[..n], b[..n]);
    }
  }

  /** Adding two hydrographs adds their volumes: the entries of the sum total the entries of both. */
  lemma AddedSum(a: seq<real>, b: seq<real>)
    ensures Sum(Added(a, b)) == Sum(a) + Sum(b)
  {
    var n := Max(|a|, |b|);
    assert Added(a, b) == Pairwise(Padded(a, n), Padded(b, n));
    PairwiseSum(Padded(a, n), Padded(b, n));
    SumAppend(a, seq(n - |a|, _ => 0.0));
    SumZeros(n - |a|);
    SumAppend(b, seq(n - |b|, _ => 0.0));
    SumZeros(n - |b|);
  }

  /** Every entry raised by `c`: `add(float)`. */
  function Offset(s: seq<real>, c: real): (r: seq<real>)
  {
    seq(|s|, i requires 0 <= i < |s| => s[i] + c)
  }

  lemma {:induction false} OffsetSum(s: seq<real>, c: real)
    ensures Sum(Offset(s, c)) == Sum(s) + c * |s| as real
  {
    if s != [] {
      var n := |s| - 1;
      assert Offset(s, c)[..n] == Offset(s[..n], c);
      OffsetSum(s[..n], c);
    }
  }

  /**
   * Total runoff by the trapezoid rule: each pair of consecutive entries
   * contributes their mean times the interval.
   */
  function Runoff(s: seq<real>, interval: int): real
  {
    if |s| < 2 then 0.0
    else Runoff(s[..|s| - 1], interval) + (s[|s| - 2] + s[|s| - 1]) / 2.0 * interval as real
  }

  /**
   * The trapezoid sum in closed form: the interval times the sum of the
   * entries less half of the two end entries.
   */
  lemma {:induction false} RunoffClosedForm(s: seq<real>, interval: int)
    requires |s| >= 1
    ensures Runoff(s, interval) == (Sum(s) - (s[0] + s[|s| - 1]) / 2.0) * interval as real
  {
    if |s| >= 2 {
      var n := |s| - 1;
      RunoffClosedForm(s[..n], interval);
      assert s[..n][n - 1] == s[n - 1];
      assert s[..n][0] == s[0];
    } else {
      assert s[..0] == [];
    }
  }

  /** Runoff of non-negative flows over a non-negative interval is non-negative. */
  lemma {:induction false} RunoffNonNegative(s: seq<real>, interval: int)
    requires interval >= 0
    requires forall i | 0 <= i < |s| :: s[i] >= 0.0
    ensures Runoff(s, interval) >= 0.0
  {
    if |s| >= 2 {
      RunoffNonNegative(s[..|s| - 1], interval);
    }
  }

  /** Scaling the flows scales the runoff. */
  lemma RunoffScaled(s: seq<real>, f: real, interval: int)
    ensures Runoff(Scaled(s, f), interval) == Runoff(s, interval) * f
  {
    if |s| >= 1 {
      RunoffClosedForm(s, interval);
      RunoffClosedForm(Scaled(s, f), interval);
      ScaledSum(s, f);
    }
  }

  /** Raising every flow by `c` adds `c` over every interval but the last. */
  lemma RunoffOffset(s: seq<real>, c: real, interval: int)
    requires |s| >= 1
    ensures Runoff(Offset(s, c), interval) == Runoff(s, interval) + c * (|s| - 1) as real * interval as real
  {
    RunoffClosedForm(s, interval);
    RunoffClosedForm(Offset(s, c), interval);
    OffsetSum(s, c);
  }

  /**
   * A delay of at least one interval puts a zero before the first flow, so
   * the runoff gains the trapezoid from 0 up to the first flow.
   */
  lemma RunoffDelayed(s: seq<real>, k: nat, interval: int)
    requires |s| >= 1 && k >= 1
    ensures Runoff(Shifted(s, k), interval) == Runoff(s, interval) + s[0] / 2.0 * interval as real
  {
    ShiftedAt(s, k);
    RunoffClosedForm(s, interval);
    RunoffClosedForm(Shifted(s, k), interval);
    ShiftedSum(s, k);
    assert Shifted(s, k)[|s| - 1 + k] == s[|s| - 1];
  }

  /** `m` is the largest entry of `s`, or negative infinity when `s` is empty. */
  predicate IsMaximum(s: seq<real>, m: Extended)
  {
    && (m == NegativeInfinity <==> |s| == 0)
    && (m.Finite? ==> (exists i | 0 <= i < |s| :: s[i] == m.value) && forall i | 0 <= i < |s| :: s[i] <= m.value)
  }

  /** `k` is the first index of `s` holding its largest entry. */
  predicate FirstPeak(s: seq<real>, k: int)
  {
    && 0 <= k < |s|
    && (forall i | 0 <= i < |s| :: s[i] <= s[k])
    && (forall i | 0 <= i < k :: s[i] < s[k])
  }

  class Hydrograph {
    var flow: array<real>
    const interval: int

    /** A one-interval hydrograph of zero flow. */
    constructor (interval: int)
      ensures fresh(flow) && flow[..] == [0.0] && this.interval == interval
    {
      flow := new real[1](_ => 0.0);
      this.interval := interval;
    }

    /** A hydrograph over the caller's own array (it is not copied). */
    constructor FromArray(h: array<real>, interval: int)
      ensures flow == h && this.interval == interval
    {
      flow := h;
      this.interval := interval;
    }

    /**
     * `delay`: the series moves `time / interval` whole intervals later,
     * with zero flow before it.  The zeroing loop writes index `k`, so the
     * series must hold at least one entry.
     */
    method Delay(time: int)
      requires interval > 0 && TruncDiv(time, interval) >= 0 && flow.Length >= 1
      modifies this`flow
      ensures fresh(flow)
      ensures flow[..] == Shifted(old(flow[..]), TruncDiv(time, interval))
    {
      var k := TruncDiv(time, interval);
      var src := flow;
      var delayed := new real[src.Length + k](_ => 0.0);
      var i := 0;
      while i < k + 1
        invariant 0 <= i <= k + 1
        invariant forall j | 0 <= j < delayed.Length :: delayed[j] == 0.0
      {
        delayed[i] := 0.0;
        i := i + 1;
      }
      i := 0;
      while i < src.Length
        invariant 0 <= i <= src.Length
        invariant forall j | 0 <= j < k :: delayed[j] == 0.0
        invariant forall j | 0 <= j < i :: delayed[j + k] == src[j]
      {
        delayed[i + k] := src[i];
        i := i + 1;
      }
      ShiftedAt(src[..], k);
      assert forall j | 0 <= j < delayed.Length :: delayed[..][j] == Shifted(src[..], k)[j] by {
        forall j | 0 <= j < delayed.Length
          ensures delayed[..][j] == Shifted(src[..], k)[j]
        {
          if j >= k { assert delayed[(j - k) + k] == src[j - k]; }
        }
      }
      flow := delayed;
    }

    /**
     * `getFlow`: the flow of the interval holding `time`.  The index is the
     * quotient truncated toward zero, so a time less than one interval
     * before 0 reads the first interval.
     */
    function Flow(time: int): (r: real)
      reads this, flow
      requires interval > 0 && 0 <= TruncDiv(time, interval) < flow.Length
      ensures forall k | 0 <= k < flow.Length && k * interval <= time < k * interval + interval :: r == flow[k]
      ensures -interval < time < 0 ==> r == flow[0]
    {
      var k := TruncDiv(time, interval);
      assert forall j | 0 <= j < flow.Length && j * interval <= time < j * interval + interval :: j == k by {
        forall j | 0 <= j < flow.Length && j * interval <= time < j * interval + interval
          ensures j == k
        {
          if j < k { MulAtLeast(k - j, interval); }
          if j > k { MulAtLeast(j - k, interval); }
        }
      }
      flow[k]
    }

    /**
     * `add(Hydrograph)`: with an equal interval the flows are added entry
     * by entry into a new array as long as the longer series; with a
     * different interval nothing changes.  `h` may be this hydrograph.
     */
    method Add(h: Hydrograph)
      requires h.interval == interval ==> interval > 0
      modifies this`flow
      ensures h.interval == interval ==> fresh(flow) && flow[..] == Added(old(h.flow[..]), old(flow[..]))
      ensures h.interval != interval ==> flow == old(flow)
    {
      if h.interval == interval {
        var mine, theirs := flow[..], h.flow[..];
        var n := Max(h.flow.Length, flow.Length);
        var sum := new real[n](_ => 0.0);
        var i := 0;
        while i < n
          invariant 0 <= i <= n
          invariant flow == old(flow) && h.flow == old(h.flow)
          invariant flow[..] == mine && h.flow[..] == theirs
          invariant forall j | 0 <= j < i :: sum[j] == EntryOr0(theirs, j) + EntryOr0(mine, j)
        {
          var fromH, own;
          if i >= h.flow.Length {
            fromH := 0.0;
          } else {
            TruncDivMultiple(i, interval);
            assert interval * i == i * interval;
            fromH := h.Flow(interval * i);
            assert fromH == theirs[i];
          }
          if i >= flow.Length {
            own := 0.0;
          } else {
            own := flow[i];
            assert own == mine[i];
          }
          sum[i] := fromH + own;
          i := i + 1;
        }
        assert forall j | 0 <= j < n :: sum[..][j] == Added(theirs, mine)[j];
        flow := sum;
      }
    }

    /** `add(float)`: every flow raised by `f`. */
    method AddConstant(f: real)
      modifies flow
      ensures flow[..] == Offset(old(flow[..]), f)
    {
      var i := 0;
      while i < flow.Length
        invariant 0 <= i <= flow.Length
        invariant forall j | 0 <= j < i :: flow[j] == old(flow[j]) + f
        invariant forall j | i <= j < flow.Length :: flow[j] == old(flow[j])
      {
        flow[i] := flow[i] + f;
        i := i + 1;
      }
      assert forall j | 0 <= j < flow.Length :: flow[..][j] == Offset(old(flow[..]), f)[j];
    }

    /** `multiply`: every flow scaled by `f`. */
    method Multiply(f: real)
      modifies flow
      ensures flow[..] == Scaled(old(flow[..]), f)
    {
      var i := 0;
      while i < flow.Length
        invariant 0 <= i <= flow.Length
        invariant forall j | 0 <= j < i :: flow[j] == old(flow[j]) * f
        invariant forall j | i <= j < flow.Length :: flow[j] == old(flow[j])
      {
        flow[i] := flow[i] * f;
        i := i + 1;
      }
      assert forall j | 0 <= j < flow.Length :: flow[..][j] == Scaled(old(flow[..]), f)[j];
    }

    /** `getPeak`: the largest flow, negative infinity for an empty series. */
    method Peak() returns (m: Extended)
      ensures IsMaximum(flow[..], m)
    {
      m := NegativeInfinity;
      var i := 0;
      while i < flow.Length
        invariant 0 <= i <= flow.Length
        invariant IsMaximum(flow[..i], m)
      {
        if m.NegativeInfinity? || flow[i] > m.value {
          m := Finite(flow[i]);
        }
        assert flow[..i + 1][i] == flow[i];
        assert forall j | 0 <= j < i :: flow[..i + 1][j] == flow[..i][j];
        i := i + 1;
      }
      assert flow[..i] == flow[..];
    }

    /**
     * `getPeakTime`: the start of the first interval holding the largest
     * flow (a later equal flow does not replace it), 0 for an empty series.
     */
    method PeakTime() returns (t: int)
      ensures flow.Length == 0 ==> t == 0
      ensures flow.Length > 0 ==> exists k :: FirstPeak(flow[..], k) && t == k * interval
    {
      t := 0;
      if flow.Length == 0 {
        return;
      }
      var best := flow[0];
      ghost var k := 0;
      var i := 1;
      while i < flow.Length
        invariant 1 <= i <= flow.Length
        invariant FirstPeak(flow[..i], k) && best == flow[k] && t == k * interval
      {
        if flow[i] > best {
          best := flow[i];
          t := i * interval;
          k := i;
        }
        assert flow[..i + 1][i] == flow[i];
        assert forall j | 0 <= j < i :: flow[..i + 1][j] == flow[..i][j];
        i := i + 1;
      }
      assert flow[..i] == flow[..];
    }

    /** `getTotalRunoff`: the trapezoid sum over consecutive intervals. */
    method TotalRunoff() returns (r: real)
      ensures r == Runoff(flow[..], interval)
    {
      r := 0.0;
      if flow.Length == 0 {
        assert flow[..] == [];
        return;
      }
      var i := 0;
      assert flow[..1][..0] == [];
      while i < flow.Length - 1
        invariant 0 <= i <= flow.Length - 1
        invariant r == Runoff(flow[..i + 1], interval)
      {
        assert flow[..i + 2][..i + 1] == flow[..i + 1];
        r := r + (flow[i] + flow[i + 1]) / 2.0 * interval as real;
        i := i + 1;
      }
      assert flow[..i + 1] == flow[..];
    }
  }

  /** Whole hours in `seconds`, truncated toward zero. */
  function Hours(seconds: int): int
  {
    TruncDiv(seconds, 3600)
  }

  /** Whole minutes left over after the hours, truncated toward zero. */
  function Minutes(seconds: int): int
  {
    TruncDiv(seconds - Hours(seconds) * 3600, 60)
  }

  /**
   * Hours and minutes split a time span: what is left is under a minute,
   * and the minutes stay under an hour (both toward zero for a negative
   * span).
   */
  lemma ClockSplit(seconds: int)
    ensures seconds >= 0 ==>
      0 <= Minutes(seconds) < 60 && 0 <= seconds - (Hours(seconds) * 3600 + Minutes(seconds) * 60) < 60
    ensures seconds < 0 ==>
      -60 < Minutes(seconds) <= 0 && -60 < seconds - (Hours(seconds) * 3600 + Minutes(seconds) * 60) <= 0
  {
  }

  /** The character of a decimal digit. */
  function DigitChar(d: int): char
    requires 0 <= d < 10
  {
    "0123456789"[d]
  }

  /** `Integer.toString` of a non-negative number: its decimal digits, no leading zeros. */
  function Digits(n: nat): (r: string)
    ensures |r| >= 1
    ensures forall i | 0 <= i < |r| :: '0' <= r[i] <= '9'
  {
    if n < 10 then [DigitChar(n)] else Digits(n / 10) + [DigitChar(n % 10)]
  }

  /** `Integer.toString`: a minus sign before the digits of a negative number. */
  function IntString(n: int): string
  {
    if n < 0 then "-" + Digits(-n) else Digits(n)
  }

  /** The number a string of decimal digits spells. */
  function DigitsValue(s: string): int
  {
    if s == [] then 0 else DigitsValue(s[..|s| - 1]) * 10 + (s[|s| - 1] as int - '0' as int)
  }

  /** Reading the digits back gives the number. */
  lemma {:induction false} DigitsRoundTrip(n: nat)
    ensures DigitsValue(Digits(n)) == n
  {
    if n >= 10 {
      var s := Digits(n);
      assert s[..|s| - 1] == Digits(n / 10);
      DigitsRoundTrip(n / 10);
    }
  }

  /** `transformSecToHourMin`: hours, `h`, minutes, `min`. */
  function HourMin(seconds: int): (text: string)
    ensures |text| >= 6 && text[|text| - 3..] == "min" && 'h' in text
  {
    IntString(Hours(seconds)) + "h" + IntString(Minutes(seconds)) + "min"
  }

  /**
   * For a non-negative span the text is the hours' digits, `h`, the
   * minutes' digits and `min`: the first `h` ends the hours, and both
   * numbers read back, leaving less than a minute of the span unshown.
   */
  lemma HourMinReadsBack(seconds: int)
    requires seconds >= 0
    ensures var text := HourMin(seconds);
      var hs := Digits(Hours(seconds));
      && text == hs + "h" + Digits(Minutes(seconds)) + "min"
      && (forall i | 0 <= i < |hs| :: text[i] != 'h')
      && text[|hs|] == 'h'
      && DigitsValue(hs) == Hours(seconds)
      && DigitsValue(Digits(Minutes(seconds))) == Minutes(seconds)
      && 0 <= seconds - (DigitsValue(hs) * 3600 + DigitsValue(Digits(Minutes(seconds))) * 60) < 60
  {
    ClockSplit(seconds);
    DigitsRoundTrip(Hours(seconds));
    DigitsRoundTrip(Minutes(seconds));
  }
}
