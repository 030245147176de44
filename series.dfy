/**
 * Values shared by the two time series of the modelling package
 * (hydrographs and hyetographs): the interval arithmetic both classes do
 * with Java's integer-to-double division, running sums and the shift that
 * both `delay` operations perform.
 */
module Series {

  /**
   * `(int) ((double) a / (double) b)` for a positive `b`: the quotient
   * truncated toward zero.  The double quotient of two 32-bit integers never
   * rounds across an integer, so the exact quotient gives the same value.
   */
  function TruncDiv(a: int, b: int): (k: int)
    requires b > 0
    ensures a >= 0 ==> k >= 0 && k * b <= a < k * b + b
    ensures a < 0 ==> k <= 0 && k * b - b < a <= k * b
  {
    if a >= 0 then
      DivBounds(a, b);
      a / b
    else
      DivBounds(-a, b);
      NegatedBounds(-a, (-a) / b, b);
      -((-a) / b)
  }

  lemma DivBounds(n: int, b: int)
    requires n >= 0 && b > 0
    ensures n / b >= 0 && (n / b) * b <= n < (n / b) * b + b
  {
    var q, r := n / b, n % b;
    assert n == b * q + r && 0 <= r < b;
    assert b * q == q * b;
  }

  lemma NegatedBounds(n: int, q: int, b: int)
    requires q >= 0 && b > 0 && q * b <= n < q * b + b
    ensures (-q) * b - b < -n <= (-q) * b
  {
    assert (-q) * b == -(q * b);
  }

  /** Dividing a whole number of intervals gives that number back. */
  lemma TruncDivMultiple(k: int, b: int)
    requires b > 0
    ensures TruncDiv(k * b, b) == k
  {
    var q := TruncDiv(k * b, b);
    if q < k {
      MulAtLeast(k - q, b);
    } else if q > k {
      MulAtLeast(q - k, b);
    }
  }

  lemma MulAtLeast(x: int, b: int)
    requires x >= 1 && b > 0
    ensures x * b >= b
  {
  }

  /** The sum of a series, added from the first entry to the last. */
  function Sum(s: seq<real>): real
  {
    if s == [] then 0.0 else Sum(s[..|s| - 1]) + s[|s| - 1]
  }

  lemma {:induction false} SumAppend(a: seq<real>, b: seq<real>)
    ensures Sum(a + b) == Sum(a) + Sum(b)
  {
    if b == [] {
      assert a + b == a;
    } else {
      assert (a + b)[..|a + b| - 1] == a + b[..|b| - 1];
      SumAppend(a, b[..|b| - 1]);
    }
  }

  /** Adding one more entry of a prefix. */
  lemma SumPrefix(s: seq<real>, i: int)
    requires 0 <= i < |s|
    ensures Sum(s[..i + 1]) == Sum(s[..i]) + s[i]
  {
    assert s[..i + 1][..i] == s[..i];
  }

  /** Leading zeros add nothing to a sum. */
  lemma {:induction false} SumZeros(k: nat)
    ensures Sum(seq(k, _ => 0.0)) == 0.0
  {
    if k > 0 {
      assert seq(k, _ => 0.0)[..k - 1] == seq(k - 1, _ => 0.0);
      SumZeros(k - 1);
    }
  }

  /**
   * The series delayed by `k` intervals: `k` leading zeros, then the old
   * entries in order.
   */
  function Shifted(s: seq<real>, k: nat): (r: seq<real>)
  {
    seq(k, _ => 0.0) + s
  }

  /** A shifted series: the zeros come first and entry `j` moves to `j + k`. */
  lemma ShiftedAt(s: seq<real>, k: nat)
    ensures |Shifted(s, k)| == |s| + k
    ensures forall i | 0 <= i < k :: Shifted(s, k)[i] == 0.0
    ensures forall j | 0 <= j < |s| :: Shifted(s, k)[j + k] == s[j]
  {
  }

  /** Delaying a series keeps its total. */
  lemma ShiftedSum(s: seq<real>, k: nat)
    ensures Sum(Shifted(s, k)) == Sum(s)
  {
    SumAppend(seq(k, _ => 0.0), s);
    SumZeros(k);
  }

  /** Every entry multiplied by `f`. */
  function Scaled(s: seq<real>, f: real): (r: seq<real>)
  {
    seq(|s|, i requires 0 <= i < |s| => s[i] * f)
  }

  lemma {:induction false} ScaledSum(s: seq<real>, f: real)
    ensures Sum(Scaled(s, f)) == Sum(s) * f
  {
    if s != [] {
      var n := |s| - 1;
      assert forall i | 0 <= i < n :: Scaled(s, f)[..n][i] == Scaled(s[..n], f)[i];
      assert Scaled(s, f)[..n] == Scaled(s[..n], f);
      ScaledSum(s[..|s| - 1], f);
    }
  }
}
