/**
 * B-spline interpolation of a 1-D signal (samplesToInterpolationCoefficient1D):
 * the samples are scaled by the gain lambda and then filtered, pole by pole, by
 * a causal and an anticausal first-order recursive filter. Both filters start
 * from initial values that make them behave as if they ran over the infinite
 * half-sample mirror extension of the signal.
 */
module Interpolation {
  import opened Arith
  import opened Mirror
  import opened Kernels

  /** The pole of the cubic B-spline prefilter, sqrt(3) - 2 (a decimal expansion of it). */
  const SQRT3_MINUS_2: real := -0.267949192431122706472553658494127633057194746189619371944193020548067

  /** The three poles of the degree-7 B-spline prefilter, as the source writes them. */
  const POLES7: seq<real> := [
    -0.5352804307964381655424037816816460718339231523426924148812,
    -0.122554615192326690515272264359357343605486549427295558490763,
    -0.0091486948096082769285930216516478534156925639545994482648003]

  /** The poles selected for a spline degree; any other degree has none. */
  function Poles(degree: int): (z: seq<real>)
    ensures degree == 3 ==> z == [SQRT3_MINUS_2]
    ensures degree == 7 ==> z == POLES7
    ensures degree != 3 && degree != 7 ==> z == []
  {
    if degree == 3 then [SQRT3_MINUS_2] else if degree == 7 then POLES7 else []
  }

  /** A pole of a B-spline prefilter lies strictly between -1 and 0. */
  predicate ValidPole(z: real)
  {
    -1.0 < z < 0.0
  }

  predicate ValidPoles(zs: seq<real>)
  {
    forall k :: 0 <= k < |zs| ==> ValidPole(zs[k])
  }

  lemma PolesValid(degree: int)
    ensures ValidPoles(Poles(degree))
  {
  }

  /**
   * The poles are the roots inside (-1, 0) of the sampled B-spline: with the
   * kernels of degree 3 and 7, z^m (h[0] + h[1] (z + 1/z) + ...) vanishes up to
   * the precision of the decimal expansions.
   */
  lemma PolesAreSplineRoots()
    ensures var z := SQRT3_MINUS_2;
      -1.0 / 1000000000000000000000000000000000000000000000000000.0
        < CUBIC[0] * z + CUBIC[1] * (1.0 + z * z)
        < 1.0 / 1000000000000000000000000000000000000000000000000000.0
    ensures forall k :: 0 <= k < 3 ==> var z := POLES7[k];
      -1.0 / 1000000000000000000000000000000000000000000000000000.0
        < SEPTIC[0] * (z * z * z) + SEPTIC[1] * (z * z + z * z * z * z)
          + SEPTIC[2] * (z + z * z * z * z * z) + SEPTIC[3] * (1.0 + z * z * z * z * z * z)
        < 1.0 / 1000000000000000000000000000000000000000000000000000.0
  {
  }

  // ---------------------------------------------------------------------------
  // The causal initial value.

  /** The term a sample adds to the causal numerator: (z^(n+1) + z^(2N-n)) c[n]. */
  function Tap(zLow: real, zHigh: real, cn: real): real
  {
    (zLow + zHigh) * cn
  }

  /** The sum over n in [1, m] of (z^(n+1) + z^(2N-n)) c[n], N = |c|. */
  function CausalTaps(c: seq<real>, z: real, m: nat): real
    requires m < |c|
  {
    if m == 0 then 0.0
    else CausalTaps(c, z, m - 1) + Tap(Pow(z, m + 1), Pow(z, 2 * |c| - m), c[m])
  }

  /**
   * The number of samples the causal initial value reads: all of them when the
   * tolerance is 0, otherwise 2 + estimate, where estimate stands for the
   * truncated log(tolerance) / log(|z|), capped at the length.
   */
  function Horizon(n: int, tolerance: real, estimate: int): (h: int)
    ensures h <= n
    ensures tolerance <= 0.0 ==> h == n
  {
    if 0.0 < tolerance then (if 2 + estimate < n then 2 + estimate else n) else n
  }

  /** The two end samples and the sample at 0, which the causal initial value always reads. */
  function CausalHead(c: seq<real>, z: real): real
    requires |c| >= 1
  {
    (1.0 + z) * (c[0] + Pow(z, |c|) * c[|c| - 1])
  }

  /** How many taps past the first the causal initial value adds for a horizon. */
  function TapCount(horizon: int): nat
  {
    if horizon - 2 > 0 then horizon - 2 else 0
  }

  /** The numerator of the causal initial value, reading the first `horizon` samples. */
  function CausalNumerator(c: seq<real>, z: real, horizon: int): real
    requires |c| >= 1 && horizon <= |c|
  {
    CausalHead(c, z) + CausalTaps(c, z, TapCount(horizon))
  }

  /** getInitialCausalCoefficientMirrorOffBounds. */
  function CausalInit(c: seq<real>, z: real, horizon: int): real
    requires |c| >= 1 && horizon <= |c| && -1.0 < z < 1.0
  {
    PowBelowOne(z, 2 * |c|);
    CausalNumerator(c, z, horizon) / (1.0 - Pow(z, 2 * |c|))
  }

  /** getInitialAntiCausalCoefficientMirrorOffBounds, applied to the causal output d. */
  function AntiCausalInit(d: seq<real>, z: real): real
    requires |d| >= 1 && z != 1.0
  {
    z * d[|d| - 1] / (z - 1.0)
  }

  // ---------------------------------------------------------------------------
  // What the initial values mean.

  /** z^lo Ext(c, -lo) + ... + z^(hi-1) Ext(c, -(hi-1)): the mirrored signal read backwards from 0. */
  function MirrorSum(c: seq<real>, z: real, lo: nat, hi: nat): real
    requires |c| >= 1
    decreases hi - lo
  {
    if hi <= lo then 0.0 else MirrorSum(c, z, lo, hi - 1) + Pow(z, hi - 1) * Ext(c, -(hi - 1))
  }

  lemma {:induction false} MirrorSumLow(c: seq<real>, z: real, lo: nat, hi: nat)
    requires |c| >= 1 && lo < hi
    ensures MirrorSum(c, z, lo, hi) == Pow(z, lo) * Ext(c, -(lo as int)) + MirrorSum(c, z, lo + 1, hi)
    decreases hi - lo
  {
    if lo + 1 < hi {
      MirrorSumLow(c, z, lo, hi - 1);
    }
  }

  lemma {:induction false} MirrorSumSplit(c: seq<real>, z: real, lo: nat, mid: nat, hi: nat)
    requires |c| >= 1 && lo <= mid <= hi
    ensures MirrorSum(c, z, lo, hi) == MirrorSum(c, z, lo, mid) + MirrorSum(c, z, mid, hi)
    decreases hi - mid
  {
    if mid < hi {
      MirrorSumSplit(c, z, lo, mid, hi - 1);
    }
  }

  /**
   * The first m+2 and the last m terms of one period together give the first
   * m taps; lo = 2N - m is where the last m terms start.
   */
  lemma {:induction false} MirrorSumEnds(c: seq<real>, z: real, m: nat, lo: nat)
    requires |c| >= 2 && m <= |c| - 1 && lo == 2 * |c| - m
    ensures MirrorSum(c, z, 0, m + 2) + MirrorSum(c, z, lo, 2 * |c|)
         == (1.0 + z) * c[0] + CausalTaps(c, z, m)
  {
    if m == 0 {
      ReflectNear(-1, |c|);
      assert MirrorSum(c, z, 0, 1) == c[0];
    } else {
      MirrorSumEnds(c, z, m - 1, lo + 1);
      MirrorSumEndsStep(c, z, m, lo);
    }
  }

  /** Extending both ends of the range by one term adds tap m. */
  lemma MirrorSumEndsStep(c: seq<real>, z: real, m: nat, lo: nat)
    requires |c| >= 2 && 1 <= m <= |c| - 1 && lo == 2 * |c| - m
    requires MirrorSum(c, z, 0, m + 1) + MirrorSum(c, z, lo + 1, 2 * |c|)
          == (1.0 + z) * c[0] + CausalTaps(c, z, m - 1)
    ensures MirrorSum(c, z, 0, m + 2) + MirrorSum(c, z, lo, 2 * |c|)
         == (1.0 + z) * c[0] + CausalTaps(c, z, m)
  {
    FrontTap(c, z, m);
    BackTap(c, z, m, lo);
    CausalTapsStep(c, z, m, Pow(z, m + 1), Pow(z, lo));
    TapSplit(Pow(z, m + 1), Pow(z, lo), c[m]);
    TapStep(MirrorSum(c, z, 0, m + 2), MirrorSum(c, z, lo, 2 * |c|),
      MirrorSum(c, z, 0, m + 1), MirrorSum(c, z, lo + 1, 2 * |c|),
      CausalTaps(c, z, m - 1), CausalTaps(c, z, m), (1.0 + z) * c[0],
      Term(Pow(z, m + 1), c[m]), Term(Pow(z, lo), c[m]), Tap(Pow(z, m + 1), Pow(z, lo), c[m]));
  }

  /** Position -(m+1) of the mirrored signal, the new top term of the front range, reads sample m. */
  lemma FrontTap(c: seq<real>, z: real, m: nat)
    requires 1 <= m < |c|
    ensures MirrorSum(c, z, 0, m + 2) == MirrorSum(c, z, 0, m + 1) + Term(Pow(z, m + 1), c[m])
  {
    MirrorTapPair(c, m);
  }

  /** Position -(2N-m) of the mirrored signal, the new bottom term of the back range, reads sample m. */
  lemma BackTap(c: seq<real>, z: real, m: nat, lo: nat)
    requires 1 <= m < |c| && lo == 2 * |c| - m
    ensures MirrorSum(c, z, lo, 2 * |c|) == Term(Pow(z, lo), c[m]) + MirrorSum(c, z, lo + 1, 2 * |c|)
  {
    MirrorTapPair(c, m);
    MirrorSumLow(c, z, lo, 2 * |c|);
  }

  /** One more tap, with its two powers given. */
  lemma CausalTapsStep(c: seq<real>, z: real, m: nat, p: real, q: real)
    requires 1 <= m < |c| && p == Pow(z, m + 1) && q == Pow(z, 2 * |c| - m)
    ensures CausalTaps(c, z, m) == CausalTaps(c, z, m - 1) + Tap(p, q, c[m])
  {
  }

  /** Positions -(m+1) and -(2N-m) of the mirrored signal both read sample m. */
  lemma MirrorTapPair(c: seq<real>, m: nat)
    requires 1 <= m < |c|
    ensures Ext(c, -(m + 1)) == c[m] && Ext(c, -(2 * |c| - m)) == c[m]
  {
    ReflectNear(-(m + 1), |c|);
    ReflectNear(-(2 * |c| - m), |c|);
  }

  lemma TapStep(s1: real, s2: real, a: real, b: real, t: real, t': real, k: real, px: real, qx: real, tap: real)
    requires a + b == k + t
    requires s1 == a + px && s2 == qx + b && t' == t + tap && tap == px + qx
    ensures s1 + s2 == k + t'
  {
  }

  /** A weighted sample p x. */
  function Term(p: real, x: real): real
  {
    p * x
  }

  /** A tap is the sum of its two weighted samples. */
  lemma TapSplit(p: real, q: real, x: real)
    ensures Tap(p, q, x) == Term(p, x) + Term(q, x)
  {
  }

  /** The last tap of a full horizon pairs z^N and z^(N+1). */
  lemma CausalTapsLast(c: seq<real>, z: real)
    requires |c| >= 2
    ensures CausalTaps(c, z, |c| - 1)
         == CausalTaps(c, z, |c| - 2) + (Pow(z, |c|) + z * Pow(z, |c|)) * c[|c| - 1]
  {
    assert Pow(z, |c| + 1) == z * Pow(z, |c|);
  }

  /**
   * With the full horizon, the numerator of the causal initial value is one
   * period of the mirrored signal read backwards: sum of z^k Ext(c, -k) for
   * k in [0, 2N).
   */
  lemma CausalNumeratorIsMirrorSum(c: seq<real>, z: real)
    requires |c| >= 2
    ensures CausalNumerator(c, z, |c|) == MirrorSum(c, z, 0, 2 * |c|)
  {
    NumeratorAsTaps(c, z);
    MirrorSumAsTaps(c, z);
  }

  /** The full-horizon numerator is (1 + z) c[0] plus the first N - 1 taps. */
  lemma NumeratorAsTaps(c: seq<real>, z: real)
    requires |c| >= 2
    ensures CausalNumerator(c, z, |c|) == (1.0 + z) * c[0] + CausalTaps(c, z, |c| - 1)
  {
    var n := |c|;
    var p := Pow(z, n);
    var t := CausalTaps(c, z, n - 2);
    var d := (p + z * p) * c[n - 1];
    assert CausalTaps(c, z, n - 1) == t + d by {
      CausalTapsLast(c, z);
    }
    assert CausalHead(c, z) == (1.0 + z) * c[0] + d by {
      HeadAlgebra(c[0], p, c[n - 1], z);
    }
    assert CausalNumerator(c, z, n) == CausalHead(c, z) + t;
  }

  /** One period of the mirrored signal is (1 + z) c[0] plus the first N - 1 taps. */
  lemma MirrorSumAsTaps(c: seq<real>, z: real)
    requires |c| >= 2
    ensures MirrorSum(c, z, 0, 2 * |c|) == (1.0 + z) * c[0] + CausalTaps(c, z, |c| - 1)
  {
    var n := |c|;
    MirrorSumEnds(c, z, n - 1, n + 1);
    MirrorSumSplit(c, z, 0, n + 1, 2 * n);
  }

  lemma HeadAlgebra(c0: real, p: real, x: real, z: real)
    ensures (1.0 + z) * (c0 + p * x) == (1.0 + z) * c0 + (p + z * p) * x
  {
  }

  /**
   * The causal initial value is the steady state of the causal filter over the
   * periodic mirrored signal: one more period of input leaves it unchanged.
   */
  lemma CausalInitSteadyState(c: seq<real>, z: real)
    requires |c| >= 2 && -1.0 < z < 1.0
    ensures CausalInit(c, z, |c|) == MirrorSum(c, z, 0, 2 * |c|) + Pow(z, 2 * |c|) * CausalInit(c, z, |c|)
  {
    CausalNumeratorIsMirrorSum(c, z);
    PowBelowOne(z, 2 * |c|);
    var p := Pow(z, 2 * |c|);
    var s := MirrorSum(c, z, 0, 2 * |c|);
    assert CausalInit(c, z, |c|) == s / (1.0 - p);
    assert s / (1.0 - p) * (1.0 - p) == s;
  }

  /** The anticausal initial value is the fixed point of the anticausal step when the causal output is constant beyond the end. */
  lemma AntiCausalInitFixedPoint(d: seq<real>, z: real)
    requires |d| >= 1 && z != 1.0
    ensures AntiCausalInit(d, z) == z * (AntiCausalInit(d, z) - d[|d| - 1])
  {
    var x := d[|d| - 1];
    assert AntiCausalInit(d, z) * (z - 1.0) == z * x;
  }

  // ---------------------------------------------------------------------------
  // One pole, the scaling, and the whole filter as functions.

  /** Output n of the causal filter d[n] = c[n] + z d[n-1], started at d[0] = d0. */
  function CausalAt(c: seq<real>, z: real, d0: real, n: nat): real
    requires n < |c|
  {
    if n == 0 then d0 else c[n] + z * CausalAt(c, z, d0, n - 1)
  }

  /** Output n of the anticausal filter e[n] = z (e[n+1] - d[n]), started at e[N-1] = eLast. */
  function AntiCausalAt(d: seq<real>, z: real, eLast: real, n: nat): real
    requires n < |d|
    decreases |d| - n
  {
    if n == |d| - 1 then eLast else z * (AntiCausalAt(d, z, eLast, n + 1) - d[n])
  }

  function CausalFrom(c: seq<real>, z: real, d0: real): (d: seq<real>)
    ensures |d| == |c|
  {
    seq(|c|, n requires 0 <= n < |c| => CausalAt(c, z, d0, n))
  }

  function AntiCausalFrom(d: seq<real>, z: real, eLast: real): (e: seq<real>)
    ensures |e| == |d|
  {
    seq(|d|, n requires 0 <= n < |d| => AntiCausalAt(d, z, eLast, n))
  }

  /** The causal filter started at its mirror-boundary initial value. */
  function Causal(c: seq<real>, z: real): (d: seq<real>)
    requires |c| >= 1 && -1.0 < z < 1.0
    ensures |d| == |c|
  {
    CausalFrom(c, z, CausalInit(c, z, |c|))
  }

  /** The anticausal filter started at its mirror-boundary initial value. */
  function AntiCausal(d: seq<real>, z: real): (e: seq<real>)
    requires |d| >= 1 && z != 1.0
    ensures |e| == |d|
  {
    AntiCausalFrom(d, z, AntiCausalInit(d, z))
  }

  /** The causal then the anticausal filter of one pole. */
  function OnePole(c: seq<real>, z: real): (e: seq<real>)
    requires |c| >= 1 && -1.0 < z < 1.0
    ensures |e| == |c|
  {
    AntiCausal(Causal(c, z), z)
  }

  /** The poles applied in order. */
  function Passes(c: seq<real>, zs: seq<real>): (e: seq<real>)
    requires |c| >= 1 && ValidPoles(zs)
    ensures |e| == |c|
  {
    if zs == [] then c else OnePole(Passes(c, zs[..|zs| - 1]), zs[|zs| - 1])
  }

  /** The gain factor (1 - z) (1 - 1/z) of one pole. */
  function PoleLambda(z: real): real
    requires z != 0.0
  {
    (1.0 - z) * (1.0 - 1.0 / z)
  }

  /** The product of the gain factors of the poles. */
  function Lambda(zs: seq<real>): real
    requires ValidPoles(zs)
  {
    if zs == [] then 1.0 else Lambda(zs[..|zs| - 1]) * PoleLambda(zs[|zs| - 1])
  }

  function Scale(c: seq<real>, k: real): (r: seq<real>)
    ensures |r| == |c|
  {
    seq(|c|, n requires 0 <= n < |c| => c[n] * k)
  }

  /** samplesToInterpolationCoefficient1D with tolerance 0: the B-spline coefficients of the samples. */
  function Interpolate(c: seq<real>, degree: int): (r: seq<real>)
    requires |c| >= 1
    ensures |r| == |c|
  {
    PolesValid(degree);
    if |c| == 1 then c else Passes(Scale(c, Lambda(Poles(degree))), Poles(degree))
  }

  // ---------------------------------------------------------------------------
  // The methods.

  /** getInitialCausalCoefficientMirrorOffBounds, with the horizon already worked out. */
  method GetInitialCausalCoefficientMirrorOffBounds(c: array<real>, z: real, horizon: int) returns (r: real)
    requires c.Length >= 1 && horizon <= c.Length && -1.0 < z < 1.0 && z != 0.0
    ensures r == CausalInit(c[..], z, horizon)
  {
    var sum := CausalSum(c, z, horizon);
    PowBelowOne(z, 2 * c.Length);
    r := sum / (1.0 - Pow(z, 2 * c.Length));
  }

  /** The numerator loop of getInitialCausalCoefficientMirrorOffBounds, with its running powers z^k and z^(2N-k+1). */
  method CausalSum(c: array<real>, z: real, horizon: int) returns (sum: real)
    requires c.Length >= 1 && horizon <= c.Length && z != 0.0
    ensures sum == CausalNumerator(c[..], z, horizon)
  {
    var n := c.Length;
    var z1 := z;
    var zn := Pow(z, n);
    sum := (1.0 + z) * (c[0] + zn * c[n - 1]);
    assert sum == CausalHead(c[..], z);
    PowAdd(z, n, n);
    zn := zn * zn;
    var k := 1;
    while k < horizon - 1
      invariant 1 <= k && (k == 1 || k <= horizon - 1)
      invariant z1 == Pow(z, k)
      invariant zn == Pow(z, 2 * n - k + 1)
      invariant sum == CausalHead(c[..], z) + CausalTaps(c[..], z, k - 1)
    {
      var z1' := z1 * z;
      var zn' := zn / z;
      var sum' := sum + Tap(z1', zn', c[k]);
      CausalLoopStep(c[..], z, k, z1, zn, z1', zn', sum, c[k], sum');
      z1, zn, sum := z1', zn', sum';
      k := k + 1;
    }
    assert k - 1 == TapCount(horizon);
  }

  /** One pass of the loop above keeps its invariants: the running powers and the partial sum. */
  lemma CausalLoopStep(c: seq<real>, z: real, k: nat, z1: real, zn: real, z1': real, zn': real,
                       sum: real, ck: real, sum': real)
    requires z != 0.0 && 1 <= k < |c| && ck == c[k]
    requires z1 == Pow(z, k) && zn == Pow(z, 2 * |c| - k + 1)
    requires z1' == z1 * z && zn' == zn / z
    requires sum == CausalHead(c, z) + CausalTaps(c, z, k - 1)
    requires sum' == sum + Tap(z1', zn', ck)
    ensures z1' == Pow(z, k + 1) && zn' == Pow(z, 2 * |c| - k)
    ensures sum' == CausalHead(c, z) + CausalTaps(c, z, k)
  {
    PowDown(z, 2 * |c| - k);
    assert Pow(z, k + 1) == z * Pow(z, k);
  }

  /** Dividing a power by its base lowers the exponent. */
  lemma PowDown(z: real, k: nat)
    requires z != 0.0
    ensures Pow(z, k + 1) / z == Pow(z, k)
  {
    var p := Pow(z, k);
    assert Pow(z, k + 1) == z * p;
    assert z * p / z == p;
  }

  /** getInitialAntiCausalCoefficientMirrorOffBounds on the causal output held in c. */
  method GetInitialAntiCausalCoefficientMirrorOffBounds(c: array<real>, z: real) returns (r: real)
    requires c.Length >= 1 && z != 1.0
    ensures r == AntiCausalInit(c[..], z)
  {
    var q := z - 1.0;
    var x := c[c.Length - 1];
    r := z * x / q;
    assert c[..][c.Length - 1] == x;
  }

  /** The causal and the anticausal pass of one pole, in place. */
  method ApplyPole(c: array<real>, z: real)
    requires c.Length >= 2 && ValidPole(z)
    modifies c
    ensures c[..] == OnePole(old(c[..]), z)
  {
    var first := GetInitialCausalCoefficientMirrorOffBounds(c, z, c.Length);
    CausalPass(c, z, first);
    var last := GetInitialAntiCausalCoefficientMirrorOffBounds(c, z);
    AntiCausalPass(c, z, last);
  }

  /** c[0] := d0, then c[n] += z c[n-1] for n = 1, 2, ... */
  method CausalPass(c: array<real>, z: real, d0: real)
    requires c.Length >= 1
    modifies c
    ensures c[..] == CausalFrom(old(c[..]), z, d0)
  {
    ghost var c0 := c[..];
    c[0] := d0;
    for k := 1 to c.Length
      invariant forall i :: 0 <= i < k ==> c[i] == CausalAt(c0, z, d0, i)
      invariant forall i :: k <= i < c.Length ==> c[i] == c0[i]
    {
      var prev := c[k - 1];
      var cur := c[k];
      assert CausalAt(c0, z, d0, k) == cur + z * prev;
      c[k] := cur + z * prev;
    }
  }

  /** c[N-1] := eLast, then c[n] := z (c[n+1] - c[n]) for n = N-2, N-3, ... */
  method AntiCausalPass(c: array<real>, z: real, eLast: real)
    requires c.Length >= 1
    modifies c
    ensures c[..] == AntiCausalFrom(old(c[..]), z, eLast)
  {
    ghost var d := c[..];
    var n := c.Length;
    c[n - 1] := eLast;
    var k := n - 2;
    while 0 <= k
      invariant -1 <= k <= n - 2
      invariant forall i :: k < i < n ==> c[i] == AntiCausalAt(d, z, eLast, i)
      invariant forall i :: 0 <= i <= k ==> c[i] == d[i]
    {
      var next := c[k + 1];
      var cur := c[k];
      assert AntiCausalAt(d, z, eLast, k) == z * (next - cur);
      c[k] := z * (next - cur);
      k := k - 1;
    }
  }

  /** samplesToInterpolationCoefficient1D(c, degree, 0.0): B-spline coefficients in place. */
  method SamplesToInterpolationCoefficient1D(c: array<real>, degree: int)
    requires c.Length >= 1
    modifies c
    ensures c[..] == Interpolate(old(c[..]), degree)
  {
    var z := Poles(degree);
    PolesValid(degree);
    if c.Length == 1 {
      return;
    }
    var lambda := 1.0;
    for k := 0 to |z|
      invariant lambda == Lambda(z[..k])
    {
      assert z[..k + 1][..k] == z[..k];
      lambda := lambda * ((1.0 - z[k]) * (1.0 - 1.0 / z[k]));
    }
    assert z[..|z|] == z;
    ScaleInPlace(c, lambda);
    ApplyPoles(c, z);
  }

  /** c[n] *= k for every n. */
  method ScaleInPlace(c: array<real>, k: real)
    modifies c
    ensures c[..] == Scale(old(c[..]), k)
  {
    ghost var c0 := c[..];
    for n := 0 to c.Length
      invariant forall i :: 0 <= i < n ==> c[i] == c0[i] * k
      invariant forall i :: n <= i < c.Length ==> c[i] == c0[i]
    {
      c[n] := c[n] * k;
    }
    assert forall i :: 0 <= i < c.Length ==> c[..][i] == Scale(c0, k)[i];
  }

  /** The causal and anticausal passes of each pole in turn. */
  method ApplyPoles(c: array<real>, z: seq<real>)
    requires c.Length >= 2 && ValidPoles(z)
    modifies c
    ensures c[..] == Passes(old(c[..]), z)
  {
    ghost var c0 := c[..];
    for k := 0 to |z|
      invariant c[..] == Passes(c0, z[..k])
    {
      assert z[..k + 1][..k] == z[..k];
      ApplyPole(c, z[k]);
    }
    assert z[..|z|] == z;
  }

  // ---------------------------------------------------------------------------
  // B-spline interpolation reproduces constants.

  /** Every sample of s equals v. */
  predicate IsConstant(s: seq<real>, v: real)
  {
    forall i :: 0 <= i < |s| ==> s[i] == v
  }

  /** How one pole's two passes scale a constant signal: z / ((1 - z) (z - 1)). */
  function PoleGain(z: real): real
    requires ValidPole(z)
  {
    z / ((1.0 - z) * (z - 1.0))
  }

  /** The product of the gains of the poles. */
  function Gain(zs: seq<real>): real
    requires ValidPoles(zs)
  {
    if zs == [] then 1.0 else Gain(zs[..|zs| - 1]) * PoleGain(zs[|zs| - 1])
  }

  lemma {:induction false} MirrorSumConstant(b: real, n: nat, z: real, k: nat)
    requires n >= 1
    ensures MirrorSum(Constant(b, n), z, 0, k) == b * Geo(z, k)
  {
    if k > 0 {
      MirrorSumConstant(b, n, z, k - 1);
      assert Ext(Constant(b, n), -(k - 1)) == b;
    }
  }

  /** The causal initial value times its denominator is its numerator. */
  lemma CausalInitTimesDenominator(c: seq<real>, z: real, horizon: int)
    requires |c| >= 1 && horizon <= |c| && -1.0 < z < 1.0
    ensures CausalInit(c, z, horizon) * (1.0 - Pow(z, 2 * |c|)) == CausalNumerator(c, z, horizon)
  {
    PowBelowOne(z, 2 * |c|);
    var q := 1.0 - Pow(z, 2 * |c|);
    var x := CausalNumerator(c, z, horizon);
    assert CausalInit(c, z, horizon) == x / q;
    assert x / q * q == x;
  }

  /** On a constant signal b, the causal initial value is the steady state b / (1 - z). */
  lemma CausalInitConstant(b: real, n: nat, z: real)
    requires n >= 2 && -1.0 < z < 1.0
    ensures CausalInit(Constant(b, n), z, n) * (1.0 - z) == b
  {
    MirrorSumConstant(b, n, z, 2 * n);
    CausalInitOfGeometric(Constant(b, n), b, z);
  }

  /** A signal whose mirrored sum is b times the geometric sum starts at the steady state b / (1 - z). */
  lemma CausalInitOfGeometric(c: seq<real>, b: real, z: real)
    requires |c| >= 2 && -1.0 < z < 1.0 && MirrorSum(c, z, 0, 2 * |c|) == b * Geo(z, 2 * |c|)
    ensures CausalInit(c, z, |c|) * (1.0 - z) == b
  {
    assert CausalInit(c, z, |c|) * (1.0 - Pow(z, 2 * |c|)) == b * Geo(z, 2 * |c|) by {
      CausalNumeratorIsMirrorSum(c, z);
      CausalInitTimesDenominator(c, z, |c|);
    }
    assert Geo(z, 2 * |c|) * (1.0 - z) == 1.0 - Pow(z, 2 * |c|) by {
      GeoClosedForm(z, 2 * |c|);
    }
    assert 1.0 - Pow(z, 2 * |c|) != 0.0 by {
      PowBelowOne(z, 2 * |c|);
    }
    QuotientCancel(CausalInit(c, z, |c|), b, Geo(z, 2 * |c|), z, Pow(z, 2 * |c|));
  }

  /** r (1 - p) = b g with 1 - p = g (1 - z) nonzero gives r (1 - z) = b. */
  lemma QuotientCancel(r: real, b: real, g: real, z: real, p: real)
    requires 1.0 - p != 0.0 && g * (1.0 - z) == 1.0 - p && r * (1.0 - p) == b * g
    ensures r * (1.0 - z) == b
  {
    assert g != 0.0;
    assert (r * (1.0 - z)) * g == b * g;
  }

  /** A filter started at its steady state stays there on a constant input. */
  lemma {:induction false} CausalAtConstant(c: seq<real>, b: real, z: real, d0: real, i: nat)
    requires i < |c| && IsConstant(c, b) && d0 * (1.0 - z) == b
    ensures CausalAt(c, z, d0, i) == d0
  {
    if i > 0 {
      CausalAtConstant(c, b, z, d0, i - 1);
    }
  }

  lemma {:induction false} AntiCausalAtConstant(d: seq<real>, b: real, z: real, e: real, i: nat)
    requires i < |d| && IsConstant(d, b) && e == z * (e - b)
    ensures AntiCausalAt(d, z, e, i) == e
    decreases |d| - i
  {
    if i < |d| - 1 {
      AntiCausalAtConstant(d, b, z, e, i + 1);
    }
  }

  /** On a constant signal b the causal pass outputs its steady state b / (1 - z) everywhere. */
  lemma CausalConstant(c: seq<real>, b: real, z: real)
    requires |c| >= 2 && ValidPole(z) && IsConstant(c, b)
    ensures IsConstant(Causal(c, z), CausalInit(c, z, |c|))
    ensures CausalInit(c, z, |c|) * (1.0 - z) == b
  {
    assert c == Constant(b, |c|);
    var d0 := CausalInit(c, z, |c|);
    CausalInitConstant(b, |c|, z);
    forall i | 0 <= i < |c|
      ensures Causal(c, z)[i] == d0
    {
      CausalAtConstant(c, b, z, d0, i);
    }
  }

  /** On a constant signal b the anticausal pass outputs its steady state z b / (z - 1) everywhere. */
  lemma AntiCausalConstant(d: seq<real>, b: real, z: real)
    requires |d| >= 1 && ValidPole(z) && IsConstant(d, b)
    ensures IsConstant(AntiCausal(d, z), AntiCausalInit(d, z))
    ensures AntiCausalInit(d, z) * (z - 1.0) == z * b
  {
    var e := AntiCausalInit(d, z);
    AntiCausalInitFixedPoint(d, z);
    forall i | 0 <= i < |d|
      ensures AntiCausal(d, z)[i] == e
    {
      AntiCausalAtConstant(d, b, z, e, i);
    }
  }

  /** The two passes of one pole scale a constant signal by PoleGain. */
  lemma OnePoleConstant(c: seq<real>, b: real, z: real)
    requires |c| >= 2 && ValidPole(z) && IsConstant(c, b)
    ensures IsConstant(OnePole(c, z), b * PoleGain(z))
  {
    CausalConstant(c, b, z);
    var d := Causal(c, z);
    var d0 := CausalInit(c, z, |c|);
    AntiCausalConstant(d, d0, z);
    GainOfSteadyStates(b, z, d0, AntiCausalInit(d, z));
  }

  lemma GainOfSteadyStates(b: real, z: real, d0: real, e: real)
    requires ValidPole(z) && d0 * (1.0 - z) == b && e * (z - 1.0) == z * d0
    ensures e == b * PoleGain(z)
  {
    var w := (1.0 - z) * (z - 1.0);
    assert e * w == z * b;
    assert b * PoleGain(z) * w == z * b;
  }

  lemma {:induction false} PassesConstant(c: seq<real>, b: real, zs: seq<real>)
    requires |c| >= 2 && ValidPoles(zs) && IsConstant(c, b)
    ensures IsConstant(Passes(c, zs), b * Gain(zs))
  {
    if zs != [] {
      var init := zs[..|zs| - 1];
      var z := zs[|zs| - 1];
      var p := Passes(c, init);
      var v := b * Gain(init);
      var w := v * PoleGain(z);
      assert IsConstant(OnePole(p, z), w) by {
        PassesConstant(c, b, init);
        OnePoleConstant(p, v, z);
      }
      assert w == b * Gain(zs) by {
        assert Gain(zs) == Gain(init) * PoleGain(z);
        MulAssoc(b, Gain(init), PoleGain(z));
      }
      assert Passes(c, zs) == OnePole(p, z);
      ConstantRename(OnePole(p, z), Passes(c, zs), w, b * Gain(zs));
    } else {
      assert b * Gain(zs) == b;
    }
  }

  lemma MulAssoc(a: real, b: real, c: real)
    ensures (a * b) * c == a * (b * c)
  {
  }

  lemma ConstantRename(s: seq<real>, t: seq<real>, v: real, w: real)
    requires IsConstant(s, v) && s == t && v == w
    ensures IsConstant(t, w)
  {
  }

  /** The gain factor undoes the gain of the passes. */
  lemma PoleLambdaGain(z: real)
    requires ValidPole(z)
    ensures PoleLambda(z) * PoleGain(z) == 1.0
  {
    var w := (1.0 - z) * (z - 1.0);
    assert (1.0 - 1.0 / z) * z == z - 1.0;
    assert PoleLambda(z) * z == w;
    assert PoleGain(z) * w == z;
  }

  lemma {:induction false} LambdaGain(zs: seq<real>)
    requires ValidPoles(zs)
    ensures Lambda(zs) * Gain(zs) == 1.0
  {
    if zs != [] {
      var init := zs[..|zs| - 1];
      var z := zs[|zs| - 1];
      LambdaGain(init);
      PoleLambdaGain(z);
      ProductOfInverses(Lambda(init), Gain(init), PoleLambda(z), PoleGain(z));
    }
  }

  lemma ProductOfInverses(a: real, b: real, x: real, y: real)
    requires a * b == 1.0 && x * y == 1.0
    ensures (a * x) * (b * y) == 1.0
  {
    assert (a * x) * (b * y) == (a * b) * (x * y);
  }

  /**
   * Interpolation reproduces constants: the B-spline coefficients of a
   * constant signal are that constant (the B-splines sum to one).
   */
  lemma InterpolateConstant(a: real, n: nat, degree: int)
    requires n >= 1
    ensures Interpolate(Constant(a, n), degree) == Constant(a, n)
  {
    if n >= 2 {
      InterpolateLong(Constant(a, n), degree);
      ScaledPassesConstant(Constant(a, n), a, Poles(degree));
      assert IsConstant(Interpolate(Constant(a, n), degree), a);
    }
  }

  /** Scaling by the gain factor before the passes gives back a constant signal unchanged. */
  lemma ScaledPassesConstant(c: seq<real>, a: real, zs: seq<real>)
    requires |c| >= 2 && ValidPoles(zs) && IsConstant(c, a)
    ensures IsConstant(Passes(Scale(c, Lambda(zs)), zs), a)
  {
    ScaleConstant(c, a, Lambda(zs));
    PassesUnit(Scale(c, Lambda(zs)), a * Lambda(zs), a, zs);
  }

  lemma PassesUnit(s: seq<real>, b: real, a: real, zs: seq<real>)
    requires |s| >= 2 && ValidPoles(zs) && IsConstant(s, b) && b == a * Lambda(zs)
    ensures IsConstant(Passes(s, zs), a)
  {
    PassesConstant(s, b, zs);
    GainUnit(b, a, zs);
    ConstantRename(Passes(s, zs), Passes(s, zs), b * Gain(zs), a);
  }

  lemma GainUnit(b: real, a: real, zs: seq<real>)
    requires ValidPoles(zs) && b == a * Lambda(zs)
    ensures b * Gain(zs) == a
  {
    LambdaGain(zs);
    MulAssoc(a, Lambda(zs), Gain(zs));
  }

  lemma ScaleConstant(c: seq<real>, a: real, k: real)
    requires IsConstant(c, a)
    ensures IsConstant(Scale(c, k), a * k)
  {
    forall i | 0 <= i < |c|
      ensures Scale(c, k)[i] == a * k
    {
      assert c[i] == a;
    }
  }

  lemma InterpolateLong(c: seq<real>, degree: int)
    requires |c| >= 2
    ensures ValidPoles(Poles(degree))
    ensures Interpolate(c, degree) == Passes(Scale(c, Lambda(Poles(degree))), Poles(degree))
  {
    PolesValid(degree);
  }
}
