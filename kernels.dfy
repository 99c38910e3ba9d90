/**
 * The 1-D filters of the image preprocessing: the symmetric FIR filters with two
 * or four taps, the antisymmetric (gradient) filter, and the reduction that
 * filters and keeps every other sample. Each method writes the mirror-boundary
 * formulas case by case, and is proved equal to the convolution over the
 * mirror-extended signal defined in module Mirror.
 */
module Kernels {
  import opened Mirror

  /** The cubic B-spline sampled at 0 and 1 (degree 3). */
  const CUBIC: seq<real> := [2.0 / 3.0, 1.0 / 6.0]

  /** The B-spline of degree 7 sampled at 0, 1, 2 and 3. */
  const SEPTIC: seq<real> := [151.0 / 315.0, 397.0 / 1680.0, 1.0 / 42.0, 1.0 / 5040.0]

  /** The reduction kernel applied before keeping every other sample. */
  const REDUCE: seq<real> := [6.0 / 16.0, 4.0 / 16.0, 1.0 / 16.0]

  /** The central difference: half of the next sample minus the previous one. */
  const GRADIENT: seq<real> := [0.0, 1.0 / 2.0]

  /** The kernel basicToCardinal2D selects for a spline degree; any other degree gets the identity tap. */
  function Kernel(degree: int): (h: seq<real>)
    ensures degree == 3 ==> h == CUBIC
    ensures degree == 7 ==> h == SEPTIC
    ensures degree != 3 && degree != 7 ==> h == [1.0]
  {
    if degree == 3 then CUBIC else if degree == 7 then SEPTIC else [1.0]
  }

  /** Both spline kernels and the reduction kernel have unit weight, so they keep constants. */
  lemma KernelWeights()
    ensures Weight(CUBIC, 1) == 1.0
    ensures Weight(SEPTIC, 3) == 1.0
    ensures Weight(REDUCE, 2) == 1.0
  {
    assert Weight(CUBIC, 1) == CUBIC[0] + 2.0 * CUBIC[1];
    assert Weight(SEPTIC, 3) == SEPTIC[0] + 2.0 * SEPTIC[1] + 2.0 * SEPTIC[2] + 2.0 * SEPTIC[3];
    assert Weight(REDUCE, 2) == REDUCE[0] + 2.0 * REDUCE[1] + 2.0 * REDUCE[2];
  }

  /** Keep every other output of the reduction kernel: the half-size signal. */
  function Reduce(c: seq<real>): (r: seq<real>)
    ensures |r| == |c| / 2
  {
    seq(|c| / 2, j requires 0 <= j < |c| / 2 => SymmetricAt(REDUCE, c, 2 * j))
  }

  // ---------------------------------------------------------------------------
  // The taps of a short kernel written out.

  lemma Sym2At(h: seq<real>, c: seq<real>, i: int)
    requires |h| == 2 && |c| >= 1
    ensures SymmetricAt(h, c, i) == h[0] * Ext(c, i) + h[1] * (Ext(c, i - 1) + Ext(c, i + 1))
  {
    assert SymTaps(h, c, i, 1) == 0.0 + h[1] * (Ext(c, i - 1) + Ext(c, i + 1));
  }

  lemma Sym3At(h: seq<real>, c: seq<real>, i: int)
    requires |h| == 3 && |c| >= 1
    ensures SymmetricAt(h, c, i) == h[0] * Ext(c, i) + h[1] * (Ext(c, i - 1) + Ext(c, i + 1))
                                    + h[2] * (Ext(c, i - 2) + Ext(c, i + 2))
  {
    assert SymTaps(h, c, i, 1) == 0.0 + h[1] * (Ext(c, i - 1) + Ext(c, i + 1));
    assert SymTaps(h, c, i, 2) == SymTaps(h, c, i, 1) + h[2] * (Ext(c, i - 2) + Ext(c, i + 2));
  }

  /** A four-tap output: h[0] on the centre x, h[m] on the pair (am, bm) m samples away. */
  function Taps4(h: seq<real>, x: real, a1: real, b1: real, a2: real, b2: real, a3: real, b3: real): real
    requires |h| == 4
  {
    h[0] * x + h[1] * (a1 + b1) + h[2] * (a2 + b2) + h[3] * (a3 + b3)
  }

  lemma Sym4At(h: seq<real>, c: seq<real>, i: int)
    requires |h| == 4 && |c| >= 1
    ensures SymmetricAt(h, c, i) == Taps4(h, Ext(c, i), Ext(c, i - 1), Ext(c, i + 1),
                                          Ext(c, i - 2), Ext(c, i + 2), Ext(c, i - 3), Ext(c, i + 3))
  {
    assert SymTaps(h, c, i, 1) == 0.0 + h[1] * (Ext(c, i - 1) + Ext(c, i + 1));
    assert SymTaps(h, c, i, 2) == SymTaps(h, c, i, 1) + h[2] * (Ext(c, i - 2) + Ext(c, i + 2));
    assert SymTaps(h, c, i, 3) == SymTaps(h, c, i, 2) + h[3] * (Ext(c, i - 3) + Ext(c, i + 3));
  }

  lemma Anti2At(h: seq<real>, c: seq<real>, i: int)
    requires |h| == 2 && |c| >= 1
    ensures AntiAt(h, c, i) == h[1] * (Ext(c, i + 1) - Ext(c, i - 1))
  {
    assert AntiTaps(h, c, i, 1) == 0.0 + h[1] * (Ext(c, i + 1) - Ext(c, i - 1));
  }

  /** Inside the signal the mirror is not consulted. */
  lemma ExtInside(c: seq<real>, i: int)
    requires 0 <= i < |c|
    ensures Ext(c, i) == c[i]
  {
  }

  // ---------------------------------------------------------------------------
  // Two taps: the boundary formulas of symmetricFirMirrorOffBounds1D.

  lemma Sym2First(h: seq<real>, c: seq<real>)
    requires |h| == 2 && |c| >= 2
    ensures SymmetricAt(h, c, 0) == h[0] * c[0] + h[1] * (c[0] + c[1])
  {
    Sym2At(h, c, 0);
    ReflectNear(-1, |c|);
  }

  lemma Sym2Inner(h: seq<real>, c: seq<real>, i: int)
    requires |h| == 2 && 1 <= i < |c| - 1
    ensures SymmetricAt(h, c, i) == h[0] * c[i] + h[1] * (c[i - 1] + c[i + 1])
  {
    Sym2At(h, c, i);
  }

  lemma Sym2Last(h: seq<real>, c: seq<real>)
    requires |h| == 2 && |c| >= 2
    ensures SymmetricAt(h, c, |c| - 1) == h[0] * c[|c| - 1] + h[1] * (c[|c| - 2] + c[|c| - 1])
  {
    Sym2At(h, c, |c| - 1);
    ReflectNear(|c|, |c|);
  }

  lemma Sym2Single(h: seq<real>, c: seq<real>)
    requires |h| == 2 && |c| == 1
    ensures SymmetricAt(h, c, 0) == (h[0] + 2.0 * h[1]) * c[0]
  {
    Sym2At(h, c, 0);
    assert Ext(c, -1) == c[0] && Ext(c, 1) == c[0];
  }

  // ---------------------------------------------------------------------------
  // Four taps, signals of length at least six.

  lemma Sym4Head(h: seq<real>, c: seq<real>)
    requires |h| == 4 && |c| >= 6
    ensures SymmetricAt(h, c, 0) == Taps4(h, c[0], c[0], c[1], c[1], c[2], c[2], c[3])
    ensures SymmetricAt(h, c, 1) == Taps4(h, c[1], c[0], c[2], c[0], c[3], c[1], c[4])
    ensures SymmetricAt(h, c, 2) == Taps4(h, c[2], c[1], c[3], c[0], c[4], c[0], c[5])
  {
    var n := |c|;
    ReflectNear(-1, n);
    ReflectNear(-2, n);
    ReflectNear(-3, n);
    Sym4At(h, c, 0);
    Sym4At(h, c, 1);
    Sym4At(h, c, 2);
  }

  lemma Sym4Inner(h: seq<real>, c: seq<real>, i: int)
    requires |h| == 4 && 3 <= i < |c| - 3
    ensures SymmetricAt(h, c, i) == Taps4(h, c[i], c[i - 1], c[i + 1], c[i - 2], c[i + 2], c[i - 3], c[i + 3])
  {
    Sym4At(h, c, i);
  }

  lemma Sym4Tail(h: seq<real>, c: seq<real>)
    requires |h| == 4 && |c| >= 6
    ensures SymmetricAt(h, c, |c| - 3)
         == Taps4(h, c[|c| - 3], c[|c| - 4], c[|c| - 2], c[|c| - 5], c[|c| - 1], c[|c| - 6], c[|c| - 1])
    ensures SymmetricAt(h, c, |c| - 2)
         == Taps4(h, c[|c| - 2], c[|c| - 3], c[|c| - 1], c[|c| - 4], c[|c| - 1], c[|c| - 5], c[|c| - 2])
    ensures SymmetricAt(h, c, |c| - 1)
         == Taps4(h, c[|c| - 1], c[|c| - 2], c[|c| - 1], c[|c| - 3], c[|c| - 2], c[|c| - 4], c[|c| - 3])
  {
    var n := |c|;
    ReflectNear(n, n);
    ReflectNear(n + 1, n);
    ReflectNear(n + 2, n);
    Sym4At(h, c, n - 3);
    Sym4At(h, c, n - 2);
    Sym4At(h, c, n - 1);
  }

  // ---------------------------------------------------------------------------
  // Four taps, the short signals.

  /** With two to five samples every tap reads its reflection in closed form. */
  lemma Sym4ShortAt(h: seq<real>, c: seq<real>, i: int)
    requires |h| == 4 && 2 <= |c| < 6 && 0 <= i < |c|
    ensures SymmetricAt(h, c, i) == Taps4(h, c[i], c[Near(i - 1, |c|)], c[Near(i + 1, |c|)],
                                          c[Near(i - 2, |c|)], c[Near(i + 2, |c|)],
                                          c[Near(i - 3, |c|)], c[Near(i + 3, |c|)])
  {
    var n := |c|;
    ReflectNear(i - 1, n);
    ReflectNear(i + 1, n);
    ReflectNear(i - 2, n);
    ReflectNear(i + 2, n);
    ReflectNear(i - 3, n);
    ReflectNear(i + 3, n);
    Sym4At(h, c, i);
  }

  lemma Sym4Single(h: seq<real>, c: seq<real>)
    requires |h| == 4 && |c| == 1
    ensures SymmetricAt(h, c, 0) == (h[0] + 2.0 * (h[1] + h[2] + h[3])) * c[0]
  {
    Sym4At(h, c, 0);
    assert Ext(c, -1) == c[0] && Ext(c, -2) == c[0] && Ext(c, -3) == c[0];
    assert Ext(c, 1) == c[0] && Ext(c, 2) == c[0] && Ext(c, 3) == c[0];
  }

  // ---------------------------------------------------------------------------
  // The antisymmetric filter's boundary formulas.

  lemma AntiFirst(h: seq<real>, c: seq<real>)
    requires |h| == 2 && |c| >= 2
    ensures AntiAt(h, c, 0) == h[1] * (c[1] - c[0])
  {
    Anti2At(h, c, 0);
    ReflectNear(-1, |c|);
  }

  lemma AntiInner(h: seq<real>, c: seq<real>, i: int)
    requires |h| == 2 && 1 <= i < |c| - 1
    ensures AntiAt(h, c, i) == h[1] * (c[i + 1] - c[i - 1])
  {
    Anti2At(h, c, i);
  }

  lemma AntiLast(h: seq<real>, c: seq<real>)
    requires |h| == 2 && |c| >= 2
    ensures AntiAt(h, c, |c| - 1) == h[1] * (c[|c| - 1] - c[|c| - 2])
  {
    Anti2At(h, c, |c| - 1);
    ReflectNear(|c|, |c|);
  }

  lemma AntiSingle(h: seq<real>, c: seq<real>)
    requires |h| == 2 && |c| == 1
    ensures AntiAt(h, c, 0) == 0.0
  {
    Anti2At(h, c, 0);
    assert Ext(c, -1) == c[0] && Ext(c, 1) == c[0];
  }

  // ---------------------------------------------------------------------------
  // The reduction's boundary formulas.

  lemma ReduceFirst(c: seq<real>)
    requires |c| >= 3
    ensures SymmetricAt(REDUCE, c, 0) == REDUCE[0] * c[0] + REDUCE[1] * (c[0] + c[1])
                                         + REDUCE[2] * (c[1] + c[2])
  {
    ReflectNear(-1, |c|);
    ReflectNear(-2, |c|);
    Sym3At(REDUCE, c, 0);
  }

  lemma ReduceInner(c: seq<real>, i: int)
    requires 2 <= i < |c| - 2
    ensures SymmetricAt(REDUCE, c, i) == REDUCE[0] * c[i] + REDUCE[1] * (c[i - 1] + c[i + 1])
                                         + REDUCE[2] * (c[i - 2] + c[i + 2])
  {
    Sym3At(REDUCE, c, i);
  }

  lemma ReduceLastEven(c: seq<real>)
    requires |c| >= 4
    ensures SymmetricAt(REDUCE, c, |c| - 2) == REDUCE[0] * c[|c| - 2]
              + REDUCE[1] * (c[|c| - 3] + c[|c| - 1])
              + REDUCE[2] * (c[|c| - 4] + c[|c| - 1])
  {
    ReflectNear(|c|, |c|);
    Sym3At(REDUCE, c, |c| - 2);
  }

  lemma ReduceLastOdd(c: seq<real>)
    requires |c| >= 5
    ensures SymmetricAt(REDUCE, c, |c| - 3) == REDUCE[0] * c[|c| - 3]
              + REDUCE[1] * (c[|c| - 4] + c[|c| - 2])
              + REDUCE[2] * (c[|c| - 5] + c[|c| - 1])
  {
    Sym3At(REDUCE, c, |c| - 3);
  }

  lemma ReducePair(c: seq<real>)
    requires |c| == 2
    ensures SymmetricAt(REDUCE, c, 0) == REDUCE[0] * c[0] + REDUCE[1] * (c[0] + c[1])
                                         + 2.0 * REDUCE[2] * c[1]
  {
    ReflectNear(-1, 2);
    ReflectNear(-2, 2);
    ReflectNear(2, 2);
    Sym3At(REDUCE, c, 0);
  }

  // ---------------------------------------------------------------------------
  // The outputs as the source writes them, case by case, and their agreement
  // with the mirror-boundary convolution.

  /** Output i of symmetricFirMirrorOffBounds1D with a two-tap kernel. */
  function TwoTapAt(h: seq<real>, c: seq<real>, i: int): real
    requires |h| == 2 && 0 <= i < |c|
  {
    var n := |c|;
    if n < 2 then (h[0] + 2.0 * h[1]) * c[0]
    else if i == 0 then h[0] * c[0] + h[1] * (c[0] + c[1])
    else if i == n - 1 then h[0] * c[n - 1] + h[1] * (c[n - 2] + c[n - 1])
    else h[0] * c[i] + h[1] * (c[i - 1] + c[i + 1])
  }

  /** Output i of symmetricFirMirrorOffBounds1D with a four-tap kernel. */
  function FourTapAt(h: seq<real>, c: seq<real>, i: int): real
    requires |h| == 4 && 0 <= i < |c|
  {
    var n := |c|;
    if 6 <= n then
      if i == 0 then Taps4(h, c[0], c[0], c[1], c[1], c[2], c[2], c[3])
      else if i == 1 then Taps4(h, c[1], c[0], c[2], c[0], c[3], c[1], c[4])
      else if i == 2 then Taps4(h, c[2], c[1], c[3], c[0], c[4], c[0], c[5])
      else if i == n - 3 then Taps4(h, c[n - 3], c[n - 4], c[n - 2], c[n - 5], c[n - 1], c[n - 6], c[n - 1])
      else if i == n - 2 then Taps4(h, c[n - 2], c[n - 3], c[n - 1], c[n - 4], c[n - 1], c[n - 5], c[n - 2])
      else if i == n - 1 then Taps4(h, c[n - 1], c[n - 2], c[n - 1], c[n - 3], c[n - 2], c[n - 4], c[n - 3])
      else Taps4(h, c[i], c[i - 1], c[i + 1], c[i - 2], c[i + 2], c[i - 3], c[i + 3])
    else if n == 5 then
      if i == 0 then h[0] * c[0] + h[1] * (c[0] + c[1]) + h[2] * (c[1] + c[2]) + h[3] * (c[2] + c[3])
      else if i == 1 then h[0] * c[1] + h[1] * (c[0] + c[2]) + h[2] * (c[0] + c[3]) + h[3] * (c[1] + c[4])
      else if i == 2 then h[0] * c[2] + h[1] * (c[1] + c[3]) + (h[2] + h[3]) * (c[0] + c[4])
      else if i == 3 then h[0] * c[3] + h[1] * (c[2] + c[4]) + h[2] * (c[1] + c[4]) + h[3] * (c[0] + c[3])
      else h[0] * c[4] + h[1] * (c[3] + c[4]) + h[2] * (c[2] + c[3]) + h[3] * (c[1] + c[2])
    else if n == 4 then
      if i == 0 then h[0] * c[0] + h[1] * (c[0] + c[1]) + h[2] * (c[1] + c[2]) + h[3] * (c[2] + c[3])
      else if i == 1 then h[0] * c[1] + h[1] * (c[0] + c[2]) + h[2] * (c[0] + c[3]) + h[3] * (c[1] + c[3])
      else if i == 2 then h[0] * c[2] + h[1] * (c[1] + c[3]) + h[2] * (c[0] + c[3]) + h[3] * (c[0] + c[2])
      else h[0] * c[3] + h[1] * (c[2] + c[3]) + h[2] * (c[1] + c[2]) + h[3] * (c[0] + c[1])
    else if n == 3 then
      if i == 0 then h[0] * c[0] + h[1] * (c[0] + c[1]) + h[2] * (c[1] + c[2]) + 2.0 * h[3] * c[2]
      else if i == 1 then h[0] * c[1] + (h[1] + h[2]) * (c[0] + c[2]) + 2.0 * h[3] * c[1]
      else h[0] * c[2] + h[1] * (c[1] + c[2]) + h[2] * (c[0] + c[1]) + 2.0 * h[3] * c[0]
    else if n == 2 then
      if i == 0 then (h[0] + h[1] + h[3]) * c[0] + (h[1] + 2.0 * h[2] + h[3]) * c[1]
      else (h[0] + h[1] + h[3]) * c[1] + (h[1] + 2.0 * h[2] + h[3]) * c[0]
    else (h[0] + 2.0 * (h[1] + h[2] + h[3])) * c[0]
  }

  /** Output i of antiSymmetricFirMirrorOffBounds1D (only the tap h[1] is read). */
  function AntiTwoTapAt(h: seq<real>, c: seq<real>, i: int): real
    requires |h| == 2 && 0 <= i < |c|
  {
    var n := |c|;
    if n < 2 then 0.0
    else if i == 0 then h[1] * (c[1] - c[0])
    else if i == n - 1 then h[1] * (c[n - 1] - c[n - 2])
    else h[1] * (c[i + 1] - c[i - 1])
  }

  /** Output j of reduceDual1D, for a signal of length at least two. */
  function ReduceTapAt(c: seq<real>, j: int): real
    requires 0 <= j < |c| / 2
  {
    var h, n, m := REDUCE, |c|, |c| / 2;
    if 2 <= m then
      if j == 0 then h[0] * c[0] + h[1] * (c[0] + c[1]) + h[2] * (c[1] + c[2])
      else if j == m - 1 then
        if n == 2 * m then h[0] * c[n - 2] + h[1] * (c[n - 3] + c[n - 1]) + h[2] * (c[n - 4] + c[n - 1])
        else h[0] * c[n - 3] + h[1] * (c[n - 4] + c[n - 2]) + h[2] * (c[n - 5] + c[n - 1])
      else h[0] * c[2 * j] + h[1] * (c[2 * j - 1] + c[2 * j + 1]) + h[2] * (c[2 * j - 2] + c[2 * j + 2])
    else if n == 3 then h[0] * c[0] + h[1] * (c[0] + c[1]) + h[2] * (c[1] + c[2])
    else h[0] * c[0] + h[1] * (c[0] + c[1]) + 2.0 * h[2] * c[1]
  }

  lemma TwoTapIsSymmetric(h: seq<real>, c: seq<real>, i: int)
    requires |h| == 2 && 0 <= i < |c|
    ensures TwoTapAt(h, c, i) == SymmetricAt(h, c, i)
  {
    var n := |c|;
    if n < 2 {
      Sym2Single(h, c);
    } else if i == 0 {
      Sym2First(h, c);
    } else if i == n - 1 {
      Sym2Last(h, c);
    } else {
      Sym2Inner(h, c, i);
    }
  }

  lemma FourTapIsSymmetric(h: seq<real>, c: seq<real>, i: int)
    requires |h| == 4 && 0 <= i < |c|
    ensures FourTapAt(h, c, i) == SymmetricAt(h, c, i)
  {
    var n := |c|;
    if 6 <= n {
      FourTapLongIsSymmetric(h, c, i);
    } else if 2 <= n {
      FourTapShortIsSymmetric(h, c, i);
    } else {
      Sym4Single(h, c);
    }
  }

  lemma FourTapLongIsSymmetric(h: seq<real>, c: seq<real>, i: int)
    requires |h| == 4 && 6 <= |c| && 0 <= i < |c|
    ensures FourTapAt(h, c, i) == SymmetricAt(h, c, i)
  {
    var n := |c|;
    if i < 3 {
      Sym4Head(h, c);
    } else if i < n - 3 {
      Sym4Inner(h, c, i);
    } else {
      Sym4Tail(h, c);
    }
  }

  lemma FourTapShortIsSymmetric(h: seq<real>, c: seq<real>, i: int)
    requires |h| == 4 && 2 <= |c| < 6 && 0 <= i < |c|
    ensures FourTapAt(h, c, i) == SymmetricAt(h, c, i)
  {
    Sym4ShortAt(h, c, i);
    var n := |c|;
    if n == 5 {
      FourTapFive(h, c, i);
    } else if n == 4 {
      FourTapFour(h, c, i);
    } else if n == 3 {
      FourTapThree(h, c, i);
    } else {
      assert i == 0 || i == 1;
    }
  }

  /** The hand-written cases for five samples are the four taps over the mirror extension. */
  lemma FourTapFive(h: seq<real>, c: seq<real>, i: int)
    requires |h| == 4 && |c| == 5 && 0 <= i < |c|
    requires SymmetricAt(h, c, i) == Taps4(h, c[i], c[Near(i - 1, |c|)], c[Near(i + 1, |c|)],
                                          c[Near(i - 2, |c|)], c[Near(i + 2, |c|)],
                                          c[Near(i - 3, |c|)], c[Near(i + 3, |c|)])
    ensures FourTapAt(h, c, i) == SymmetricAt(h, c, i)
  {
    assert i == 0 || i == 1 || i == 2 || i == 3 || i == 4;
  }

  /** The hand-written cases for four samples. */
  lemma FourTapFour(h: seq<real>, c: seq<real>, i: int)
    requires |h| == 4 && |c| == 4 && 0 <= i < |c|
    requires SymmetricAt(h, c, i) == Taps4(h, c[i], c[Near(i - 1, |c|)], c[Near(i + 1, |c|)],
                                          c[Near(i - 2, |c|)], c[Near(i + 2, |c|)],
                                          c[Near(i - 3, |c|)], c[Near(i + 3, |c|)])
    ensures FourTapAt(h, c, i) == SymmetricAt(h, c, i)
  {
    assert i == 0 || i == 1 || i == 2 || i == 3;
  }

  /** The hand-written cases for three samples. */
  lemma FourTapThree(h: seq<real>, c: seq<real>, i: int)
    requires |h| == 4 && |c| == 3 && 0 <= i < |c|
    requires SymmetricAt(h, c, i) == Taps4(h, c[i], c[Near(i - 1, |c|)], c[Near(i + 1, |c|)],
                                          c[Near(i - 2, |c|)], c[Near(i + 2, |c|)],
                                          c[Near(i - 3, |c|)], c[Near(i + 3, |c|)])
    ensures FourTapAt(h, c, i) == SymmetricAt(h, c, i)
  {
    assert i == 0 || i == 1 || i == 2;
  }

  lemma AntiTwoTapIsAnti(h: seq<real>, c: seq<real>, i: int)
    requires |h| == 2 && 0 <= i < |c|
    ensures AntiTwoTapAt(h, c, i) == AntiAt(h, c, i)
  {
    var n := |c|;
    if n < 2 {
      AntiSingle(h, c);
    } else if i == 0 {
      AntiFirst(h, c);
    } else if i == n - 1 {
      AntiLast(h, c);
    } else {
      AntiInner(h, c, i);
    }
  }

  lemma ReduceTapIsReduce(c: seq<real>, j: int)
    requires 0 <= j < |c| / 2
    ensures ReduceTapAt(c, j) == SymmetricAt(REDUCE, c, 2 * j)
  {
    var n, m := |c|, |c| / 2;
    if 2 <= m {
      if j == 0 {
        ReduceFirst(c);
      } else if j == m - 1 {
        if n == 2 * m {
          ReduceLastEven(c);
        } else {
          ReduceLastOdd(c);
        }
      } else {
        ReduceInner(c, 2 * j);
      }
    } else if n == 3 {
      ReduceFirst(c);
    } else {
      ReducePair(c);
    }
  }

  /** A signal that agrees with the two-tap formulas everywhere is the symmetric filter's output. */
  lemma TwoTapSpec(h: seq<real>, c: seq<real>, out: seq<real>)
    requires |h| == 2 && |out| == |c|
    requires forall k :: 0 <= k < |c| ==> out[k] == TwoTapAt(h, c, k)
    ensures out == Symmetric(h, c)
  {
    forall k | 0 <= k < |c|
      ensures out[k] == Symmetric(h, c)[k]
    {
      TwoTapIsSymmetric(h, c, k);
    }
  }

  lemma FourTapSpec(h: seq<real>, c: seq<real>, out: seq<real>)
    requires |h| == 4 && |out| == |c|
    requires forall k :: 0 <= k < |c| ==> out[k] == FourTapAt(h, c, k)
    ensures out == Symmetric(h, c)
  {
    forall k | 0 <= k < |c|
      ensures out[k] == Symmetric(h, c)[k]
    {
      FourTapIsSymmetric(h, c, k);
    }
  }

  lemma AntiTwoTapSpec(h: seq<real>, c: seq<real>, out: seq<real>)
    requires |h| == 2 && |out| == |c|
    requires forall k :: 0 <= k < |c| ==> out[k] == AntiTwoTapAt(h, c, k)
    ensures out == Anti(h, c)
  {
    forall k | 0 <= k < |c|
      ensures out[k] == Anti(h, c)[k]
    {
      AntiTwoTapIsAnti(h, c, k);
    }
  }

  lemma ReduceTapSpec(c: seq<real>, out: seq<real>)
    requires |out| == |c| / 2
    requires forall j :: 0 <= j < |c| / 2 ==> out[j] == ReduceTapAt(c, j)
    ensures out == Reduce(c)
  {
    forall j | 0 <= j < |c| / 2
      ensures out[j] == Reduce(c)[j]
    {
      ReduceTapIsReduce(c, j);
    }
  }

  // ---------------------------------------------------------------------------
  // The filters.

  /**
   * symmetricFirMirrorOffBounds1D: the symmetric filter h over c, written to s.
   * Kernels with two or four taps are implemented; for any other length the
   * output is left as it was.
   */
  method SymmetricFirMirrorOffBounds1D(h: seq<real>, c: array<real>, s: array<real>)
    requires c.Length == s.Length && c != s
    requires |h| == 2 ==> c.Length >= 1
    modifies s
    ensures |h| == 2 || |h| == 4 ==> s[..] == Symmetric(h, c[..])
    ensures |h| != 2 && |h| != 4 ==> s[..] == old(s[..])
  {
    if |h| == 2 {
      SymmetricFir2(h, c, s);
      TwoTapSpec(h, c[..], s[..]);
    } else if |h| == 4 {
      if 6 <= c.Length {
        SymmetricFir4Long(h, c, s);
      } else {
        SymmetricFir4Short(h, c, s);
      }
      FourTapSpec(h, c[..], s[..]);
    }
  }

  method SymmetricFir2(h: seq<real>, c: array<real>, s: array<real>)
    requires |h| == 2 && c.Length == s.Length >= 1 && c != s
    modifies s
    ensures forall k :: 0 <= k < s.Length ==> s[k] == TwoTapAt(h, c[..], k)
  {
    ghost var cs := c[..];
    var n := s.Length;
    if 2 <= c.Length {
      s[0] := h[0] * c[0] + h[1] * (c[0] + c[1]);
      var i := 1;
      while i < n - 1
        invariant 1 <= i <= n - 1
        invariant forall k :: 0 <= k < i ==> s[k] == TwoTapAt(h, cs, k)
      {
        s[i] := h[0] * c[i] + h[1] * (c[i - 1] + c[i + 1]);
        i := i + 1;
      }
      s[n - 1] := h[0] * c[n - 1] + h[1] * (c[n - 2] + c[n - 1]);
    } else {
      s[0] := (h[0] + 2.0 * h[1]) * c[0];
    }
  }

  method SymmetricFir4Long(h: seq<real>, c: array<real>, s: array<real>)
    requires |h| == 4 && c.Length == s.Length >= 6 && c != s
    modifies s
    ensures forall k :: 0 <= k < s.Length ==> s[k] == FourTapAt(h, c[..], k)
  {
    ghost var cs := c[..];
    var n := s.Length;
    s[0] := Taps4(h, c[0], c[0], c[1], c[1], c[2], c[2], c[3]);
    s[1] := Taps4(h, c[1], c[0], c[2], c[0], c[3], c[1], c[4]);
    s[2] := Taps4(h, c[2], c[1], c[3], c[0], c[4], c[0], c[5]);
    var i := 3;
    while i < n - 3
      invariant 3 <= i <= n - 3
      invariant forall k :: 0 <= k < i ==> s[k] == FourTapAt(h, cs, k)
    {
      s[i] := Taps4(h, c[i], c[i - 1], c[i + 1], c[i - 2], c[i + 2], c[i - 3], c[i + 3]);
      i := i + 1;
    }
    s[n - 3] := Taps4(h, c[n - 3], c[n - 4], c[n - 2], c[n - 5], c[n - 1], c[n - 6], c[n - 1]);
    s[n - 2] := Taps4(h, c[n - 2], c[n - 3], c[n - 1], c[n - 4], c[n - 1], c[n - 5], c[n - 2]);
    s[n - 1] := Taps4(h, c[n - 1], c[n - 2], c[n - 1], c[n - 3], c[n - 2], c[n - 4], c[n - 3]);
  }

  method SymmetricFir4Short(h: seq<real>, c: array<real>, s: array<real>)
    requires |h| == 4 && c.Length == s.Length < 6 && c != s
    modifies s
    ensures forall k :: 0 <= k < s.Length ==> s[k] == FourTapAt(h, c[..], k)
  {
    var n := c.Length;
    if n == 5 {
      s[0] := h[0] * c[0] + h[1] * (c[0] + c[1]) + h[2] * (c[1] + c[2]) + h[3] * (c[2] + c[3]);
      s[1] := h[0] * c[1] + h[1] * (c[0] + c[2]) + h[2] * (c[0] + c[3]) + h[3] * (c[1] + c[4]);
      s[2] := h[0] * c[2] + h[1] * (c[1] + c[3]) + (h[2] + h[3]) * (c[0] + c[4]);
      s[3] := h[0] * c[3] + h[1] * (c[2] + c[4]) + h[2] * (c[1] + c[4]) + h[3] * (c[0] + c[3]);
      s[4] := h[0] * c[4] + h[1] * (c[3] + c[4]) + h[2] * (c[2] + c[3]) + h[3] * (c[1] + c[2]);
    } else if n == 4 {
      s[0] := h[0] * c[0] + h[1] * (c[0] + c[1]) + h[2] * (c[1] + c[2]) + h[3] * (c[2] + c[3]);
      s[1] := h[0] * c[1] + h[1] * (c[0] + c[2]) + h[2] * (c[0] + c[3]) + h[3] * (c[1] + c[3]);
      s[2] := h[0] * c[2] + h[1] * (c[1] + c[3]) + h[2] * (c[0] + c[3]) + h[3] * (c[0] + c[2]);
      s[3] := h[0] * c[3] + h[1] * (c[2] + c[3]) + h[2] * (c[1] + c[2]) + h[3] * (c[0] + c[1]);
    } else if n == 3 {
      s[0] := h[0] * c[0] + h[1] * (c[0] + c[1]) + h[2] * (c[1] + c[2]) + 2.0 * h[3] * c[2];
      s[1] := h[0] * c[1] + (h[1] + h[2]) * (c[0] + c[2]) + 2.0 * h[3] * c[1];
      s[2] := h[0] * c[2] + h[1] * (c[1] + c[2]) + h[2] * (c[0] + c[1]) + 2.0 * h[3] * c[0];
    } else if n == 2 {
      s[0] := (h[0] + h[1] + h[3]) * c[0] + (h[1] + 2.0 * h[2] + h[3]) * c[1];
      s[1] := (h[0] + h[1] + h[3]) * c[1] + (h[1] + 2.0 * h[2] + h[3]) * c[0];
    } else if n == 1 {
      s[0] := (h[0] + 2.0 * (h[1] + h[2] + h[3])) * c[0];
    }
  }

  /** antiSymmetricFirMirrorOffBounds1D: the antisymmetric filter h over c, written to s. */
  method AntiSymmetricFirMirrorOffBounds1D(h: seq<real>, c: array<real>, s: array<real>)
    requires |h| == 2 && c.Length == s.Length >= 1 && c != s
    modifies s
    ensures s[..] == Anti(h, c[..])
  {
    ghost var cs := c[..];
    var n := s.Length;
    if 2 <= c.Length {
      s[0] := h[1] * (c[1] - c[0]);
      var i := 1;
      while i < n - 1
        invariant 1 <= i <= n - 1
        invariant forall k :: 0 <= k < i ==> s[k] == AntiTwoTapAt(h, cs, k)
      {
        s[i] := h[1] * (c[i + 1] - c[i - 1]);
        i := i + 1;
      }
      s[n - 1] := h[1] * (c[c.Length - 1] - c[c.Length - 2]);
    } else {
      s[0] := 0.0;
    }
    AntiTwoTapSpec(h, cs, s[..]);
  }

  /** reduceDual1D: filter c by the reduction kernel and keep the even samples, written to s. */
  method ReduceDual1D(c: array<real>, s: array<real>)
    requires s.Length == c.Length / 2 && c != s
    modifies s
    ensures s[..] == Reduce(c[..])
  {
    ghost var cs := c[..];
    var h := REDUCE;
    var n, m := c.Length, s.Length;
    if 2 <= m {
      s[0] := h[0] * c[0] + h[1] * (c[0] + c[1]) + h[2] * (c[1] + c[2]);
      var i, j := 2, 1;
      while j < m - 1
        invariant 1 <= j <= m - 1 && i == 2 * j
        invariant forall k :: 0 <= k < j ==> s[k] == ReduceTapAt(cs, k)
      {
        s[j] := h[0] * c[i] + h[1] * (c[i - 1] + c[i + 1]) + h[2] * (c[i - 2] + c[i + 2]);
        i, j := i + 2, j + 1;
      }
      if n == 2 * m {
        s[m - 1] := h[0] * c[n - 2] + h[1] * (c[n - 3] + c[n - 1]) + h[2] * (c[n - 4] + c[n - 1]);
      } else {
        s[m - 1] := h[0] * c[n - 3] + h[1] * (c[n - 4] + c[n - 2]) + h[2] * (c[n - 5] + c[n - 1]);
      }
    } else if n == 3 {
      s[0] := h[0] * c[0] + h[1] * (c[0] + c[1]) + h[2] * (c[1] + c[2]);
    } else if n == 2 {
      s[0] := h[0] * c[0] + h[1] * (c[0] + c[1]) + 2.0 * h[2] * c[1];
    }
    ReduceTapSpec(cs, s[..]);
  }

  /** coefficientToGradient1D: replace spline coefficients by the central difference of the spline. */
  method CoefficientToGradient1D(c: array<real>)
    requires c.Length >= 1
    modifies c
    ensures c[..] == Anti(GRADIENT, old(c[..]))
  {
    var s := new real[c.Length];
    AntiSymmetricFirMirrorOffBounds1D(GRADIENT, c, s);
    forall i | 0 <= i < c.Length {
      c[i] := s[i];
    }
  }

  /** coefficientToSamples1D: replace cubic spline coefficients by the samples of the spline. */
  method CoefficientToSamples1D(c: array<real>)
    requires c.Length >= 1
    modifies c
    ensures c[..] == Symmetric(CUBIC, old(c[..]))
  {
    var s := new real[c.Length];
    SymmetricFirMirrorOffBounds1D(CUBIC, c, s);
    forall i | 0 <= i < c.Length {
      c[i] := s[i];
    }
  }

  // ---------------------------------------------------------------------------
  // What the filters do to simple signals.

  /** The spline kernels keep a constant signal constant. */
  lemma SplineKeepsConstant(degree: int, a: real, n: nat)
    requires degree == 3 || degree == 7
    ensures Symmetric(Kernel(degree), Constant(a, n)) == Constant(a, n)
  {
    KernelWeights();
    SymmetricUnitConstant(Kernel(degree), a, n);
  }

  /** The gradient of a constant signal vanishes everywhere, borders included. */
  lemma GradientOfConstant(a: real, n: nat)
    ensures Anti(GRADIENT, Constant(a, n)) == Constant(0.0, n)
  {
    AntiConstant(GRADIENT, a, n);
  }

  /** Away from the borders, the gradient of the ramp c[i] = a * i is the slope a. */
  lemma GradientOfRamp(c: seq<real>, a: real, i: int)
    requires forall k :: 0 <= k < |c| ==> c[k] == a * (k as real)
    requires 1 <= i < |c| - 1
    ensures Anti(GRADIENT, c)[i] == a
  {
    AntiInner(GRADIENT, c, i);
    assert c[i + 1] - c[i - 1] == 2.0 * a;
  }

  lemma ReduceAtConstant(a: real, n: nat, j: int)
    requires n >= 1
    ensures SymmetricAt(REDUCE, Constant(a, n), j) == a
  {
    KernelWeights();
    SymmetricAtConstant(REDUCE, a, n, j);
  }

  /** Reducing a constant signal gives the constant signal of half the length. */
  lemma ReduceConstant(a: real, n: nat)
    ensures Reduce(Constant(a, n)) == Constant(a, n / 2)
  {
    forall j | 0 <= j < n / 2
      ensures Reduce(Constant(a, n))[j] == Constant(a, n / 2)[j]
    {
      ReduceAtConstant(a, n, 2 * j);
    }
  }
}
