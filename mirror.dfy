/**
 * Mirror-off-bounds boundary conventions. Every 1-D filter of the image
 * preprocessing extends a finite signal c[0..n) by the half-sample symmetric
 * mirror (c[-1] = c[0], c[-2] = c[1], ..., c[n] = c[n-1], ...), which has
 * period 2n. This module defines that extension and the convolutions over it;
 * the filter methods elsewhere are proved equal to these definitions.
 */
module Mirror {

  /** The index inside [0, n) that position i of the mirrored signal reads. */
  function Reflect(i: int, n: int): (r: int)
    requires n >= 1
    ensures 0 <= r < n
    decreases if i < 0 then -i else i
  {
    if 0 <= i < n then i
    else if i < 0 then Reflect(-1 - i, n)
    else Reflect(2 * n - 1 - i, n)
  }

  /** Sample i of the mirror-extended signal c. */
  function Ext(c: seq<real>, i: int): real
    requires |c| >= 1
  {
    c[Reflect(i, |c|)]
  }

  /** The reflection written out for positions up to two periods away from the signal. */
  function Near(i: int, n: int): int
  {
    if i < -n then 2 * n + i
    else if i < 0 then -1 - i
    else if i < n then i
    else if i < 2 * n then 2 * n - 1 - i
    else i - 2 * n
  }

  /** Up to two periods on either side, the reflection is the closed form Near. */
  lemma ReflectNear(i: int, n: int)
    requires n >= 1 && -2 * n <= i < 3 * n
    ensures Reflect(i, n) == Near(i, n)
  {
    if i < -n {
      assert Reflect(i, n) == Reflect(-1 - i, n);
      assert Reflect(-1 - i, n) == Reflect(2 * n + i, n);
    } else if 2 * n <= i {
      assert Reflect(i, n) == Reflect(2 * n - 1 - i, n);
      assert Reflect(2 * n - 1 - i, n) == Reflect(i - 2 * n, n);
    }
  }

  /** Reflection commutes with reversing the signal: position n-1-i reads the mirror image of what i reads. */
  lemma {:induction false} ReflectReverse(i: int, n: int)
    requires n >= 1
    ensures Reflect(n - 1 - i, n) == n - 1 - Reflect(i, n)
    decreases if i < 0 then -i else i
  {
    if 0 <= i < n {
    } else if i < 0 {
      // n - 1 - i >= n, so it reflects to 2n - 1 - (n - 1 - i) = n + i = n - 1 - (-1 - i)
      ReflectReverse(-1 - i, n);
    } else {
      ReflectReverse(2 * n - 1 - i, n);
    }
  }

  /** The signal read backwards. */
  function Reverse(c: seq<real>): (r: seq<real>)
    ensures |r| == |c|
    ensures forall i :: 0 <= i < |c| ==> r[i] == c[|c| - 1 - i]
  {
    seq(|c|, i requires 0 <= i < |c| => c[|c| - 1 - i])
  }

  /** Reversing the signal reverses its mirror extension. */
  lemma ExtReverse(c: seq<real>, i: int)
    requires |c| >= 1
    ensures Ext(Reverse(c), i) == Ext(c, |c| - 1 - i)
  {
    ReflectReverse(i, |c|);
  }

  /** The constant signal of length n. */
  function Constant(a: real, n: nat): (r: seq<real>)
    ensures |r| == n && forall i :: 0 <= i < n ==> r[i] == a
  {
    seq(n, _ => a)
  }

  /** The symmetric tail sum h[1] (x[i-1] + x[i+1]) + ... + h[m] (x[i-m] + x[i+m]). */
  function SymTaps(h: seq<real>, c: seq<real>, i: int, m: nat): real
    requires |c| >= 1 && m < |h|
  {
    if m == 0 then 0.0
    else SymTaps(h, c, i, m - 1) + h[m] * (Ext(c, i - m) + Ext(c, i + m))
  }

  /** The antisymmetric tail sum h[1] (x[i+1] - x[i-1]) + ... + h[m] (x[i+m] - x[i-m]). */
  function AntiTaps(h: seq<real>, c: seq<real>, i: int, m: nat): real
    requires |c| >= 1 && m < |h|
  {
    if m == 0 then 0.0
    else AntiTaps(h, c, i, m - 1) + h[m] * (Ext(c, i + m) - Ext(c, i - m))
  }

  /** Output i of the symmetric filter h[0], h[1], ... over the mirrored signal. */
  function SymmetricAt(h: seq<real>, c: seq<real>, i: int): real
    requires |h| >= 1 && |c| >= 1
  {
    h[0] * Ext(c, i) + SymTaps(h, c, i, |h| - 1)
  }

  /** Output i of the antisymmetric filter over the mirrored signal (its centre tap multiplies zero). */
  function AntiAt(h: seq<real>, c: seq<real>, i: int): real
    requires |h| >= 1 && |c| >= 1
  {
    AntiTaps(h, c, i, |h| - 1)
  }

  /** The symmetric filter over the whole signal. */
  function Symmetric(h: seq<real>, c: seq<real>): (r: seq<real>)
    requires |h| >= 1
    ensures |r| == |c|
  {
    seq(|c|, i requires 0 <= i < |c| => SymmetricAt(h, c, i))
  }

  /** The antisymmetric filter over the whole signal. */
  function Anti(h: seq<real>, c: seq<real>): (r: seq<real>)
    requires |h| >= 1
    ensures |r| == |c|
  {
    seq(|c|, i requires 0 <= i < |c| => AntiAt(h, c, i))
  }

  /** The weight h[0] + 2 (h[1] + ... + h[m]) of a symmetric kernel. */
  function Weight(h: seq<real>, m: nat): real
    requires m < |h|
  {
    if m == 0 then h[0] else Weight(h, m - 1) + 2.0 * h[m]
  }

  lemma {:induction false} SymTapsConstant(h: seq<real>, a: real, n: nat, i: int, m: nat)
    requires n >= 1 && m < |h|
    ensures h[0] * Ext(Constant(a, n), i) + SymTaps(h, Constant(a, n), i, m) == Weight(h, m) * a
  {
    if m > 0 {
      SymTapsConstant(h, a, n, i, m - 1);
    } else {
      assert Ext(Constant(a, n), i) == a;
    }
  }

  lemma {:induction false} AntiTapsConstant(h: seq<real>, a: real, n: nat, i: int, m: nat)
    requires n >= 1 && m < |h|
    ensures AntiTaps(h, Constant(a, n), i, m) == 0.0
  {
    if m > 0 {
      AntiTapsConstant(h, a, n, i, m - 1);
    }
  }

  /** A symmetric filter scales a constant signal by the kernel's weight. */
  lemma SymmetricConstant(h: seq<real>, a: real, n: nat)
    requires |h| >= 1
    ensures forall i :: 0 <= i < n ==> Symmetric(h, Constant(a, n))[i] == Weight(h, |h| - 1) * a
  {
    forall i | 0 <= i < n
      ensures Symmetric(h, Constant(a, n))[i] == Weight(h, |h| - 1) * a
    {
      SymmetricAtConstant(h, a, n, i);
    }
  }

  /** A symmetric kernel of unit weight leaves a constant signal unchanged. */
  lemma SymmetricUnitConstant(h: seq<real>, a: real, n: nat)
    requires |h| >= 1 && Weight(h, |h| - 1) == 1.0
    ensures Symmetric(h, Constant(a, n)) == Constant(a, n)
  {
    SymmetricConstant(h, a, n);
  }

  lemma SymmetricAtConstant(h: seq<real>, a: real, n: nat, i: int)
    requires |h| >= 1 && n >= 1
    ensures SymmetricAt(h, Constant(a, n), i) == Weight(h, |h| - 1) * a
  {
    SymTapsConstant(h, a, n, i, |h| - 1);
  }

  /** An antisymmetric filter sends a constant signal to zero. */
  lemma AntiConstant(h: seq<real>, a: real, n: nat)
    requires |h| >= 1
    ensures Anti(h, Constant(a, n)) == Constant(0.0, n)
  {
    forall i | 0 <= i < n
      ensures AntiAt(h, Constant(a, n), i) == 0.0
    {
      AntiTapsConstant(h, a, n, i, |h| - 1);
    }
  }

  lemma {:induction false} SymTapsReverse(h: seq<real>, c: seq<real>, i: int, j: int, m: nat)
    requires |c| >= 1 && m < |h| && j == |c| - 1 - i
    ensures SymTaps(h, Reverse(c), i, m) == SymTaps(h, c, j, m)
  {
    if m > 0 {
      SymTapsReverse(h, c, i, j, m - 1);
      SymTermReverse(h, c, i, m, j);
    }
  }

  lemma SymTermReverse(h: seq<real>, c: seq<real>, i: int, m: nat, j: int)
    requires |c| >= 1 && m < |h| && j == |c| - 1 - i
    ensures h[m] * (Ext(Reverse(c), i - m) + Ext(Reverse(c), i + m)) == h[m] * (Ext(c, j - m) + Ext(c, j + m))
  {
    assert Ext(Reverse(c), i - m) == Ext(c, j + m) by { ExtReverse(c, i - m); }
    assert Ext(Reverse(c), i + m) == Ext(c, j - m) by { ExtReverse(c, i + m); }
  }

  lemma {:induction false} AntiTapsReverse(h: seq<real>, c: seq<real>, i: int, m: nat)
    requires |c| >= 1 && m < |h|
    ensures AntiTaps(h, Reverse(c), i, m) + AntiTaps(h, c, |c| - 1 - i, m) == 0.0
  {
    if m > 0 {
      AntiTapsReverse(h, c, i, m - 1);
      AntiTermReverse(h, c, i, m);
    }
  }

  lemma AntiTermReverse(h: seq<real>, c: seq<real>, i: int, m: nat)
    requires |c| >= 1 && m < |h|
    ensures h[m] * (Ext(Reverse(c), i + m) - Ext(Reverse(c), i - m))
          + h[m] * (Ext(c, |c| - 1 - i + m) - Ext(c, |c| - 1 - i - m)) == 0.0
  {
    ExtReverse(c, i - m);
    ExtReverse(c, i + m);
  }

  lemma SymmetricAtReverse(h: seq<real>, c: seq<real>, i: int)
    requires |h| >= 1 && 0 <= i < |c|
    ensures Symmetric(h, Reverse(c))[i] == Reverse(Symmetric(h, c))[i]
  {
    assert Reverse(Symmetric(h, c))[i] == SymmetricAt(h, c, |c| - 1 - i);
    SymmetricAtOfReverse(h, c, i, |c| - 1 - i);
  }

  lemma SymmetricAtOfReverse(h: seq<real>, c: seq<real>, i: int, j: int)
    requires |h| >= 1 && |c| >= 1 && j == |c| - 1 - i
    ensures SymmetricAt(h, Reverse(c), i) == SymmetricAt(h, c, j)
  {
    assert Ext(Reverse(c), i) == Ext(c, j) by { ExtReverse(c, i); }
    SymTapsReverse(h, c, i, j, |h| - 1);
  }

  /** The symmetric filter commutes with reversing the signal: the mirror boundary treats both ends alike. */
  lemma SymmetricReverse(h: seq<real>, c: seq<real>)
    requires |h| >= 1
    ensures Symmetric(h, Reverse(c)) == Reverse(Symmetric(h, c))
  {
    forall i | 0 <= i < |c|
      ensures Symmetric(h, Reverse(c))[i] == Reverse(Symmetric(h, c))[i]
    {
      SymmetricAtReverse(h, c, i);
    }
  }

  lemma AntiAtReverse(h: seq<real>, c: seq<real>, i: int)
    requires |h| >= 1 && |c| >= 1
    ensures AntiAt(h, Reverse(c), i) == -AntiAt(h, c, |c| - 1 - i)
  {
    AntiTapsReverse(h, c, i, |h| - 1);
  }

  /** The antisymmetric filter anticommutes with reversing the signal. */
  lemma AntiReverse(h: seq<real>, c: seq<real>)
    requires |h| >= 1
    ensures forall i :: 0 <= i < |c| ==> Anti(h, Reverse(c))[i] == -Reverse(Anti(h, c))[i]
  {
    forall i | 0 <= i < |c|
      ensures Anti(h, Reverse(c))[i] == -Reverse(Anti(h, c))[i]
    {
      AntiAtReverse(h, c, i);
    }
  }
}
