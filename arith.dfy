/**
 * Integer and real arithmetic shared by the model: Java's truncating halving of
 * an `int`, repeated halving (the size of a pyramid level), integer powers of a
 * real (Math.pow with an integer exponent, computed exactly), geometric sums,
 * and the index facts about row-major rasters.
 */
module Arith {

  /** Java's `n / 2` on an `int`: the quotient is truncated toward zero. */
  function JavaHalf(n: int): (r: int)
    ensures n >= 0 ==> 0 <= r && 2 * r <= n < 2 * r + 2
    ensures n < 0 ==> r <= 0 && 2 * r - 2 < n <= 2 * r
  {
    if n >= 0 then n / 2 else -((-n) / 2)
  }

  /** `n` after `d` executions of `n /= 2`. */
  function HalvedTimes(n: int, d: nat): int
  {
    if d == 0 then n else JavaHalf(HalvedTimes(n, d - 1))
  }

  /** Halving a non-negative size never makes it larger, and keeps it non-negative. */
  lemma {:induction false} HalvedTimesNonIncreasing(n: int, d: nat, e: nat)
    requires n >= 0
    requires d <= e
    ensures 0 <= HalvedTimes(n, e) <= HalvedTimes(n, d) <= n
  {
    if e > d {
      HalvedTimesNonIncreasing(n, d, e - 1);
    } else if d > 0 {
      HalvedTimesNonIncreasing(n, d - 1, d - 1);
    }
  }

  /** Halving is monotone in the size being halved. */
  lemma {:induction false} HalvedTimesMonotone(m: int, n: int, d: nat)
    requires 0 <= m <= n
    ensures HalvedTimes(m, d) <= HalvedTimes(n, d)
  {
    if d > 0 {
      HalvedTimesMonotone(m, n, d - 1);
      HalvedTimesNonIncreasing(m, 0, d - 1);
    }
  }

  /** `z` to the power `k`. */
  function Pow(z: real, k: nat): real
  {
    if k == 0 then 1.0 else z * Pow(z, k - 1)
  }

  lemma {:induction false} PowAdd(z: real, a: nat, b: nat)
    ensures Pow(z, a + b) == Pow(z, a) * Pow(z, b)
  {
    if a > 0 {
      PowAdd(z, a - 1, b);
    }
  }

  /** A power of a number strictly inside (-1, 1) with a positive exponent stays strictly inside. */
  lemma {:induction false} PowBelowOne(z: real, k: nat)
    requires -1.0 < z < 1.0
    ensures -1.0 < Pow(z, k) <= 1.0
    ensures k > 0 ==> -1.0 < Pow(z, k) < 1.0
  {
    if k > 0 {
      PowBelowOne(z, k - 1);
      var p := Pow(z, k - 1);
      assert Pow(z, k) == z * p;
      if z >= 0.0 {
        assert z * p <= z * 1.0;
        assert z * p >= z * -1.0;
      } else {
        assert z * p >= z * 1.0;
        assert z * p <= z * -1.0;
      }
    }
  }

  /** 1 + z + ... + z^(k-1). */
  function Geo(z: real, k: nat): real
  {
    if k == 0 then 0.0 else Geo(z, k - 1) + Pow(z, k - 1)
  }

  /** The closed form of the geometric sum, written without division. */
  lemma {:induction false} GeoClosedForm(z: real, k: nat)
    ensures Geo(z, k) * (1.0 - z) == 1.0 - Pow(z, k)
  {
    if k > 0 {
      GeoClosedForm(z, k - 1);
      assert Pow(z, k) == z * Pow(z, k - 1);
    }
  }

  /** The geometric sum peeled at its low end: 1 + z * (1 + ... + z^(k-1)). */
  lemma {:induction false} GeoFront(z: real, k: nat)
    ensures Geo(z, k + 1) == 1.0 + z * Geo(z, k)
  {
    if k > 0 {
      GeoFront(z, k - 1);
      assert Pow(z, k) == z * Pow(z, k - 1);
    }
  }

  /** Geometric sums over adjacent ranges add up. */
  lemma {:induction false} GeoSplit(z: real, a: nat, b: nat)
    ensures Geo(z, a + b) == Geo(z, a) + Pow(z, a) * Geo(z, b)
  {
    if b > 0 {
      GeoSplit(z, a, b - 1);
      PowAdd(z, a, b - 1);
    }
  }

  /** The index of cell (x, y) of a row-major raster of width `w`. */
  function Cell(x: int, y: int, w: int): int
  {
    x + w * y
  }

  /** In a raster of width `w`, cell (x, y) lies at `x + w * y`, inside a `w * h` raster. */
  lemma CellInRaster(x: int, y: int, w: int, h: int)
    requires 0 <= x < w && 0 <= y < h
    ensures 0 <= x + w * y < w * h
    ensures w * y + w <= w * h
  {
    assert w * y + w == w * (y + 1);
    assert w * (y + 1) <= w * h by {
      MulMonotone(w, y + 1, h);
    }
  }

  lemma MulMonotone(w: int, a: int, b: int)
    requires w >= 0 && a <= b
    ensures w * a <= w * b
  {
    assert w * b - w * a == w * (b - a);
  }

  /** Distinct cells of a raster have distinct row-major indices. */
  lemma CellsDistinct(x: int, y: int, x': int, y': int, w: int)
    requires 0 <= x < w && 0 <= x' < w && 0 <= y && 0 <= y'
    requires x + w * y == x' + w * y'
    ensures x == x' && y == y'
  {
    RowStep(w, y, y');
    RowStep(w, y', y);
  }

  /** A later row starts at least one full width further on. */
  lemma RowStep(w: int, a: int, b: int)
    requires w >= 0
    ensures a < b ==> w * a + w <= w * b
  {
    if a < b {
      MulMonotone(w, a + 1, b);
      assert w * (a + 1) == w * a + w;
    }
  }

  /** Every index of a `w * h` raster is the cell (j % w, j / w). */
  lemma CellOfIndex(j: int, w: int, h: int)
    requires w > 0 && 0 <= j < w * h
    ensures 0 <= j % w < w && 0 <= j / w < h
    ensures j == j % w + w * (j / w)
  {
    if j / w >= h {
      MulMonotone(w, h, j / w);
    }
  }

  /** The cell decomposition of `x + w * y` is (x, y). */
  lemma IndexOfCell(x: int, y: int, w: int)
    requires 0 <= x < w && 0 <= y
    ensures (x + w * y) % w == x && (x + w * y) / w == y
  {
    var j := x + w * y;
    CellOfIndex(j, w, y + 1) by {
      CellInRaster(x, y, w, y + 1);
    }
    CellsDistinct(x, y, j % w, j / w, w);
  }

  /** Row y of h rows of width w ends no later than the raster, where row y + 1 starts. */
  lemma NextRow(w: nat, y: nat, h: nat)
    requires y < h
    ensures 0 <= w * y && w * y + w <= w * h && w * (y + 1) == w * y + w
  {
    MulMonotone(w, y + 1, h);
  }

  /** Where row i of a raster of width w starts, as a cursor that advances w per row reaches it. */
  function RowStart(w: nat, i: nat): nat
  {
    if i == 0 then 0 else RowStart(w, i - 1) + w
  }

  /** The cursor stands at w * i. */
  lemma {:induction false} RowStartIsProduct(w: nat, i: nat)
    ensures RowStart(w, i) == w * i
  {
    if i > 0 {
      RowStartIsProduct(w, i - 1);
      assert w * (i - 1) + w == w * i;
    }
  }

  /** A later row starts at least one full width further on. */
  lemma {:induction false} RowStartStep(w: nat, a: nat, b: nat)
    requires a < b
    ensures RowStart(w, a) + w <= RowStart(w, b)
  {
    if a + 1 < b {
      RowStartStep(w, a, b - 1);
    }
  }

  /** Row r of a raster of h rows of width w starts at RowStart(w, r) and ends inside it. */
  lemma {:induction false} RowStartInRaster(w: nat, r: nat, h: nat)
    requires r < h
    ensures RowStart(w, r) == w * r && RowStart(w, r) + w <= w * h
  {
    RowStartIsProduct(w, r);
    NextRow(w, r, h);
  }

  /** Java's `(int)` and `(long)` casts of a double: the fraction is dropped, toward zero. */
  function JavaTruncate(v: real): (r: int)
    ensures v >= 0.0 ==> 0 <= r && r as real <= v < r as real + 1.0
    ensures v < 0.0 ==> r <= 0 && r as real - 1.0 < v <= r as real
  {
    if v >= 0.0 then v.Floor else -((-v).Floor)
  }
}
