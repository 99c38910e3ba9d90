/**
 * Row-major rasters and the separable 2-D passes built on the 1-D filters:
 * extractRow / putRow / extractColumn / putColumn, the line operations the
 * image preprocessing applies, and what a pass over every row or every
 * column of a raster computes.
 */
module Raster {
  import opened Arith
  import opened Mirror
  import opened Kernels
  import opened Interpolation
  import opened Interval

  // ---------------------------------------------------------------------------
  // Rows and columns of a raster of width w, as values.

  /** Row y of a raster of width w. */
  function RowOf(a: seq<real>, w: nat, y: nat): (r: seq<real>)
    requires w * y + w <= |a|
    ensures |r| == w
    ensures forall i :: 0 <= i < w ==> r[i] == a[w * y + i]
  {
    a[w * y .. w * y + w]
  }

  /** Column x, of height h, of a raster of width w. */
  function ColumnOf(a: seq<real>, w: nat, x: nat, h: nat): (r: seq<real>)
    requires x < w && w * h <= |a|
    ensures |r| == h
    ensures forall i :: 0 <= i < h ==> 0 <= Cell(x, i, w) < |a| && r[i] == a[Cell(x, i, w)]
  {
    var r := seq(h, i requires 0 <= i < h => CellInRaster(x, i, w, h); a[Cell(x, i, w)]);
    forall i | 0 <= i < h
      ensures 0 <= Cell(x, i, w) < |a| && r[i] == a[Cell(x, i, w)]
    {
      CellInRaster(x, i, w, h);
    }
    r
  }

  /** The raster with row y replaced by r: only the cells [w y, w y + w) change. */
  function WithRow(a: seq<real>, w: nat, y: nat, r: seq<real>): (b: seq<real>)
    requires |r| == w && w * y + w <= |a|
    ensures |b| == |a|
    ensures forall j :: 0 <= j < |a| && !(w * y <= j < w * y + w) ==> b[j] == a[j]
    ensures forall i :: 0 <= i < w ==> b[w * y + i] == r[i]
  {
    a[..w * y] + r + a[w * y + w..]
  }

  /**
   * The raster with the first |c| cells of column x replaced by c, written
   * one cell after another from the top.
   */
  function WithColumn(a: seq<real>, w: nat, x: nat, c: seq<real>): (b: seq<real>)
    requires x < w && w * |c| <= |a|
    ensures |b| == |a|
    decreases |c|
  {
    if |c| == 0 then a
    else
      var i := |c| - 1;
      CellInRaster(x, i, w, |c|);
      WithColumn(a, w, x, c[..i])[Cell(x, i, w) := c[i]]
  }

  /**
   * The cell (x', i) at x' + w i holds c[i] when it lies in the written part
   * of column x, and what it held before otherwise.
   */
  lemma {:induction false} WithColumnAt(a: seq<real>, w: nat, x: nat, c: seq<real>, x': nat, i: nat)
    requires x < w && w * |c| <= |a|
    requires x' < w && Cell(x', i, w) < |a|
    ensures WithColumn(a, w, x, c)[Cell(x', i, w)] == if x' == x && i < |c| then c[i] else a[Cell(x', i, w)]
    decreases |c|
  {
    if |c| > 0 {
      var n := |c| - 1;
      var j, k := Cell(x', i, w), Cell(x, n, w);
      CellInRaster(x, n, w, |c|);
      var prev := WithColumn(a, w, x, c[..n]);
      assert WithColumn(a, w, x, c) == prev[k := c[n]];
      if j == k {
        CellsDistinct(x', i, x, n, w);
      } else {
        WithColumnAt(a, w, x, c[..n], x', i);
        assert x' == x ==> i != n;
      }
    }
  }

  /** Reading back a row that was just written gives what was written. */
  lemma RowOfWithRow(a: seq<real>, w: nat, y: nat, r: seq<real>)
    requires |r| == w && w * y + w <= |a|
    ensures RowOf(WithRow(a, w, y, r), w, y) == r
  {
  }

  /** Writing a row leaves every other row as it was. */
  lemma RowOfWithOtherRow(a: seq<real>, w: nat, y: nat, r: seq<real>, y': nat)
    requires |r| == w && w * y + w <= |a| && w * y' + w <= |a| && y' != y
    ensures RowOf(WithRow(a, w, y, r), w, y') == RowOf(a, w, y')
  {
    RowStep(w, y, y');
    RowStep(w, y', y);
  }

  /** Writing back the row that was read changes nothing. */
  lemma WithRowOf(a: seq<real>, w: nat, y: nat)
    requires w * y + w <= |a|
    ensures WithRow(a, w, y, RowOf(a, w, y)) == a
  {
    var lo := w * y;
    assert a[..lo] + a[lo..lo + w] == a[..lo + w];
    assert a[..lo + w] + a[lo + w..] == a;
  }

  /** Reading back a column that was just written gives what was written. */
  lemma ColumnOfWithColumn(a: seq<real>, w: nat, x: nat, c: seq<real>)
    requires x < w && w * |c| <= |a|
    ensures ColumnOf(WithColumn(a, w, x, c), w, x, |c|) == c
  {
    forall i | 0 <= i < |c|
      ensures ColumnOf(WithColumn(a, w, x, c), w, x, |c|)[i] == c[i]
    {
      CellInRaster(x, i, w, |c|);
      WithColumnAt(a, w, x, c, x, i);
    }
  }

  /** Writing a column leaves every other column as it was. */
  lemma ColumnOfWithOtherColumn(a: seq<real>, w: nat, x: nat, c: seq<real>, x': nat, h: nat)
    requires x < w && x' < w && x' != x && w * |c| <= |a| && w * h <= |a|
    ensures ColumnOf(WithColumn(a, w, x, c), w, x', h) == ColumnOf(a, w, x', h)
  {
    forall i | 0 <= i < h
      ensures ColumnOf(WithColumn(a, w, x, c), w, x', h)[i] == ColumnOf(a, w, x', h)[i]
    {
      CellInRaster(x', i, w, h);
      WithColumnAt(a, w, x, c, x', i);
    }
  }

  // ---------------------------------------------------------------------------
  // The row and column helpers.

  /** extractRow: row y of the raster whose width is the length of `row`. */
  method ExtractRow(a: array<real>, y: int, row: array<real>)
    requires a != row && 0 <= y && row.Length * y + row.Length <= a.Length
    modifies row
    ensures row[..] == RowOf(a[..], row.Length, y)
  {
    var k := y * row.Length;
    for i := 0 to row.Length
      invariant k == row.Length * y + i
      invariant forall i' :: 0 <= i' < i ==> row[i'] == a[row.Length * y + i']
    {
      row[i] := a[k];
      k := k + 1;
    }
  }

  /** putRow: write `row` as row y of the raster whose width is its length. */
  method PutRow(a: array<real>, y: int, row: array<real>)
    requires a != row && 0 <= y && row.Length * y + row.Length <= a.Length
    modifies a
    ensures a[..] == WithRow(old(a[..]), row.Length, y, row[..])
  {
    ghost var a0 := a[..];
    var lo := y * row.Length;
    var k := lo;
    for i := 0 to row.Length
      invariant k == lo + i
      invariant a[..] == a0[..lo] + row[..i] + a0[k..]
    {
      assert row[..i + 1] == row[..i] + [row[i]];
      a[k] := row[i];
      k := k + 1;
    }
    assert row[..row.Length] == row[..];
  }

  /** extractColumn: column x of a raster of width `width`, as many cells as `column` holds. */
  method ExtractColumn(a: array<real>, width: int, x: int, column: array<real>)
    requires a != column && 0 <= x < width && width * column.Length <= a.Length
    modifies column
    ensures column[..] == ColumnOf(a[..], width, x, column.Length)
  {
    var k := x;
    for i := 0 to column.Length
      invariant k == Cell(x, i, width)
      invariant forall i' :: 0 <= i' < i ==> 0 <= Cell(x, i', width) < a.Length && column[i'] == a[Cell(x, i', width)]
    {
      CellInRaster(x, i, width, column.Length);
      column[i] := a[k];
      k := k + width;
    }
  }

  /** putColumn: write `column` down column x of a raster of width `width`. */
  method PutColumn(a: array<real>, width: int, x: int, column: array<real>)
    requires a != column && 0 <= x < width && width * column.Length <= a.Length
    modifies a
    ensures a[..] == WithColumn(old(a[..]), width, x, column[..])
  {
    ghost var a0 := a[..];
    var k := x;
    for i := 0 to column.Length
      invariant k == Cell(x, i, width)
      invariant a[..] == WithColumn(a0, width, x, column[..i])
    {
      CellInRaster(x, i, width, column.Length);
      assert column[..i + 1][..i] == column[..i];
      a[k] := column[i];
      k := k + width;
    }
    assert column[..column.Length] == column[..];
  }

  // ---------------------------------------------------------------------------
  // The line operations the 2-D passes apply to each row or column.

  /**
   * What one pass does to each extracted line: the cardinal-to-basic filter
   * symmetricFirMirrorOffBounds1D of a degree, samplesToInterpolationCoefficient1D
   * of a degree, coefficientToGradient1D, coefficientToSamples1D, reduceDual1D,
   * and interpolation followed by the gradient (imageToXYGradient2D).
   */
  datatype LineOp = Cardinal(degree: int) | Basic(degree: int) | Gradient | Samples | HalfDual | SampleGradient

  /** The degrees basicToCardinal2D has a kernel for (its other degrees fall to the identity kernel). */
  predicate ValidOp(op: LineOp)
  {
    op.Cardinal? ==> op.degree == 3 || op.degree == 7
  }

  /** The operations that rewrite their line in place rather than fill a second buffer. */
  predicate InPlace(op: LineOp)
  {
    !op.Cardinal? && !op.HalfDual?
  }

  /** Only the reduction changes the length of a line, to half of it. */
  function OutLength(op: LineOp, n: nat): nat
  {
    if op.HalfDual? then n / 2 else n
  }

  /** What an operation computes from one line. */
  function Apply(op: LineOp, c: seq<real>): (r: seq<real>)
    requires ValidOp(op) && (|c| >= 1 || op.HalfDual?)
    ensures |r| == OutLength(op, |c|)
  {
    match op
    case Cardinal(d) => Symmetric(Kernel(d), c)
    case Basic(d) => Interpolate(c, d)
    case Gradient => Anti(GRADIENT, c)
    case Samples => Symmetric(CUBIC, c)
    case HalfDual => Reduce(c)
    case SampleGradient => Anti(GRADIENT, Interpolate(c, 3))
  }

  /** What an operation makes of a constant line's value: the gradients send it to zero. */
  function ConstantOut(op: LineOp, a: real): real
  {
    if op.Gradient? || op.SampleGradient? then 0.0 else a
  }

  /** Every operation sends a constant line to a constant line. */
  lemma ApplyConstant(op: LineOp, a: real, n: nat)
    requires ValidOp(op) && (n >= 1 || op.HalfDual?)
    ensures Apply(op, Constant(a, n)) == Constant(ConstantOut(op, a), OutLength(op, n))
  {
    match op
    case Cardinal(d) => SplineKeepsConstant(d, a, n);
    case Basic(d) => InterpolateConstant(a, n, d);
    case Gradient => GradientOfConstant(a, n);
    case Samples => SplineKeepsConstant(3, a, n);
    case HalfDual => ReduceConstant(a, n);
    case SampleGradient =>
      InterpolateConstant(a, n, 3);
      GradientOfConstant(a, n);
  }

  /**
   * One line through an operation: from `line` into `data`, or in place
   * when the two are the same buffer.
   */
  method FilterLine(op: LineOp, line: array<real>, data: array<real>)
    requires ValidOp(op) && (line.Length >= 1 || op.HalfDual?)
    requires InPlace(op) <==> line == data
    requires data.Length == OutLength(op, line.Length)
    modifies line, data
    ensures data[..] == Apply(op, old(line[..]))
  {
    match op
    case Cardinal(d) =>
      SymmetricFirMirrorOffBounds1D(Kernel(d), line, data);
    case Basic(d) =>
      SamplesToInterpolationCoefficient1D(line, d);
    case Gradient =>
      CoefficientToGradient1D(line);
    case Samples =>
      CoefficientToSamples1D(line);
    case HalfDual =>
      ReduceDual1D(line, data);
    case SampleGradient =>
      SamplesToInterpolationCoefficient1D(line, 3);
      CoefficientToGradient1D(line);
  }

  // ---------------------------------------------------------------------------
  // What a pass over all rows, or over all columns, computes.

  /** Row y of a through the operation, entry by entry (the filter is unfolded only where an entry is read). */
  function RowResult(op: LineOp, a: seq<real>, w: nat, y: nat): (r: seq<real>)
    requires ValidOp(op) && (w >= 1 || op.HalfDual?) && w * y + w <= |a|
    ensures |r| == OutLength(op, w)
  {
    seq(OutLength(op, w), i requires 0 <= i < OutLength(op, w) => Apply(op, RowOf(a, w, y))[i])
  }

  /** The rows pass over the first n rows of a: the pass over n - 1 rows followed by row n - 1 through the operation. */
  function MapRows(op: LineOp, a: seq<real>, w: nat, n: nat): (r: seq<real>)
    requires ValidOp(op) && (w >= 1 || op.HalfDual?) && w * n <= |a|
    ensures |r| == OutLength(op, w) * n
    decreases n
  {
    if n == 0 then []
    else
      NextRow(w, n - 1, n);
      NextRow(OutLength(op, w), n - 1, n);
      MapRows(op, a, w, n - 1) + RowResult(op, a, w, n - 1)
  }

  /**
   * b0 with its first x columns replaced by the operation applied to the
   * same columns of a (of height h): what a columns pass has written after x steps.
   */
  function ColumnsDone(op: LineOp, a: seq<real>, w: nat, h: nat, x: nat, b0: seq<real>): (r: seq<real>)
    requires ValidOp(op) && (h >= 1 || op.HalfDual?) && x <= w
    requires |a| == w * h && |b0| == w * OutLength(op, h)
    ensures |r| == |b0|
  {
    if w == 0 then b0
    else
      seq(|b0|, j requires 0 <= j < |b0| =>
        if j % w < x && j / w < OutLength(op, h) then Apply(op, ColumnOf(a, w, j % w, h))[j / w] else b0[j])
  }

  /** The raster whose column x is the operation applied to column x of a. */
  function MapColumns(op: LineOp, a: seq<real>, w: nat, h: nat): (r: seq<real>)
    requires ValidOp(op) && (h >= 1 || op.HalfDual?) && |a| == w * h
    ensures |r| == w * OutLength(op, h)
  {
    ColumnsDone(op, a, w, h, w, Constant(0.0, w * OutLength(op, h)))
  }

  /** A row that lies inside P reads the same in P + Q. */
  lemma RowOfPrefix(p: seq<real>, q: seq<real>, w: nat, y: nat)
    requires w * y + w <= |p|
    ensures RowOf(p + q, w, y) == RowOf(p, w, y)
  {
  }

  /** The row that starts where P ends is the front of what follows P. */
  lemma RowOfAfter(p: seq<real>, r: seq<real>, w: nat, y: nat)
    requires |p| == w * y && w <= |r|
    ensures RowOf(p + r, w, y) == r[..w]
  {
  }

  /** Row y of the rows pass over n rows is the operation applied to row y. */
  lemma {:induction false} RowOfMapRows(op: LineOp, a: seq<real>, w: nat, n: nat, y: nat)
    requires ValidOp(op) && (w >= 1 || op.HalfDual?) && w * n <= |a| && y < n
    ensures OutLength(op, w) * y + OutLength(op, w) <= OutLength(op, w) * n
    ensures w * y + w <= |a|
    ensures RowOf(MapRows(op, a, w, n), OutLength(op, w), y) == Apply(op, RowOf(a, w, y))
  {
    var ow := OutLength(op, w);
    NextRow(w, n - 1, n);
    NextRow(ow, n - 1, n);
    var p := MapRows(op, a, w, n - 1);
    var r := Apply(op, RowOf(a, w, n - 1));
    assert MapRows(op, a, w, n) == p + r;
    if y == n - 1 {
      RowOfAfter(p, r, ow, y);
    } else {
      RowOfMapRows(op, a, w, n - 1, y);
      RowOfPrefix(p, r, ow, y);
      RowStep(w, y, n - 1);
    }
  }

  /**
   * Cell (x', i) after the first x columns were written: the operation's
   * output when x' < x and i is within the output height, b0's cell otherwise.
   */
  lemma ColumnsDoneAt(op: LineOp, a: seq<real>, w: nat, h: nat, x: nat, b0: seq<real>, x': nat, i: nat)
    requires ValidOp(op) && (h >= 1 || op.HalfDual?) && x <= w
    requires |a| == w * h && |b0| == w * OutLength(op, h)
    requires x' < w && Cell(x', i, w) < |b0|
    ensures ColumnsDone(op, a, w, h, x, b0)[Cell(x', i, w)]
      == if x' < x && i < OutLength(op, h) then Apply(op, ColumnOf(a, w, x', h))[i] else b0[Cell(x', i, w)]
  {
    IndexOfCell(x', i, w);
  }

  /** Writing column x into what x steps have written is what x + 1 steps write. */
  lemma ColumnsDoneStep(op: LineOp, a: seq<real>, w: nat, h: nat, x: nat, b0: seq<real>)
    requires ValidOp(op) && (h >= 1 || op.HalfDual?) && x < w
    requires |a| == w * h && |b0| == w * OutLength(op, h)
    ensures WithColumn(ColumnsDone(op, a, w, h, x, b0), w, x, Apply(op, ColumnOf(a, w, x, h)))
         == ColumnsDone(op, a, w, h, x + 1, b0)
  {
    var oh := OutLength(op, h);
    var c := Apply(op, ColumnOf(a, w, x, h));
    var prev := ColumnsDone(op, a, w, h, x, b0);
    forall j | 0 <= j < w * oh
      ensures WithColumn(prev, w, x, c)[j] == ColumnsDone(op, a, w, h, x + 1, b0)[j]
    {
      CellOfIndex(j, w, oh);
      var x', i := j % w, j / w;
      assert j == Cell(x', i, w);
      WithColumnAt(prev, w, x, c, x', i);
      ColumnsDoneAt(op, a, w, h, x, b0, x', i);
      ColumnsDoneAt(op, a, w, h, x + 1, b0, x', i);
    }
  }

  /** Column x of the columns pass is the operation applied to column x. */
  lemma ColumnOfMapColumns(op: LineOp, a: seq<real>, w: nat, h: nat, x: nat)
    requires ValidOp(op) && (h >= 1 || op.HalfDual?) && |a| == w * h && x < w
    ensures ColumnOf(MapColumns(op, a, w, h), w, x, OutLength(op, h)) == Apply(op, ColumnOf(a, w, x, h))
  {
    var oh := OutLength(op, h);
    var b0 := Constant(0.0, w * oh);
    forall i | 0 <= i < oh
      ensures ColumnOf(MapColumns(op, a, w, h), w, x, oh)[i] == Apply(op, ColumnOf(a, w, x, h))[i]
    {
      CellInRaster(x, i, w, oh);
      ColumnsDoneAt(op, a, w, h, w, b0, x, i);
    }
  }

  /** Once every column is written, what the raster held before does not matter. */
  lemma ColumnsDoneComplete(op: LineOp, a: seq<real>, w: nat, h: nat, b0: seq<real>)
    requires ValidOp(op) && (h >= 1 || op.HalfDual?)
    requires |a| == w * h && |b0| == w * OutLength(op, h)
    ensures ColumnsDone(op, a, w, h, w, b0) == MapColumns(op, a, w, h)
  {
    var oh := OutLength(op, h);
    var z := Constant(0.0, w * oh);
    forall j | 0 <= j < w * oh
      ensures ColumnsDone(op, a, w, h, w, b0)[j] == ColumnsDone(op, a, w, h, w, z)[j]
    {
      CellOfIndex(j, w, oh);
      var x', i := j % w, j / w;
      assert j == Cell(x', i, w);
      ColumnsDoneAt(op, a, w, h, w, b0, x', i);
      ColumnsDoneAt(op, a, w, h, w, z, x', i);
    }
  }

  /** Writing the first x columns leaves every later column as it was. */
  lemma ColumnsDoneOther(op: LineOp, a: seq<real>, w: nat, h: nat, x: nat, b0: seq<real>, x': nat, hh: nat)
    requires ValidOp(op) && (h >= 1 || op.HalfDual?) && x <= x' < w
    requires |a| == w * h && |b0| == w * OutLength(op, h) && w * hh <= |b0|
    ensures ColumnOf(ColumnsDone(op, a, w, h, x, b0), w, x', hh) == ColumnOf(b0, w, x', hh)
  {
    forall i | 0 <= i < hh
      ensures ColumnOf(ColumnsDone(op, a, w, h, x, b0), w, x', hh)[i] == ColumnOf(b0, w, x', hh)[i]
    {
      CellInRaster(x', i, w, hh);
      ColumnsDoneAt(op, a, w, h, x, b0, x', i);
    }
  }

  /** Writing the row that starts where P ends replaces the front of what follows P. */
  lemma WithRowAfter(p: seq<real>, q: seq<real>, w: nat, y: nat, r: seq<real>)
    requires |p| == w * y && |r| == w && w <= |q|
    ensures WithRow(p + q, w, y, r) == p + r + q[w..]
  {
    assert (p + q)[..w * y] == p;
    assert (p + q)[w * y + w..] == q[w..];
  }

  /** Every row of a constant raster is a constant line. */
  lemma RowOfConstant(a: seq<real>, k: real, w: nat, y: nat)
    requires w * y + w <= |a|
    requires forall j :: 0 <= j < |a| ==> a[j] == k
    ensures RowOf(a, w, y) == Constant(k, w)
  {
    var lo := w * y;
    assert 0 <= lo;
    forall i | 0 <= i < w
      ensures RowOf(a, w, y)[i] == k
    {
      assert a[lo + i] == k;
    }
  }

  /** A rows pass over a constant raster gives a constant raster. */
  lemma {:induction false} MapRowsConstant(op: LineOp, a: seq<real>, k: real, w: nat, n: nat)
    requires ValidOp(op) && (w >= 1 || op.HalfDual?) && w * n <= |a|
    requires forall j :: 0 <= j < |a| ==> a[j] == k
    ensures MapRows(op, a, w, n) == Constant(ConstantOut(op, k), OutLength(op, w) * n)
  {
    if n > 0 {
      NextRow(w, n - 1, n);
      MapRowsConstant(op, a, k, w, n - 1);
      RowOfConstant(a, k, w, n - 1);
      ApplyConstant(op, k, w);
      ConstantAppend(ConstantOut(op, k), OutLength(op, w), n - 1, n);
    }
  }

  lemma ConstantAppend(v: real, ow: nat, n: nat, m: nat)
    requires m == n + 1
    ensures Constant(v, ow * n) + Constant(v, ow) == Constant(v, ow * m)
  {
    assert ow * m == ow * n + ow;
  }

  /** A columns pass over a constant raster gives a constant raster. */
  lemma MapColumnsConstant(op: LineOp, a: seq<real>, k: real, w: nat, h: nat)
    requires ValidOp(op) && (h >= 1 || op.HalfDual?) && |a| == w * h
    requires forall j :: 0 <= j < |a| ==> a[j] == k
    ensures MapColumns(op, a, w, h) == Constant(ConstantOut(op, k), w * OutLength(op, h))
  {
    var oh := OutLength(op, h);
    var z := Constant(0.0, w * oh);
    ApplyConstant(op, k, h);
    forall j | 0 <= j < w * oh
      ensures MapColumns(op, a, w, h)[j] == ConstantOut(op, k)
    {
      CellOfIndex(j, w, oh);
      var x', i := j % w, j / w;
      assert j == Cell(x', i, w);
      ColumnsDoneAt(op, a, w, h, w, z, x', i);
      assert ColumnOf(a, w, x', h) == Constant(k, h);
    }
  }

  /** The first k cells taken from m, the rest from b. */
  function Spliced(m: seq<real>, k: nat, b: seq<real>): (r: seq<real>)
    requires |m| == |b|
    ensures |r| == |b|
    ensures forall j :: 0 <= j < |b| ==> r[j] == if j < k then m[j] else b[j]
  {
    seq(|b|, j requires 0 <= j < |b| => if j < k then m[j] else b[j])
  }

  /** Splicing in no cell leaves b; splicing in all of them gives m. */
  lemma SplicedEnds(m: seq<real>, k: nat, b: seq<real>)
    requires |m| == |b|
    ensures Spliced(m, 0, b) == b
    ensures k >= |b| ==> Spliced(m, k, b) == m
  {
  }

  /** Splicing in the next row of m, of width w, is writing that row. */
  lemma SplicedRow(m: seq<real>, w: nat, y: nat, b: seq<real>)
    requires |m| == |b| && w * y + w <= |b|
    ensures WithRow(Spliced(m, w * y, b), w, y, RowOf(m, w, y)) == Spliced(m, w * y + w, b)
  {
    var u := WithRow(Spliced(m, w * y, b), w, y, RowOf(m, w, y));
    forall j | 0 <= j < |b|
      ensures u[j] == Spliced(m, w * y + w, b)[j]
    {
      if w * y <= j < w * y + w {
        var i := j - w * y;
        assert j == w * y + i;
        assert u[w * y + i] == RowOf(m, w, y)[i];
      }
    }
  }

  /** The row that starts where the splice ends still reads as in b. */
  lemma SplicedRowAfter(m: seq<real>, w: nat, y: nat, b: seq<real>)
    requires |m| == |b| && w * y + w <= |b|
    ensures RowOf(Spliced(m, w * y, b), w, y) == RowOf(b, w, y)
  {
  }

  /**
   * b0 with its first y output rows replaced by the operation applied to the
   * same rows of a (of width w): what a rows pass has written after y steps.
   */
  function RowsDone(op: LineOp, a: seq<real>, w: nat, h: nat, y: nat, b0: seq<real>): (r: seq<real>)
    requires ValidOp(op) && (w >= 1 || op.HalfDual?) && y <= h
    requires |a| == w * h && |b0| == OutLength(op, w) * h
    ensures |r| == |b0|
  {
    Spliced(MapRows(op, a, w, h), OutLength(op, w) * y, b0)
  }

  /** Before the first step nothing is written; after the last, every row is. */
  lemma RowsDoneEnds(op: LineOp, a: seq<real>, w: nat, h: nat, b0: seq<real>)
    requires ValidOp(op) && (w >= 1 || op.HalfDual?)
    requires |a| == w * h && |b0| == OutLength(op, w) * h
    ensures RowsDone(op, a, w, h, 0, b0) == b0
    ensures RowsDone(op, a, w, h, h, b0) == MapRows(op, a, w, h)
  {
    SplicedEnds(MapRows(op, a, w, h), OutLength(op, w) * h, b0);
  }

  /** Where a rows pass that writes over its own input reads row y, the row is still the input's. */
  lemma RowsRead(op: LineOp, a0: seq<real>, w: nat, h: nat, y: nat)
    requires ValidOp(op) && w >= 1 && !op.HalfDual? && y < h && |a0| == w * h
    ensures w * y + w <= |a0|
    ensures RowOf(RowsDone(op, a0, w, h, y, a0), w, y) == RowOf(a0, w, y)
  {
    NextRow(w, y, h);
    SplicedRowAfter(MapRows(op, a0, w, h), w, y, a0);
  }

  /** Writing the output of row y into what y steps have written is what y + 1 steps write. */
  lemma RowsShift(op: LineOp, a0: seq<real>, b0: seq<real>, w: nat, h: nat, y: nat, r: seq<real>)
    requires ValidOp(op) && (w >= 1 || op.HalfDual?) && y < h
    requires |a0| == w * h && |b0| == OutLength(op, w) * h
    requires w * y + w <= |a0| && r == Apply(op, RowOf(a0, w, y))
    ensures OutLength(op, w) * y + OutLength(op, w) <= |b0|
    ensures WithRow(RowsDone(op, a0, w, h, y, b0), OutLength(op, w), y, r) == RowsDone(op, a0, w, h, y + 1, b0)
  {
    var ow := OutLength(op, w);
    NextRow(ow, y, h);
    RowOfMapRows(op, a0, w, h, y);
    SplicedRow(MapRows(op, a0, w, h), ow, y, b0);
  }

  // ---------------------------------------------------------------------------
  // The passes.

  /** One step of a rows pass: row y of a through the operation into row y of b. */
  method PassRow(op: LineOp, a: array<real>, b: array<real>, w: nat, h: nat, y: nat,
                 line: array<real>, data: array<real>, ghost a0: seq<real>, ghost b0: seq<real>)
    requires ValidOp(op) && (w >= 1 || op.HalfDual?) && y < h
    requires a.Length == w * h && b.Length == OutLength(op, w) * h && |a0| == a.Length && |b0| == b.Length
    requires a == b ==> !op.HalfDual? && a0 == b0
    requires line.Length == w && data.Length == OutLength(op, w) && (InPlace(op) <==> line == data)
    requires line != a && line != b && data != a && data != b
    requires a != b ==> a[..] == a0
    requires b[..] == RowsDone(op, a0, w, h, y, b0)
    modifies b, line, data
    ensures a != b ==> a[..] == a0
    ensures b[..] == RowsDone(op, a0, w, h, y + 1, b0)
  {
    var ow := OutLength(op, w);
    NextRow(w, y, h);
    NextRow(ow, y, h);
    ExtractRow(a, y, line);
    if a == b {
      RowsRead(op, a0, w, h, y);
    }
    ghost var row := line[..];
    assert row == RowOf(a0, w, y);
    FilterLine(op, line, data);
    assert data[..] == Apply(op, row);
    PutRow(b, y, data);
    RowsShift(op, a0, b0, w, h, y, data[..]);
  }

  /** One step of a columns pass: column x of a through the operation into column x of b. */
  method PassColumn(op: LineOp, a: array<real>, b: array<real>, w: nat, h: nat, x: nat,
                    line: array<real>, data: array<real>, ghost a0: seq<real>, ghost b0: seq<real>)
    requires ValidOp(op) && (h >= 1 || op.HalfDual?) && x < w
    requires a.Length == w * h && b.Length == w * OutLength(op, h) && |a0| == a.Length && |b0| == b.Length
    requires a == b ==> !op.HalfDual? && a0 == b0
    requires line.Length == h && data.Length == OutLength(op, h) && (InPlace(op) <==> line == data)
    requires line != a && line != b && data != a && data != b
    requires a != b ==> a[..] == a0
    requires b[..] == ColumnsDone(op, a0, w, h, x, b0)
    modifies b, line, data
    ensures a != b ==> a[..] == a0
    ensures b[..] == ColumnsDone(op, a0, w, h, x + 1, b0)
  {
    ExtractColumn(a, w, x, line);
    if a == b {
      ColumnsDoneOther(op, a0, w, h, x, b0, x, h);
    }
    ghost var column := line[..];
    assert column == ColumnOf(a0, w, x, h);
    FilterLine(op, line, data);
    assert data[..] == Apply(op, column);
    PutColumn(b, w, x, data);
    ColumnsDoneStep(op, a0, w, h, x, b0);
  }

  /**
   * One pass over the h rows of a (width w) into b, polling for cancellation
   * before each row: extractRow, the line operation, putRow. a and b may be
   * the same raster when the operation keeps the line length, since each row
   * is copied out before it is written back.
   */
  method RowsPass(op: LineOp, a: array<real>, b: array<real>, w: nat, h: nat, ctx: ExecutionContext?)
    requires ValidOp(op) && (w >= 1 || op.HalfDual?)
    requires a.Length == w * h && b.Length == OutLength(op, w) * h
    requires a == b ==> !op.HalfDual?
    modifies b, ctx
    ensures old(Canceled(ctx)) ==> Canceled(ctx)
    ensures !Canceled(ctx) ==> b[..] == MapRows(op, old(a[..]), w, h)
    ensures exists y :: 0 <= y <= h && b[..] == RowsDone(op, old(a[..]), w, h, y, old(b[..]))
  {
    ghost var a0, b0 := a[..], b[..];
    var ow := OutLength(op, w);
    var line := new real[w];
    var data: array<real>;
    if InPlace(op) {
      data := line;
    } else {
      data := new real[ow];
    }
    RowsDoneEnds(op, a0, w, h, b0);
    var y := 0;
    while y < h
      invariant 0 <= y <= h
      invariant old(Canceled(ctx)) ==> Canceled(ctx)
      invariant a != b ==> a[..] == a0
      invariant a == b ==> a0 == b0
      invariant b[..] == RowsDone(op, a0, w, h, y, b0)
    {
      var canceled := IsCanceled(ctx);
      if canceled {
        break;
      }
      PassRow(op, a, b, w, h, y, line, data, a0, b0);
      y := y + 1;
    }
    assert b[..] == RowsDone(op, a0, w, h, y, b0);
  }

  /**
   * One pass over the w columns of a (height h) into b of the same width,
   * polling for cancellation before each column: extractColumn, the line
   * operation, putColumn. a and b may be the same raster when the operation
   * keeps the line length.
   */
  method ColumnsPass(op: LineOp, a: array<real>, b: array<real>, w: nat, h: nat, ctx: ExecutionContext?)
    requires ValidOp(op) && (h >= 1 || op.HalfDual?)
    requires a.Length == w * h && b.Length == w * OutLength(op, h)
    requires a == b ==> !op.HalfDual?
    modifies b, ctx
    ensures old(Canceled(ctx)) ==> Canceled(ctx)
    ensures !Canceled(ctx) ==> b[..] == MapColumns(op, old(a[..]), w, h)
    ensures exists x :: 0 <= x <= w && b[..] == ColumnsDone(op, old(a[..]), w, h, x, old(b[..]))
  {
    ghost var a0, b0 := a[..], b[..];
    var oh := OutLength(op, h);
    var line := new real[h];
    var data: array<real>;
    if InPlace(op) {
      data := line;
    } else {
      data := new real[oh];
    }
    var x := 0;
    while x < w
      invariant 0 <= x <= w
      invariant old(Canceled(ctx)) ==> Canceled(ctx)
      invariant a != b ==> a[..] == a0
      invariant a == b ==> a0 == b0
      invariant b[..] == ColumnsDone(op, a0, w, h, x, b0)
    {
      var canceled := IsCanceled(ctx);
      if canceled {
        break;
      }
      PassColumn(op, a, b, w, h, x, line, data, a0, b0);
      x := x + 1;
    }
    assert b[..] == ColumnsDone(op, a0, w, h, x, b0);
    ColumnsDoneComplete(op, a0, w, h, b0);
  }
}
