/**
 * The image preprocessing of TurboRegImage: the separable 2-D filters
 * (B-spline coefficients from samples and back, the dual-to-dual reduction,
 * the gradients), the three pyramids built from them, and the dispatch of
 * `run` on the transformation and on the role of the image.
 */
module Image {
  import opened Arith
  import opened Mirror
  import opened Kernels
  import opened Interval
  import opened Raster
  import opened Transformation

  // ---------------------------------------------------------------------------
  // The 2-D filters, as values.

  /** A rows pass followed by a columns pass of the same line operation. */
  function Separable(op: LineOp, a: seq<real>, w: nat, h: nat): (r: seq<real>)
    requires ValidOp(op) && ((w >= 1 && h >= 1) || op.HalfDual?) && |a| == w * h
    ensures |r| == OutLength(op, w) * OutLength(op, h)
  {
    MapColumns(op, MapRows(op, a, w, h), OutLength(op, w), h)
  }

  /** A separable filter sends a constant raster to a constant raster. */
  lemma SeparableConstant(op: LineOp, a: seq<real>, k: real, w: nat, h: nat)
    requires ValidOp(op) && ((w >= 1 && h >= 1) || op.HalfDual?) && |a| == w * h
    requires forall j :: 0 <= j < |a| ==> a[j] == k
    ensures Separable(op, a, w, h) == Constant(ConstantOut(op, ConstantOut(op, k)), OutLength(op, w) * OutLength(op, h))
  {
    var ow := OutLength(op, w);
    MapRowsConstant(op, a, k, w, h);
    MapColumnsConstant(op, MapRows(op, a, w, h), ConstantOut(op, k), ow, h);
  }

  /** The horizontal gradient of coefficientToXYGradient2D: the gradient along rows, then samples along columns. */
  function XGradientOf(c: seq<real>, w: nat, h: nat): (r: seq<real>)
    requires w >= 1 && h >= 1 && |c| == w * h
    ensures |r| == w * h
  {
    MapColumns(Samples, MapRows(Gradient, c, w, h), w, h)
  }

  /** The vertical gradient of coefficientToXYGradient2D: samples along rows, then the gradient along columns. */
  function YGradientOf(c: seq<real>, w: nat, h: nat): (r: seq<real>)
    requires w >= 1 && h >= 1 && |c| == w * h
    ensures |r| == w * h
  {
    MapColumns(Gradient, MapRows(Samples, c, w, h), w, h)
  }

  /** Both gradients of a constant raster vanish. */
  lemma GradientsOfConstant(c: seq<real>, k: real, w: nat, h: nat)
    requires w >= 1 && h >= 1 && |c| == w * h
    requires forall j :: 0 <= j < |c| ==> c[j] == k
    ensures XGradientOf(c, w, h) == Constant(0.0, w * h)
    ensures YGradientOf(c, w, h) == Constant(0.0, w * h)
  {
    MapRowsConstant(Gradient, c, k, w, h);
    MapColumnsConstant(Samples, MapRows(Gradient, c, w, h), 0.0, w, h);
    MapRowsConstant(Samples, c, k, w, h);
    MapColumnsConstant(Gradient, MapRows(Samples, c, w, h), k, w, h);
  }

  // ---------------------------------------------------------------------------
  // The 2-D filters, on arrays.

  /**
   * basicToCardinal2D: the symmetric filter of the degree over the rows of
   * `basic` into `cardinal`, then over the columns of `cardinal` in place.
   * The two may be the same raster.
   */
  method BasicToCardinal2D(basic: array<real>, cardinal: array<real>, w: nat, h: nat, degree: int, ctx: ExecutionContext?)
    requires degree == 3 || degree == 7
    requires w >= 1 && h >= 1 && basic.Length == w * h && cardinal.Length == w * h
    modifies cardinal, ctx
    ensures old(Canceled(ctx)) ==> Canceled(ctx)
    ensures !Canceled(ctx) ==> cardinal[..] == Separable(Cardinal(degree), old(basic[..]), w, h)
  {
    RowsPass(Cardinal(degree), basic, cardinal, w, h, ctx);
    ColumnsPass(Cardinal(degree), cardinal, cardinal, w, h, ctx);
  }

  /**
   * getBasicFromCardinal2D(cardinal, width, height, degree): a new raster of
   * the B-spline coefficients of the degree, along rows and then columns.
   */
  method GetBasicFromCardinal2D(cardinal: array<real>, w: nat, h: nat, degree: int, ctx: ExecutionContext?)
    returns (basic: array<real>)
    requires w >= 1 && h >= 1 && cardinal.Length == w * h
    modifies ctx
    ensures fresh(basic) && basic.Length == w * h
    ensures old(Canceled(ctx)) ==> Canceled(ctx)
    ensures !Canceled(ctx) ==> basic[..] == Separable(Basic(degree), cardinal[..], w, h)
  {
    basic := new real[w * h](_ => 0.0);
    RowsPass(Basic(degree), cardinal, basic, w, h, ctx);
    ColumnsPass(Basic(degree), basic, basic, w, h, ctx);
  }

  /**
   * getHalfDual2D: reduceDual1D over the rows of the full raster into a raster
   * half as wide, then over its columns into one half as high.
   */
  method GetHalfDual2D(fullDual: array<real>, fullWidth: nat, fullHeight: nat, ctx: ExecutionContext?)
    returns (halfDual: array<real>)
    requires fullDual.Length == fullWidth * fullHeight
    modifies ctx
    ensures fresh(halfDual) && halfDual.Length == (fullWidth / 2) * (fullHeight / 2)
    ensures old(Canceled(ctx)) ==> Canceled(ctx)
    ensures !Canceled(ctx) ==> halfDual[..] == Separable(HalfDual, fullDual[..], fullWidth, fullHeight)
  {
    var halfWidth, halfHeight := fullWidth / 2, fullHeight / 2;
    var demiDual := new real[halfWidth * fullHeight](_ => 0.0);
    halfDual := new real[halfWidth * halfHeight](_ => 0.0);
    RowsPass(HalfDual, fullDual, demiDual, fullWidth, fullHeight, ctx);
    ColumnsPass(HalfDual, demiDual, halfDual, halfWidth, fullHeight, ctx);
  }

  /** cardinalToDual2D: coefficients of the degree, then the filter of degree 2 degree + 1. */
  method CardinalToDual2D(cardinal: array<real>, dual: array<real>, w: nat, h: nat, degree: int, ctx: ExecutionContext?)
    requires degree == 1 || degree == 3
    requires w >= 1 && h >= 1 && cardinal.Length == w * h && dual.Length == w * h
    modifies dual, ctx
    ensures old(Canceled(ctx)) ==> Canceled(ctx)
    ensures !Canceled(ctx) ==>
      dual[..] == Separable(Cardinal(2 * degree + 1), Separable(Basic(degree), old(cardinal[..]), w, h), w, h)
  {
    var basic := GetBasicFromCardinal2D(cardinal, w, h, degree, ctx);
    BasicToCardinal2D(basic, dual, w, h, 2 * degree + 1, ctx);
  }

  /** dualToCardinal2D: coefficients of degree 2 degree + 1, then the filter of the degree. */
  method DualToCardinal2D(dual: array<real>, cardinal: array<real>, w: nat, h: nat, degree: int, ctx: ExecutionContext?)
    requires degree == 3 || degree == 7
    requires w >= 1 && h >= 1 && dual.Length == w * h && cardinal.Length == w * h
    modifies cardinal, ctx
    ensures old(Canceled(ctx)) ==> Canceled(ctx)
    ensures !Canceled(ctx) ==>
      cardinal[..] == Separable(Cardinal(degree), Separable(Basic(2 * degree + 1), old(dual[..]), w, h), w, h)
  {
    var basic := GetBasicFromCardinal2D(dual, w, h, 2 * degree + 1, ctx);
    BasicToCardinal2D(basic, cardinal, w, h, degree, ctx);
  }

  /** System.arraycopy of a whole line. */
  method CopyLine(src: array<real>, dst: array<real>)
    requires src.Length == dst.Length && src != dst
    modifies dst
    ensures dst[..] == src[..]
  {
    forall i | 0 <= i < src.Length {
      dst[i] := src[i];
    }
  }

  /**
   * One row of coefficientToXYGradient2D: the row of `basic`, copied into a
   * second buffer, goes once through ox into `xGradient` and once through oy
   * into `yGradient` (coefficientToGradient1D and coefficientToSamples1D).
   */
  method GradientRow(ox: LineOp, oy: LineOp, basic: array<real>, xGradient: array<real>, yGradient: array<real>,
                     w: nat, h: nat, y: nat,
                     hLine: array<real>, hData: array<real>, ghost b0: seq<real>, ghost x0: seq<real>, ghost y0: seq<real>)
    requires ValidOp(ox) && ValidOp(oy) && InPlace(ox) && InPlace(oy)
    requires w >= 1 && y < h
    requires basic.Length == w * h && xGradient.Length == w * h && yGradient.Length == w * h
    requires basic != xGradient && basic != yGradient && xGradient != yGradient
    requires hLine.Length == w && hData.Length == w && hLine != hData
    requires hLine != basic && hLine != xGradient && hLine != yGradient
    requires hData != basic && hData != xGradient && hData != yGradient
    requires basic[..] == b0 && |x0| == w * h && |y0| == w * h
    requires xGradient[..] == RowsDone(ox, b0, w, h, y, x0)
    requires yGradient[..] == RowsDone(oy, b0, w, h, y, y0)
    modifies xGradient, yGradient, hLine, hData
    ensures xGradient[..] == RowsDone(ox, b0, w, h, y + 1, x0)
    ensures yGradient[..] == RowsDone(oy, b0, w, h, y + 1, y0)
  {
    NextRow(w, y, h);
    ExtractRow(basic, y, hLine);
    CopyLine(hLine, hData);
    FilterLine(ox, hLine, hLine);
    FilterLine(oy, hData, hData);
    PutRow(xGradient, y, hLine);
    PutRow(yGradient, y, hData);
    RowsShift(ox, b0, x0, w, h, y, hLine[..]);
    RowsShift(oy, b0, y0, w, h, y, hData[..]);
  }

  /** The row loop of coefficientToXYGradient2D, with ox and oy as the two in-place line operations. */
  method GradientRows(ox: LineOp, oy: LineOp, basic: array<real>, xGradient: array<real>, yGradient: array<real>,
                      w: nat, h: nat, ctx: ExecutionContext?)
    requires ValidOp(ox) && ValidOp(oy) && InPlace(ox) && InPlace(oy)
    requires w >= 1 && h >= 1
    requires basic.Length == w * h && xGradient.Length == w * h && yGradient.Length == w * h
    requires basic != xGradient && basic != yGradient && xGradient != yGradient
    modifies xGradient, yGradient, ctx
    ensures old(Canceled(ctx)) ==> Canceled(ctx)
    ensures !Canceled(ctx) ==> xGradient[..] == MapRows(ox, old(basic[..]), w, h)
    ensures !Canceled(ctx) ==> yGradient[..] == MapRows(oy, old(basic[..]), w, h)
  {
    ghost var b0, x0, y0 := basic[..], xGradient[..], yGradient[..];
    var hLine := new real[w];
    var hData := new real[w];
    RowsDoneEnds(ox, b0, w, h, x0);
    RowsDoneEnds(oy, b0, w, h, y0);
    var y := 0;
    while y < h
      invariant 0 <= y <= h
      invariant old(Canceled(ctx)) ==> Canceled(ctx)
      invariant xGradient[..] == RowsDone(ox, b0, w, h, y, x0)
      invariant yGradient[..] == RowsDone(oy, b0, w, h, y, y0)
    {
      var canceled := IsCanceled(ctx);
      if canceled {
        break;
      }
      GradientRow(ox, oy, basic, xGradient, yGradient, w, h, y, hLine, hData, b0, x0, y0);
      y := y + 1;
    }
  }

  /** The column loop of coefficientToXYGradient2D: both rasters in place, one shared column buffer. */
  method GradientColumns(xGradient: array<real>, yGradient: array<real>, w: nat, h: nat, ctx: ExecutionContext?)
    requires w >= 1 && h >= 1
    requires xGradient.Length == w * h && yGradient.Length == w * h && xGradient != yGradient
    modifies xGradient, yGradient, ctx
    ensures old(Canceled(ctx)) ==> Canceled(ctx)
    ensures !Canceled(ctx) ==> xGradient[..] == MapColumns(Samples, old(xGradient[..]), w, h)
    ensures !Canceled(ctx) ==> yGradient[..] == MapColumns(Gradient, old(yGradient[..]), w, h)
  {
    ghost var xm, ym := xGradient[..], yGradient[..];
    var vLine := new real[h];
    var x := 0;
    while x < w
      invariant 0 <= x <= w
      invariant old(Canceled(ctx)) ==> Canceled(ctx)
      invariant xGradient[..] == ColumnsDone(Samples, xm, w, h, x, xm)
      invariant yGradient[..] == ColumnsDone(Gradient, ym, w, h, x, ym)
    {
      var canceled := IsCanceled(ctx);
      if canceled {
        break;
      }
      PassColumn(Samples, xGradient, xGradient, w, h, x, vLine, vLine, xm, xm);
      PassColumn(Gradient, yGradient, yGradient, w, h, x, vLine, vLine, ym, ym);
      x := x + 1;
    }
    ColumnsDoneComplete(Samples, xm, w, h, xm);
    ColumnsDoneComplete(Gradient, ym, w, h, ym);
  }

  /**
   * coefficientToXYGradient2D: from the B-spline coefficients of a raster,
   * its horizontal gradient (gradient along rows, samples along columns)
   * and its vertical gradient (samples along rows, gradient along columns).
   */
  method CoefficientToXYGradient2D(basic: array<real>, xGradient: array<real>, yGradient: array<real>,
                                   w: nat, h: nat, ctx: ExecutionContext?)
    requires w >= 1 && h >= 1
    requires basic.Length == w * h && xGradient.Length == w * h && yGradient.Length == w * h
    requires basic != xGradient && basic != yGradient && xGradient != yGradient
    modifies xGradient, yGradient, ctx
    ensures old(Canceled(ctx)) ==> Canceled(ctx)
    ensures !Canceled(ctx) ==> xGradient[..] == XGradientOf(basic[..], w, h) && yGradient[..] == YGradientOf(basic[..], w, h)
  {
    GradientRows(Gradient, Samples, basic, xGradient, yGradient, w, h, ctx);
    GradientColumns(xGradient, yGradient, w, h, ctx);
  }

  /**
   * imageToXYGradient2D: the gradient of the cubic interpolant along the rows
   * of the image (horizontal) and along its columns (vertical), each into a
   * new raster.
   */
  method ImageToXYGradient2D(image: array<real>, w: nat, h: nat, ctx: ExecutionContext?)
    returns (xGradient: array<real>, yGradient: array<real>)
    requires w >= 1 && h >= 1 && image.Length == w * h
    modifies ctx
    ensures fresh(xGradient) && fresh(yGradient) && xGradient.Length == w * h && yGradient.Length == w * h
    ensures old(Canceled(ctx)) ==> Canceled(ctx)
    ensures !Canceled(ctx) ==> xGradient[..] == MapRows(SampleGradient, image[..], w, h)
    ensures !Canceled(ctx) ==> yGradient[..] == MapColumns(SampleGradient, image[..], w, h)
  {
    xGradient := new real[w * h](_ => 0.0);
    yGradient := new real[w * h](_ => 0.0);
    RowsPass(SampleGradient, image, xGradient, w, h, ctx);
    ColumnsPass(SampleGradient, image, yGradient, w, h, ctx);
  }

  // ---------------------------------------------------------------------------
  // The pyramids, as values.

  /** An entry of the pyramid stack: a raster (float[]) or a dimension (Integer). */
  datatype PyramidItem = Data(values: seq<real>) | Dimension(n: int)

  /** The three pyramids an image can build. */
  datatype PyramidKind = CoefficientPyramid | ImagePyramid | ImageAndGradientPyramid

  /** The number of stack entries one level pushes. */
  function Stride(kind: PyramidKind): nat
  {
    if kind == ImageAndGradientPyramid then 5 else 3
  }

  /** The full-size dual raster the levels are reduced from. */
  function FullDual(kind: PyramidKind, coefficient: seq<real>, image: seq<real>, w: nat, h: nat): (r: seq<real>)
    requires w >= 1 && h >= 1 && |coefficient| == w * h && |image| == w * h
    ensures |r| == w * h
  {
    if kind == CoefficientPyramid then Separable(Cardinal(7), coefficient, w, h)
    else Separable(Cardinal(7), Separable(Basic(3), image, w, h), w, h)
  }

  /** The dual raster of level d: the full dual reduced d times. */
  function DualLevel(full: seq<real>, w: nat, h: nat, d: nat): (r: seq<real>)
    requires |full| == w * h
    ensures HalvedTimes(w, d) >= 0 && HalvedTimes(h, d) >= 0
    ensures |r| == HalvedTimes(w, d) * HalvedTimes(h, d)
  {
    HalvedTimesNonIncreasing(w, 0, d);
    HalvedTimesNonIncreasing(h, 0, d);
    if d == 0 then full
    else Separable(HalfDual, DualLevel(full, w, h, d - 1), HalvedTimes(w, d - 1), HalvedTimes(h, d - 1))
  }

  /** What one level pushes, given its dual raster of hw by hh pixels, bottom first. */
  function LevelItems(kind: PyramidKind, halfDual: seq<real>, hw: nat, hh: nat): (r: seq<PyramidItem>)
    requires hw >= 1 && hh >= 1 && |halfDual| == hw * hh
  {
    var c := Separable(Basic(7), halfDual, hw, hh);
    match kind
    case CoefficientPyramid => [Data(c), Dimension(hh), Dimension(hw)]
    case ImagePyramid => [Data(Separable(Cardinal(3), c, hw, hh)), Dimension(hh), Dimension(hw)]
    case ImageAndGradientPyramid =>
      [Data(YGradientOf(c, hw, hh)), Data(XGradientOf(c, hw, hh)), Data(Separable(Cardinal(3), c, hw, hh)),
       Dimension(hh), Dimension(hw)]
  }

  /** The first n levels pushed from the full dual raster, finest first. */
  function Levels(kind: PyramidKind, full: seq<real>, w: nat, h: nat, n: nat): (r: seq<PyramidItem>)
    requires |full| == w * h && HalvedTimes(w, n) >= 1 && HalvedTimes(h, n) >= 1
    ensures Stacked(kind, r, w, h, n)
  {
    if n == 0 then []
    else
      HalvedTimesNonIncreasing(w, n - 1, n);
      HalvedTimesNonIncreasing(h, n - 1, n);
      var p := Levels(kind, full, w, h, n - 1);
      var items := LevelItems(kind, DualLevel(full, w, h, n), HalvedTimes(w, n), HalvedTimes(h, n));
      LevelItemsShaped(kind, DualLevel(full, w, h, n), HalvedTimes(w, n), HalvedTimes(h, n));
      StackedPush(kind, p, items, w, h, n);
      p + items
  }

  /** What a stack entry is, without its values: a raster of some length, or a size. */
  datatype Slot = Raster(length: int) | Size(n: int)

  function SlotOf(item: PyramidItem): Slot
  {
    match item
    case Data(values) => Raster(|values|)
    case Dimension(n) => Size(n)
  }

  /** The entries of a stack with their values forgotten. */
  function Layout(items: seq<PyramidItem>): (r: seq<Slot>)
    ensures |r| == |items| && forall i :: 0 <= i < |items| ==> r[i] == SlotOf(items[i])
  {
    seq(|items|, i requires 0 <= i < |items| => SlotOf(items[i]))
  }

  /**
   * The layout of one level on the stack: its rasters, of hw by hh pixels,
   * then its height, then its width on top.
   */
  function LevelLayout(kind: PyramidKind, hw: int, hh: int): (r: seq<Slot>)
    ensures |r| == Stride(kind) && r[|r| - 1] == Size(hw) && r[|r| - 2] == Size(hh)
    ensures forall i :: 0 <= i < |r| - 2 ==> r[i] == Raster(hw * hh)
  {
    var a := Raster(hw * hh);
    if kind == ImageAndGradientPyramid then [a, a, a, Size(hh), Size(hw)] else [a, Size(hh), Size(hw)]
  }

  /** The layout of n levels of a w by h image: level d (from 1) has the size halved d times. */
  function LevelsLayout(kind: PyramidKind, w: int, h: int, n: nat): (r: seq<Slot>)
    ensures |r| == Stride(kind) * n
  {
    if n == 0 then [] else LevelsLayout(kind, w, h, n - 1) + LevelLayout(kind, HalvedTimes(w, n), HalvedTimes(h, n))
  }

  /** One level of hw by hh pixels, as pushed. */
  predicate LevelShaped(kind: PyramidKind, items: seq<PyramidItem>, hw: int, hh: int)
  {
    Layout(items) == LevelLayout(kind, hw, hh)
  }

  /** A stack of n levels of a w by h image. */
  predicate Stacked(kind: PyramidKind, items: seq<PyramidItem>, w: int, h: int, n: nat)
  {
    Layout(items) == LevelsLayout(kind, w, h, n)
  }

  /** The entries of a stack above its first `base` are levels 1..n of a w by h image, for some n up to count. */
  ghost predicate StackedAbove(kind: PyramidKind, stack: seq<PyramidItem>, base: int, w: int, h: int, count: nat)
  {
    0 <= base <= |stack| && exists n :: 0 <= n <= count && Stacked(kind, stack[base..], w, h, n)
  }

  /** A level's rasters are hw by hh pixels; its height is below its width on top. */
  lemma LevelShapedEntries(kind: PyramidKind, items: seq<PyramidItem>, hw: int, hh: int)
    requires LevelShaped(kind, items, hw, hh)
    ensures |items| == Stride(kind)
    ensures items[|items| - 1] == Dimension(hw) && items[|items| - 2] == Dimension(hh)
    ensures forall i :: 0 <= i < |items| - 2 ==> items[i].Data? && |items[i].values| == hw * hh
  {
    var r := Layout(items);
    assert r[|r| - 1] == SlotOf(items[|items| - 1]);
    assert r[|r| - 2] == SlotOf(items[|items| - 2]);
    forall i | 0 <= i < |items| - 2
      ensures items[i].Data? && |items[i].values| == hw * hh
    {
      assert r[i] == SlotOf(items[i]);
    }
  }

  /** The layout of a concatenation, and of a slice. */
  lemma LayoutAppend(p: seq<PyramidItem>, q: seq<PyramidItem>)
    ensures Layout(p + q) == Layout(p) + Layout(q)
  {
    assert forall i :: 0 <= i < |p + q| ==> Layout(p + q)[i] == (Layout(p) + Layout(q))[i];
  }

  lemma LayoutSlice(items: seq<PyramidItem>, a: nat, b: nat)
    requires a <= b <= |items|
    ensures Layout(items[a..b]) == Layout(items)[a..b]
  {
    assert forall i :: 0 <= i < b - a ==> Layout(items[a..b])[i] == Layout(items)[a..b][i];
  }

  /** Every level has the shape of its kind. */
  lemma LevelItemsShaped(kind: PyramidKind, halfDual: seq<real>, hw: nat, hh: nat)
    requires hw >= 1 && hh >= 1 && |halfDual| == hw * hh
    ensures LevelShaped(kind, LevelItems(kind, halfDual, hw, hh), hw, hh)
  {
    var c := Separable(Basic(7), halfDual, hw, hh);
    assert |c| == hw * hh;
    assert |Separable(Cardinal(3), c, hw, hh)| == hw * hh;
  }

  /** Pushing level n onto a stack of n - 1 levels gives a stack of n. */
  lemma StackedPush(kind: PyramidKind, p: seq<PyramidItem>, items: seq<PyramidItem>, w: int, h: int, n: nat)
    requires n >= 1 && Stacked(kind, p, w, h, n - 1)
    requires LevelShaped(kind, items, HalvedTimes(w, n), HalvedTimes(h, n))
    ensures Stacked(kind, p + items, w, h, n)
  {
    LayoutAppend(p, items);
  }

  /** Level d (from 1) of the layout of n levels is the layout of a level halved d times. */
  lemma {:induction false} LevelsLayoutLevel(kind: PyramidKind, w: int, h: int, n: nat, d: nat)
    requires 1 <= d <= n
    ensures Stride(kind) * d <= Stride(kind) * n
    ensures LevelsLayout(kind, w, h, n)[Stride(kind) * (d - 1)..Stride(kind) * d]
         == LevelLayout(kind, HalvedTimes(w, d), HalvedTimes(h, d))
  {
    var s := Stride(kind);
    NextRow(s, d - 1, n);
    NextRow(s, n - 1, n);
    var p := LevelsLayout(kind, w, h, n - 1);
    var top := LevelLayout(kind, HalvedTimes(w, n), HalvedTimes(h, n));
    var r := LevelsLayout(kind, w, h, n);
    assert r == p + top;
    var lo, hi := s * (d - 1), s * d;
    if d < n {
      NextRow(s, d - 1, n - 1);
      LevelsLayoutLevel(kind, w, h, n - 1, d);
      SliceOfFront(p, top, lo, hi);
    } else {
      SliceOfBack(p, top);
    }
  }

  /** A slice of p + q that lies within p is that slice of p. */
  lemma SliceOfFront(p: seq<Slot>, q: seq<Slot>, lo: nat, hi: nat)
    requires lo <= hi <= |p|
    ensures (p + q)[lo..hi] == p[lo..hi]
  {
  }

  /** The slice of p + q past p is q. */
  lemma SliceOfBack(p: seq<Slot>, q: seq<Slot>)
    ensures (p + q)[|p|..|p| + |q|] == q
  {
  }

  /**
   * A stack of n levels holds Stride entries per level, and when it is not
   * empty the width of the coarsest level is on top with its height below it.
   */
  lemma StackedLength(kind: PyramidKind, items: seq<PyramidItem>, w: int, h: int, n: nat)
    requires Stacked(kind, items, w, h, n)
    ensures |items| == Stride(kind) * n
    ensures n >= 1 ==> items[|items| - 1] == Dimension(HalvedTimes(w, n)) && items[|items| - 2] == Dimension(HalvedTimes(h, n))
  {
    if n >= 1 {
      var r := Layout(items);
      var top := LevelLayout(kind, HalvedTimes(w, n), HalvedTimes(h, n));
      assert r == LevelsLayout(kind, w, h, n - 1) + top;
      assert r[|r| - 1] == top[|top| - 1] && r[|r| - 2] == top[|top| - 2];
      assert r[|r| - 1] == SlotOf(items[|items| - 1]);
      assert r[|r| - 2] == SlotOf(items[|items| - 2]);
    }
  }

  /** Each level of a stack: its rasters are of the size of that level. */
  lemma StackedLevel(kind: PyramidKind, items: seq<PyramidItem>, w: int, h: int, n: nat, d: nat)
    requires Stacked(kind, items, w, h, n) && 1 <= d <= n
    ensures |items| == Stride(kind) * n && Stride(kind) * d <= |items|
    ensures LevelShaped(kind, items[Stride(kind) * (d - 1)..Stride(kind) * d], HalvedTimes(w, d), HalvedTimes(h, d))
  {
    LevelsLayoutLevel(kind, w, h, n, d);
    LayoutSlice(items, Stride(kind) * (d - 1), Stride(kind) * d);
  }

  /** What one level of a constant image holds: the constant, and vanishing gradients. */
  function ConstantLevel(kind: PyramidKind, k: real, hw: nat, hh: nat): (r: seq<PyramidItem>)
    ensures LevelShaped(kind, r, hw, hh)
  {
    var a := hw * hh;
    if kind == ImageAndGradientPyramid then
      [Data(Constant(0.0, a)), Data(Constant(0.0, a)), Data(Constant(k, a)), Dimension(hh), Dimension(hw)]
    else [Data(Constant(k, a)), Dimension(hh), Dimension(hw)]
  }

  /** The first n levels of a constant image. */
  function ConstantLevels(kind: PyramidKind, k: real, w: nat, h: nat, n: nat): (r: seq<PyramidItem>)
    ensures Stacked(kind, r, w, h, n)
  {
    if n == 0 then []
    else
      HalvedTimesNonIncreasing(w, 0, n);
      HalvedTimesNonIncreasing(h, 0, n);
      var p := ConstantLevels(kind, k, w, h, n - 1);
      var items := ConstantLevel(kind, k, HalvedTimes(w, n), HalvedTimes(h, n));
      StackedPush(kind, p, items, w, h, n);
      p + items
  }

  /** Reducing a constant dual raster keeps the constant at every level. */
  lemma {:induction false} DualLevelConstant(full: seq<real>, k: real, w: nat, h: nat, d: nat)
    requires |full| == w * h && forall j :: 0 <= j < |full| ==> full[j] == k
    ensures forall j :: 0 <= j < |DualLevel(full, w, h, d)| ==> DualLevel(full, w, h, d)[j] == k
  {
    if d > 0 {
      DualLevelConstant(full, k, w, h, d - 1);
      DualLevelStep(full, k, w, h, d - 1, d);
    }
  }

  lemma DualLevelStep(full: seq<real>, k: real, w: nat, h: nat, e: nat, d: nat)
    requires d == e + 1 && |full| == w * h
    requires forall j :: 0 <= j < |DualLevel(full, w, h, e)| ==> DualLevel(full, w, h, e)[j] == k
    ensures forall j :: 0 <= j < |DualLevel(full, w, h, d)| ==> DualLevel(full, w, h, d)[j] == k
  {
    SeparableConstant(HalfDual, DualLevel(full, w, h, e), k, HalvedTimes(w, e), HalvedTimes(h, e));
  }

  /** The level built from a constant dual raster is the constant level. */
  lemma LevelItemsConstant(kind: PyramidKind, k: real, halfDual: seq<real>, hw: nat, hh: nat)
    requires hw >= 1 && hh >= 1 && |halfDual| == hw * hh
    requires forall j :: 0 <= j < |halfDual| ==> halfDual[j] == k
    ensures LevelItems(kind, halfDual, hw, hh) == ConstantLevel(kind, k, hw, hh)
  {
    var c := Separable(Basic(7), halfDual, hw, hh);
    SeparableConstant(Basic(7), halfDual, k, hw, hh);
    SeparableConstant(Cardinal(3), c, k, hw, hh);
    GradientsOfConstant(c, k, hw, hh);
  }

  /** The pyramid of a constant full dual raster holds that constant at every level, with vanishing gradients. */
  lemma {:induction false} PyramidOfConstant(kind: PyramidKind, full: seq<real>, k: real, w: nat, h: nat, n: nat)
    requires |full| == w * h && forall j :: 0 <= j < |full| ==> full[j] == k
    requires HalvedTimes(w, n) >= 1 && HalvedTimes(h, n) >= 1
    ensures Levels(kind, full, w, h, n) == ConstantLevels(kind, k, w, h, n)
  {
    if n > 0 {
      HalvedTimesNonIncreasing(w, n - 1, n);
      HalvedTimesNonIncreasing(h, n - 1, n);
      DualLevelConstant(full, k, w, h, n);
      LevelItemsConstant(kind, k, DualLevel(full, w, h, n), HalvedTimes(w, n), HalvedTimes(h, n));
      PyramidOfConstant(kind, full, k, w, h, n - 1);
    }
  }

  /** A constant image has a constant full dual raster, whichever pyramid is built. */
  lemma FullDualConstant(kind: PyramidKind, k: real, w: nat, h: nat)
    requires w >= 1 && h >= 1
    ensures Separable(Basic(3), Constant(k, w * h), w, h) == Constant(k, w * h)
    ensures FullDual(kind, Constant(k, w * h), Constant(k, w * h), w, h) == Constant(k, w * h)
  {
    SeparableConstant(Basic(3), Constant(k, w * h), k, w, h);
    SeparableConstant(Cardinal(7), Constant(k, w * h), k, w, h);
  }

  // ---------------------------------------------------------------------------
  // The pyramids, on arrays.

  /** One level of the coefficient pyramid: the coefficients of degree 7 of the dual raster. */
  method CoefficientLevel(halfDual: array<real>, w: nat, h: nat, ctx: ExecutionContext?)
    returns (items: seq<PyramidItem>)
    requires w >= 1 && h >= 1 && halfDual.Length == w * h
    modifies ctx
    ensures old(Canceled(ctx)) ==> Canceled(ctx)
    ensures LevelShaped(CoefficientPyramid, items, w, h)
    ensures !Canceled(ctx) ==> items == LevelItems(CoefficientPyramid, halfDual[..], w, h)
  {
    var halfCoefficient := GetBasicFromCardinal2D(halfDual, w, h, 7, ctx);
    items := [Data(halfCoefficient[..]), Dimension(h), Dimension(w)];
  }

  /** One level of the image pyramid: the cubic samples of the dual raster. */
  method ImageLevel(halfDual: array<real>, w: nat, h: nat, ctx: ExecutionContext?)
    returns (items: seq<PyramidItem>)
    requires w >= 1 && h >= 1 && halfDual.Length == w * h
    modifies ctx
    ensures old(Canceled(ctx)) ==> Canceled(ctx)
    ensures LevelShaped(ImagePyramid, items, w, h)
    ensures !Canceled(ctx) ==> items == LevelItems(ImagePyramid, halfDual[..], w, h)
  {
    var halfImage := new real[w * h](_ => 0.0);
    DualToCardinal2D(halfDual, halfImage, w, h, 3, ctx);
    items := [Data(halfImage[..]), Dimension(h), Dimension(w)];
  }

  /**
   * One level of the image-and-gradient pyramid: the vertical gradient, the
   * horizontal gradient and the samples, from the coefficients of degree 7.
   */
  method GradientLevel(halfDual: array<real>, w: nat, h: nat, ctx: ExecutionContext?)
    returns (items: seq<PyramidItem>)
    requires w >= 1 && h >= 1 && halfDual.Length == w * h
    modifies ctx
    ensures old(Canceled(ctx)) ==> Canceled(ctx)
    ensures LevelShaped(ImageAndGradientPyramid, items, w, h)
    ensures !Canceled(ctx) ==> items == LevelItems(ImageAndGradientPyramid, halfDual[..], w, h)
  {
    var halfImage := GetBasicFromCardinal2D(halfDual, w, h, 7, ctx);
    var halfXGradient := new real[w * h](_ => 0.0);
    var halfYGradient := new real[w * h](_ => 0.0);
    CoefficientToXYGradient2D(halfImage, halfXGradient, halfYGradient, w, h, ctx);
    BasicToCardinal2D(halfImage, halfImage, w, h, 3, ctx);
    items := [Data(halfYGradient[..]), Data(halfXGradient[..]), Data(halfImage[..]), Dimension(h), Dimension(w)];
  }

  /** What one level pushes, computed from its dual raster of w by h pixels. */
  method LevelPush(kind: PyramidKind, halfDual: array<real>, w: nat, h: nat, ctx: ExecutionContext?)
    returns (items: seq<PyramidItem>)
    requires w >= 1 && h >= 1 && halfDual.Length == w * h
    modifies ctx
    ensures old(Canceled(ctx)) ==> Canceled(ctx)
    ensures LevelShaped(kind, items, w, h)
    ensures !Canceled(ctx) ==> items == LevelItems(kind, halfDual[..], w, h)
  {
    match kind
    case CoefficientPyramid =>
      items := CoefficientLevel(halfDual, w, h, ctx);
    case ImagePyramid =>
      items := ImageLevel(halfDual, w, h, ctx);
    case ImageAndGradientPyramid =>
      items := GradientLevel(halfDual, w, h, ctx);
  }

  /**
   * One iteration of the level loop of the builders: level d + 1, reduced
   * from the dual raster of level d, and what it pushes.
   */
  method NextLevel(kind: PyramidKind, dual: array<real>, w: nat, h: nat, d: nat, ghost full: seq<real>, ctx: ExecutionContext?)
    returns (halfDual: array<real>, items: seq<PyramidItem>)
    requires |full| == w * h && HalvedTimes(w, d + 1) >= 1 && HalvedTimes(h, d + 1) >= 1
    requires HalvedTimes(w, d) >= 0 && HalvedTimes(h, d) >= 0
    requires dual.Length == HalvedTimes(w, d) * HalvedTimes(h, d)
    modifies ctx
    ensures fresh(halfDual) && halfDual.Length == HalvedTimes(w, d + 1) * HalvedTimes(h, d + 1)
    ensures old(Canceled(ctx)) ==> Canceled(ctx)
    ensures LevelShaped(kind, items, HalvedTimes(w, d + 1), HalvedTimes(h, d + 1))
    ensures !Canceled(ctx) && dual[..] == DualLevel(full, w, h, d) ==>
      halfDual[..] == DualLevel(full, w, h, d + 1) && Levels(kind, full, w, h, d + 1) == Levels(kind, full, w, h, d) + items
  {
    HalvedTimesNonIncreasing(w, d, d + 1);
    HalvedTimesNonIncreasing(h, d, d + 1);
    var fullWidth, fullHeight := HalvedTimes(w, d), HalvedTimes(h, d);
    halfDual := GetHalfDual2D(dual, fullWidth, fullHeight, ctx);
    items := LevelPush(kind, halfDual, fullWidth / 2, fullHeight / 2, ctx);
  }

  /**
   * One pass of the level loop: levels 1..d are pushed and `dual` is the
   * dual raster of level d; afterwards level d + 1 is pushed as well.
   */
  method LevelStep(kind: PyramidKind, dual: array<real>, w: nat, h: nat, d: nat, ghost count: nat,
                   ghost full: seq<real>, pushed: seq<PyramidItem>, ctx: ExecutionContext?)
    returns (halfDual: array<real>, next: seq<PyramidItem>, d': nat)
    requires |full| == w * h && d < count
    requires HalvedTimes(w, count) >= 1 && HalvedTimes(h, count) >= 1
    requires HalvedTimes(w, d) >= 1 && HalvedTimes(h, d) >= 1
    requires dual.Length == HalvedTimes(w, d) * HalvedTimes(h, d)
    requires Stacked(kind, pushed, w, h, d)
    modifies ctx
    ensures d' == d + 1
    ensures HalvedTimes(w, d') >= 1 && HalvedTimes(h, d') >= 1
    ensures halfDual.Length == HalvedTimes(w, d') * HalvedTimes(h, d')
    ensures Stacked(kind, next, w, h, d')
    ensures old(Canceled(ctx)) ==> Canceled(ctx)
    ensures !Canceled(ctx) && dual[..] == DualLevel(full, w, h, d) && pushed == Levels(kind, full, w, h, d) ==>
      halfDual[..] == DualLevel(full, w, h, d') && next == Levels(kind, full, w, h, d')
  {
    d' := d + 1;
    HalvedTimesNonIncreasing(w, d', count);
    HalvedTimesNonIncreasing(h, d', count);
    var items;
    halfDual, items := NextLevel(kind, dual, w, h, d, full, ctx);
    StackedPush(kind, pushed, items, w, h, d');
    next := pushed + items;
  }

  /**
   * The level loop of the three builders: from the full dual raster, while
   * the depth is not reached and the work is not canceled, halve the size,
   * reduce the dual raster and push the level. Returns what is pushed.
   */
  method BuildLevels(kind: PyramidKind, fullDual: array<real>, w: nat, h: nat, pyramidDepth: int, ctx: ExecutionContext?)
    returns (pushed: seq<PyramidItem>)
    requires fullDual.Length == w * h
    requires HalvedTimes(w, LevelCount(pyramidDepth)) >= 1 && HalvedTimes(h, LevelCount(pyramidDepth)) >= 1
    modifies ctx
    ensures old(Canceled(ctx)) ==> Canceled(ctx)
    ensures exists n :: 0 <= n <= LevelCount(pyramidDepth) && Stacked(kind, pushed, w, h, n)
    ensures !Canceled(ctx) ==> pushed == Levels(kind, fullDual[..], w, h, LevelCount(pyramidDepth))
  {
    ghost var full, count := fullDual[..], LevelCount(pyramidDepth);
    HalvedTimesNonIncreasing(w, 0, count);
    HalvedTimesNonIncreasing(h, 0, count);
    pushed := [];
    var dual := fullDual;
    var depth := 1;
    var d: nat := 0;
    while depth < pyramidDepth
      invariant d == depth - 1 && d <= count
      invariant HalvedTimes(w, d) >= 1 && HalvedTimes(h, d) >= 1
      invariant dual.Length == HalvedTimes(w, d) * HalvedTimes(h, d)
      invariant old(Canceled(ctx)) ==> Canceled(ctx)
      invariant Stacked(kind, pushed, w, h, d)
      invariant !Canceled(ctx) ==> dual[..] == DualLevel(full, w, h, d) && pushed == Levels(kind, full, w, h, d)
    {
      var canceled := IsCanceled(ctx);
      if canceled {
        break;
      }
      dual, pushed, d := LevelStep(kind, dual, w, h, d, count, full, pushed, ctx);
      depth := depth + 1;
    }
    assert !Canceled(ctx) ==> d == count;
  }

  /**
   * What a builder pushes for a pyramid of the given depth: nothing below
   * depth 2, otherwise the levels reduced from the full dual raster.
   */
  function Pyramid(kind: PyramidKind, coefficient: seq<real>, image: seq<real>, w: nat, h: nat, depth: int): (r: seq<PyramidItem>)
    requires w >= 1 && h >= 1 && |coefficient| == w * h && |image| == w * h
    requires HalvedTimes(w, LevelCount(depth)) >= 1 && HalvedTimes(h, LevelCount(depth)) >= 1
    ensures Stacked(kind, r, w, h, LevelCount(depth))
    ensures depth <= 1 ==> r == []
  {
    Levels(kind, FullDual(kind, coefficient, image, w, h), w, h, LevelCount(depth))
  }

  /** A fresh array holding s: the float[] a field of the image passes to the raster methods. */
  method ArrayOf(s: seq<real>) returns (a: array<real>)
    ensures fresh(a) && a[..] == s
  {
    a := new real[|s|](i requires 0 <= i < |s| => s[i]);
  }

  /**
   * The start of the three builders: a zero raster of the image's size, which
   * below depth 2 stays so and otherwise becomes the full dual raster: the
   * cardinal spline of degree 7 of the coefficients for the coefficient
   * pyramid, the cubic dual of the image for the two others.
   */
  method FullDualRaster(kind: PyramidKind, coefficient: seq<real>, image: seq<real>, w: nat, h: nat, depth: int, ctx: ExecutionContext?)
    returns (fullDual: array<real>)
    requires w >= 1 && h >= 1 && |coefficient| == w * h && |image| == w * h
    modifies ctx
    ensures fresh(fullDual) && fullDual.Length == w * h
    ensures old(Canceled(ctx)) ==> Canceled(ctx)
    ensures depth <= 1 ==> fullDual[..] == Constant(0.0, w * h)
    ensures 1 < depth && !Canceled(ctx) ==> fullDual[..] == FullDual(kind, coefficient, image, w, h)
  {
    fullDual := new real[w * h](_ => 0.0);
    if 1 < depth {
      if kind == CoefficientPyramid {
        var c := ArrayOf(coefficient);
        BasicToCardinal2D(c, fullDual, w, h, 7, ctx);
      } else {
        var c := ArrayOf(image);
        CardinalToDual2D(c, fullDual, w, h, 3, ctx);
      }
    }
  }

  /** The levels pushed from a full dual raster that matters only from depth 2 on are the pyramid. */
  lemma PyramidOfFullDual(kind: PyramidKind, coefficient: seq<real>, image: seq<real>, full: seq<real>, w: nat, h: nat, depth: int)
    requires w >= 1 && h >= 1 && |coefficient| == w * h && |image| == w * h && |full| == w * h
    requires HalvedTimes(w, LevelCount(depth)) >= 1 && HalvedTimes(h, LevelCount(depth)) >= 1
    requires 1 < depth ==> full == FullDual(kind, coefficient, image, w, h)
    ensures Levels(kind, full, w, h, LevelCount(depth)) == Pyramid(kind, coefficient, image, w, h, depth)
  {
  }

  /**
   * A builder of the given kind: the full dual raster, then the level loop.
   * Returns what it pushes.
   */
  method BuildPyramid(kind: PyramidKind, coefficient: seq<real>, image: seq<real>, w: nat, h: nat, depth: int, ctx: ExecutionContext?)
    returns (pushed: seq<PyramidItem>)
    requires w >= 1 && h >= 1 && |coefficient| == w * h && |image| == w * h
    requires HalvedTimes(w, LevelCount(depth)) >= 1 && HalvedTimes(h, LevelCount(depth)) >= 1
    modifies ctx
    ensures old(Canceled(ctx)) ==> Canceled(ctx)
    ensures exists n :: 0 <= n <= LevelCount(depth) && Stacked(kind, pushed, w, h, n)
    ensures !Canceled(ctx) ==> pushed == Pyramid(kind, coefficient, image, w, h, depth)
  {
    var fullDual := FullDualRaster(kind, coefficient, image, w, h, depth, ctx);
    if !Canceled(ctx) {
      PyramidOfFullDual(kind, coefficient, image, fullDual[..], w, h, depth);
    }
    pushed := BuildLevels(kind, fullDual, w, h, depth, ctx);
  }

  /** Which pyramid `run` builds, by transformation and by the role of the image. */
  function RunKind(transformation: TransformationType, isTarget: bool): PyramidKind
  {
    match transformation
    case Bilinear => if isTarget then ImagePyramid else CoefficientPyramid
    case _ => if isTarget then CoefficientPyramid else ImageAndGradientPyramid
  }

  /**
   * TurboRegImage: an image of `width` by `height` samples in row-major order,
   * with its B-spline coefficients, its gradients and its pyramid, the stack
   * of levels pushed finest first.
   */
  class TurboRegImage {
    var image: seq<real>
    var coefficient: seq<real>
    var xGradient: seq<real>
    var yGradient: seq<real>
    var pyramid: seq<PyramidItem>
    var width: int
    var height: int
    var xOffset: int
    var yOffset: int
    var pyramidDepth: int
    var isTarget: bool
    var transformation: TransformationType
    var ctx: ExecutionContext?

    /** The state `run` needs: a non-empty image of the stated size, and a depth whose coarsest level is not empty. */
    predicate Ready()
      reads this
    {
      width >= 1 && height >= 1 && |image| == width * height
      && HalvedTimes(width, LevelCount(pyramidDepth)) >= 1 && HalvedTimes(height, LevelCount(pyramidDepth)) >= 1
    }

    /** A new image: no data, an empty pyramid, no execution context; the transformation is not set yet. */
    constructor ()
      ensures image == [] && coefficient == [] && xGradient == [] && yGradient == [] && pyramid == []
      ensures width == 0 && height == 0 && xOffset == 0 && yOffset == 0 && pyramidDepth == 0
      ensures !isTarget && ctx == null
    {
      image, coefficient, xGradient, yGradient, pyramid := [], [], [], [], [];
      width, height, xOffset, yOffset, pyramidDepth := 0, 0, 0, 0, 0;
      isTarget, ctx := false, null;
    }

    /** setTransformation. */
    method SetTransformation(transformation: TransformationType)
      modifies this`transformation
      ensures this.transformation == transformation
    {
      this.transformation := transformation;
    }

    /** setPyramidDepth. */
    method SetPyramidDepth(pyramidDepth: int)
      modifies this`pyramidDepth
      ensures this.pyramidDepth == pyramidDepth
    {
      this.pyramidDepth := pyramidDepth;
    }

    /** setExecutionContext. */
    method SetExecutionContext(ctx: ExecutionContext?)
      modifies this`ctx
      ensures this.ctx == ctx
    {
      this.ctx := ctx;
    }

    /** setData(buffer, width, height, xOffset, yOffset, isTarget): the buffer becomes the image. */
    method SetData(buffer: seq<real>, width: int, height: int, xOffset: int, yOffset: int, isTarget: bool)
      modifies this`image, this`width, this`height, this`xOffset, this`yOffset, this`isTarget
      ensures image == buffer && this.width == width && this.height == height
      ensures this.xOffset == xOffset && this.yOffset == yOffset && this.isTarget == isTarget
    {
      this.isTarget := isTarget;
      this.width := width;
      this.height := height;
      this.xOffset := xOffset;
      this.yOffset := yOffset;
      image := buffer;
    }

    /**
     * The builder of the given kind, which pushes onto the pyramid. The three
     * builders of the source differ only in how they start the full dual raster.
     */
    method PushPyramid(kind: PyramidKind)
      requires Ready() && |coefficient| == width * height
      modifies this`pyramid, ctx
      ensures old(Canceled(ctx)) ==> Canceled(ctx)
      ensures old(pyramid) <= pyramid
      ensures StackedAbove(kind, pyramid, |old(pyramid)|, width, height, LevelCount(pyramidDepth))
      ensures !Canceled(ctx) ==>
        pyramid == old(pyramid) + Pyramid(kind, coefficient, image, width, height, pyramidDepth)
    {
      ghost var target := Pyramid(kind, coefficient, image, width, height, pyramidDepth);
      var pushed := BuildPyramid(kind, coefficient, image, width, height, pyramidDepth, ctx);
      ghost var p0 := pyramid;
      pyramid := pyramid + pushed;
      assert pyramid[|p0|..] == pushed;
      assert target == Pyramid(kind, coefficient, image, width, height, pyramidDepth);
    }

    /** buildCoefficientPyramid: the full dual raster is the coefficients' cardinal spline of degree 7. */
    method BuildCoefficientPyramid()
      requires Ready() && |coefficient| == width * height
      modifies this`pyramid, ctx
      ensures old(Canceled(ctx)) ==> Canceled(ctx)
      ensures old(pyramid) <= pyramid
      ensures StackedAbove(CoefficientPyramid, pyramid, |old(pyramid)|, width, height, LevelCount(pyramidDepth))
      ensures !Canceled(ctx) ==>
        pyramid == old(pyramid) + Pyramid(CoefficientPyramid, coefficient, image, width, height, pyramidDepth)
    {
      PushPyramid(CoefficientPyramid);
    }

    /** buildImagePyramid: the full dual raster is the cubic dual of the image. */
    method BuildImagePyramid()
      requires Ready() && |coefficient| == width * height
      modifies this`pyramid, ctx
      ensures old(Canceled(ctx)) ==> Canceled(ctx)
      ensures old(pyramid) <= pyramid
      ensures StackedAbove(ImagePyramid, pyramid, |old(pyramid)|, width, height, LevelCount(pyramidDepth))
      ensures !Canceled(ctx) ==>
        pyramid == old(pyramid) + Pyramid(ImagePyramid, coefficient, image, width, height, pyramidDepth)
    {
      PushPyramid(ImagePyramid);
    }

    /** buildImageAndGradientPyramid: as buildImagePyramid, with the gradients of every level. */
    method BuildImageAndGradientPyramid()
      requires Ready() && |coefficient| == width * height
      modifies this`pyramid, ctx
      ensures old(Canceled(ctx)) ==> Canceled(ctx)
      ensures old(pyramid) <= pyramid
      ensures StackedAbove(ImageAndGradientPyramid, pyramid, |old(pyramid)|, width, height, LevelCount(pyramidDepth))
      ensures !Canceled(ctx) ==>
        pyramid == old(pyramid) + Pyramid(ImageAndGradientPyramid, coefficient, image, width, height, pyramidDepth)
    {
      PushPyramid(ImageAndGradientPyramid);
    }

    /** getBasicFromCardinal2D(): the cubic B-spline coefficients of the image; this pass is never canceled. */
    method BasicFromImage() returns (basic: seq<real>)
      requires Ready()
      ensures basic == Separable(Basic(3), image, width, height)
    {
      var c := ArrayOf(image);
      var b := GetBasicFromCardinal2D(c, width, height, 3, null);
      basic := b[..];
    }

    /** imageToXYGradient2D(): the horizontal and vertical gradients of the image's cubic spline. */
    method ImageGradients()
      requires Ready()
      modifies this`xGradient, this`yGradient, ctx
      ensures old(Canceled(ctx)) ==> Canceled(ctx)
      ensures |xGradient| == width * height && |yGradient| == width * height
      ensures !Canceled(ctx) ==> xGradient == MapRows(SampleGradient, image, width, height)
      ensures !Canceled(ctx) ==> yGradient == MapColumns(SampleGradient, image, width, height)
    {
      var c := ArrayOf(image);
      var xg, yg := ImageToXYGradient2D(c, width, height, ctx);
      xGradient, yGradient := xg[..], yg[..];
    }

    /**
     * The switch of run: the pyramid the transformation and the role of the
     * image call for; the source image of a model with a gradient search also
     * gets the gradients of the full-size image first.
     */
    method BuildForRun()
      requires Ready() && |coefficient| == width * height
      modifies this`xGradient, this`yGradient, this`pyramid, ctx
      ensures old(Canceled(ctx)) ==> Canceled(ctx)
      ensures old(pyramid) <= pyramid
      ensures StackedAbove(RunKind(transformation, isTarget), pyramid, |old(pyramid)|, width, height, LevelCount(pyramidDepth))
      ensures !Canceled(ctx) ==>
        pyramid == old(pyramid) + Pyramid(RunKind(transformation, isTarget), coefficient, image, width, height, pyramidDepth)
      ensures RunKind(transformation, isTarget) == ImageAndGradientPyramid ==>
        |xGradient| == width * height && |yGradient| == width * height
      ensures RunKind(transformation, isTarget) == ImageAndGradientPyramid && !Canceled(ctx) ==>
        xGradient == MapRows(SampleGradient, image, width, height) &&
        yGradient == MapColumns(SampleGradient, image, width, height)
      ensures RunKind(transformation, isTarget) != ImageAndGradientPyramid ==>
        xGradient == old(xGradient) && yGradient == old(yGradient)
    {
      match RunKind(transformation, isTarget)
      case CoefficientPyramid =>
        BuildCoefficientPyramid();
      case ImagePyramid =>
        BuildImagePyramid();
      case ImageAndGradientPyramid =>
        ImageGradients();
        BuildImageAndGradientPyramid();
    }

    /** run: the cubic B-spline coefficients of the image, then the switch on the transformation. */
    method Run()
      requires Ready()
      modifies this`coefficient, this`xGradient, this`yGradient, this`pyramid, ctx
      ensures coefficient == Separable(Basic(3), image, width, height)
      ensures old(Canceled(ctx)) ==> Canceled(ctx)
      ensures old(pyramid) <= pyramid
      ensures StackedAbove(RunKind(transformation, isTarget), pyramid, |old(pyramid)|, width, height, LevelCount(pyramidDepth))
      ensures !Canceled(ctx) ==>
        pyramid == old(pyramid) + Pyramid(RunKind(transformation, isTarget), coefficient, image, width, height, pyramidDepth)
      ensures RunKind(transformation, isTarget) == ImageAndGradientPyramid ==>
        |xGradient| == width * height && |yGradient| == width * height
      ensures RunKind(transformation, isTarget) == ImageAndGradientPyramid && !Canceled(ctx) ==>
        xGradient == MapRows(SampleGradient, image, width, height) &&
        yGradient == MapColumns(SampleGradient, image, width, height)
      ensures RunKind(transformation, isTarget) != ImageAndGradientPyramid ==>
        xGradient == old(xGradient) && yGradient == old(yGradient)
    {
      coefficient := BasicFromImage();
      BuildForRun();
    }
  }
}
