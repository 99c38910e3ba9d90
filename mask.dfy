/**
 * The mask of a registration (TurboRegMask): a full-size weight raster whose
 * entries are 1 inside the regions of interest, and the pyramid of its
 * reductions. A reduction halves both sizes; each output cell accumulates the
 * absolute values of the input cells of a 3 by 3 window, clipped at the top
 * and left edges, and a trailing odd column or row of the input is not read.
 */
module Mask {
  import opened Arith
  import opened Mirror
  import opened Interval
  import opened Wrappers

  function Abs(v: real): (r: real)
    ensures r >= 0.0 && (r == v || r == -v)
  {
    if v < 0.0 then -v else v
  }

  // ---------------------------------------------------------------------------
  // One input row's contribution to one output row.

  /** |f| at column 2x - 1 of the input row that starts at n, or nothing at the left edge. */
  function LeftOf(f: seq<real>, n: nat, x: nat): (r: real)
    requires n + 2 * x <= |f|
    ensures r >= 0.0
  {
    if x > 0 then Abs(f[n + 2 * x - 1]) else 0.0
  }

  /** What output cell x receives from the input row that starts at n: |f| at columns 2x - 1, 2x and 2x + 1. */
  function Triple(f: seq<real>, n: nat, x: nat): (r: real)
    requires n + 2 * x + 2 <= |f|
    ensures r >= 0.0
  {
    LeftOf(f, n, x) + Abs(f[n + 2 * x]) + Abs(f[n + 2 * x + 1])
  }

  /**
   * Entry i of an output row while the first x column pairs of the input row
   * at n are added: complete before x, holding only its left neighbour at x,
   * untouched after.
   */
  function Progress(f: seq<real>, n: nat, x: nat, i: int): (r: real)
    requires n + 2 * x <= |f|
    ensures r >= 0.0
  {
    if 0 <= i < x then Triple(f, n, i) else if i == x then LeftOf(f, n, x) else 0.0
  }

  /** Before any pair is added nothing is; one more pair completes entry x and starts entry x + 1. */
  lemma {:induction false} ProgressStep(f: seq<real>, n: nat, x: nat)
    requires n + 2 * x + 2 <= |f|
    ensures forall i :: Progress(f, n, 0, i) == 0.0
    ensures forall i ::
      Progress(f, n, x + 1, i) == Progress(f, n, x, i) + (if i == x then Abs(f[n + 2 * x]) + Abs(f[n + 2 * x + 1]) else if i == x + 1 then Abs(f[n + 2 * x + 1]) else 0.0)
  {
  }

  // ---------------------------------------------------------------------------
  // The reduction, as a window sum and as the rows the loop has consumed.

  /**
   * Cell (x, y) of the reduction of a fw by fh mask: the sum of Triple over the
   * input rows 2y - 1 (when y > 0), 2y and 2y + 1.
   */
  function HalfCell(f: seq<real>, fw: nat, fh: nat, x: nat, y: nat): (r: real)
    requires |f| == fw * fh && x < fw / 2 && y < fh / 2
    ensures r >= 0.0
  {
    RowStartInRaster(fw, 2 * y, fh);
    RowStartInRaster(fw, 2 * y + 1, fh);
    (if y > 0 then (RowStartInRaster(fw, 2 * y - 1, fh); Triple(f, RowStart(fw, 2 * y - 1), x)) else 0.0)
    + Triple(f, RowStart(fw, 2 * y), x) + Triple(f, RowStart(fw, 2 * y + 1), x)
  }

  /** The reduction of a fw by fh mask, a (fw / 2) by (fh / 2) raster in row-major order. */
  function HalfMask(f: seq<real>, fw: nat, fh: nat): (r: seq<real>)
    requires fw >= 2 && fh >= 2 && |f| == fw * fh
    ensures |r| == (fw / 2) * (fh / 2)
    ensures forall j :: 0 <= j < |r| ==> r[j] >= 0.0
  {
    seq((fw / 2) * (fh / 2), j requires 0 <= j < (fw / 2) * (fh / 2) =>
      CellOfIndex(j, fw / 2, fh / 2);
      HalfCell(f, fw, fh, j % (fw / 2), j / (fw / 2)))
  }


  /** Where the cursors of the main loop of getHalfMask2D stand at the start of pass y, and that the pass stays inside both rasters. */
  lemma {:induction false} PairBounds(fw: nat, hw: nat, hh: nat, y: nat)
    requires y < hh
    ensures RowStart(hw, y) + hw <= RowStart(hw, hh) && RowStart(fw, 2 * y) + 2 * fw <= RowStart(fw, 2 * hh)
    ensures y + 1 < hh ==> RowStart(hw, y) + 2 * hw <= RowStart(hw, hh)
    ensures RowStart(hw, y + 1) == RowStart(hw, y) + hw && RowStart(fw, 2 * (y + 1)) == RowStart(fw, 2 * y) + 2 * fw
    ensures RowStart(fw, 2 * y + 1) == RowStart(fw, 2 * y) + fw
  {
    RowStartStep(hw, y, hh);
    RowStartStep(fw, 2 * y + 1, 2 * hh);
    if y + 1 < hh {
      RowStartStep(hw, y + 1, hh);
    }
  }

  // ---------------------------------------------------------------------------
  // What the main loop has added to each output entry.

  /** What output entry j receives when the input row at n is added to the output row at k. */
  function Gain(f: seq<real>, n: nat, hw: nat, k: int, j: int): (r: real)
    requires n + 2 * hw <= |f|
    ensures r >= 0.0
    ensures !(k <= j < k + hw) ==> r == 0.0
  {
    if k <= j < k + hw then Triple(f, n, j - k) else 0.0
  }

  /**
   * What output entry j receives from pass y of the main loop: the even input
   * row 2y into output row y, the odd input row 2y + 1 into output rows y and,
   * when there is one, y + 1.
   */
  function PassGain(f: seq<real>, fw: nat, hw: nat, hh: nat, y: nat, j: int): (r: real)
    requires 2 * hw <= fw && RowStart(fw, 2 * hh) <= |f| && y < hh
    ensures r >= 0.0
  {
    PairBounds(fw, hw, hh, y);
    var k, n := RowStart(hw, y), RowStart(fw, 2 * y);
    Gain(f, n, hw, k, j) + Gain(f, n + fw, hw, k, j)
    + (if y + 1 < hh then Gain(f, n + fw, hw, k + hw, j) else 0.0)
  }

  /** Output entry j once the first `pairs` passes are made. */
  function Accumulated(f: seq<real>, fw: nat, hw: nat, hh: nat, pairs: nat, j: int): (r: real)
    requires 2 * hw <= fw && RowStart(fw, 2 * hh) <= |f| && pairs <= hh
    ensures r >= 0.0
    decreases pairs
  {
    if pairs == 0 then 0.0
    else Accumulated(f, fw, hw, hh, pairs - 1, j) + PassGain(f, fw, hw, hh, pairs - 1, j)
  }

  /** One more pass, written out: what the even and the odd input row of pair y add to entry j. */
  lemma {:induction false} AccumulatedStep(f: seq<real>, fw: nat, hw: nat, hh: nat, y: nat)
    requires 2 * hw <= fw && RowStart(fw, 2 * hh) <= |f| && y < hh
    ensures RowStart(fw, 2 * y) + 2 * fw <= |f|
    ensures forall j ::
      Accumulated(f, fw, hw, hh, y + 1, j) == Accumulated(f, fw, hw, hh, y, j)
      + Gain(f, RowStart(fw, 2 * y), hw, RowStart(hw, y), j) + Gain(f, RowStart(fw, 2 * y) + fw, hw, RowStart(hw, y), j)
      + (if y + 1 < hh then Gain(f, RowStart(fw, 2 * y) + fw, hw, RowStart(hw, y) + hw, j) else 0.0)
  {
    PairBounds(fw, hw, hh, y);
    assert y + 1 - 1 == y;
  }

  /** The column-pair loop over one input row: for x < hw - 1, cell x gets columns 2x and 2x + 1, cell x + 1 column 2x + 1. */
  method PairsIntoRow(halfMask: array<real>, fullMask: seq<real>, k0: nat, n0: nat, hw: nat) returns (k: nat, n: nat)
    requires hw >= 1 && k0 + hw <= halfMask.Length && n0 + 2 * hw <= |fullMask|
    modifies halfMask
    ensures k == k0 + hw - 1 && n == n0 + 2 * hw - 2
    ensures forall j :: 0 <= j < halfMask.Length ==>
      halfMask[j] == old(halfMask[j]) + Progress(fullMask, n0, hw - 1, j - k0)
  {
    k, n := k0, n0;
    ProgressStep(fullMask, n0, 0);
    for x := 0 to hw - 1
      invariant k == k0 + x && n == n0 + 2 * x
      invariant forall j :: 0 <= j < halfMask.Length ==>
        halfMask[j] == old(halfMask[j]) + Progress(fullMask, n0, x, j - k0)
    {
      ProgressStep(fullMask, n0, x);
      halfMask[k] := halfMask[k] + Abs(fullMask[n]);
      n := n + 1;
      halfMask[k] := halfMask[k] + Abs(fullMask[n]);
      k := k + 1;
      halfMask[k] := halfMask[k] + Abs(fullMask[n]);
      n := n + 1;
    }
  }

  /** The pair loop and the last two columns together add an input row to an output row. */
  lemma {:induction false} RowComplete(h0: seq<real>, h1: seq<real>, h2: seq<real>, f: seq<real>, k0: nat, n0: nat, hw: nat)
    requires hw >= 1 && k0 + hw <= |h0| == |h1| == |h2| && n0 + 2 * hw <= |f|
    requires forall j :: 0 <= j < |h0| ==> h1[j] == h0[j] + Progress(f, n0, hw - 1, j - k0)
    requires h2[k0 + hw - 1] == h1[k0 + hw - 1] + Abs(f[n0 + 2 * hw - 2]) + Abs(f[n0 + 2 * hw - 1])
    requires forall j :: 0 <= j < |h0| && j != k0 + hw - 1 ==> h2[j] == h1[j]
    ensures forall j :: 0 <= j < |h0| ==> h2[j] == h0[j] + Gain(f, n0, hw, k0, j)
  {
    forall j | 0 <= j < |h0|
      ensures h2[j] == h0[j] + Gain(f, n0, hw, k0, j)
    {
      ProgressLast(f, n0, hw, j - k0);
    }
  }

  /** One input row into one output row: the pair loop, the last two columns, and the skip of an odd trailing column. */
  method RowInto(halfMask: array<real>, fullMask: seq<real>, k0: nat, n0: nat, hw: nat, fw: nat, oddWidth: bool)
    returns (k: nat, n: nat)
    requires hw >= 1 && 2 * hw <= fw <= 2 * hw + 1 && oddWidth == (fw != 2 * hw)
    requires k0 + hw <= halfMask.Length && n0 + fw <= |fullMask|
    modifies halfMask
    ensures k == k0 + hw && n == n0 + fw
    ensures forall j :: 0 <= j < halfMask.Length ==> halfMask[j] == old(halfMask[j]) + Gain(fullMask, n0, hw, k0, j)
  {
    k, n := PairsIntoRow(halfMask, fullMask, k0, n0, hw);
    ghost var pairs := halfMask[..];
    halfMask[k] := halfMask[k] + Abs(fullMask[n]);
    n := n + 1;
    halfMask[k] := halfMask[k] + Abs(fullMask[n]);
    k, n := k + 1, n + 1;
    if oddWidth {
      n := n + 1;
    }
    RowComplete(old(halfMask[..]), pairs, halfMask[..], fullMask, k0, n0, hw);
  }

  /**
   * The column-pair loop over an odd input row, which feeds two output rows:
   * the one above at k - hw and the one below at k.
   */
  method PairsIntoTwoRows(halfMask: array<real>, fullMask: seq<real>, k0: nat, n0: nat, hw: nat) returns (k: nat, n: nat)
    requires hw >= 1 && hw <= k0 && k0 + hw <= halfMask.Length && n0 + 2 * hw <= |fullMask|
    modifies halfMask
    ensures k == k0 + hw - 1 && n == n0 + 2 * hw - 2
    ensures forall j :: 0 <= j < halfMask.Length ==>
      halfMask[j] == old(halfMask[j]) + Progress(fullMask, n0, hw - 1, j - (k0 - hw)) + Progress(fullMask, n0, hw - 1, j - k0)
  {
    k, n := k0, n0;
    ProgressStep(fullMask, n0, 0);
    for x := 0 to hw - 1
      invariant k == k0 + x && n == n0 + 2 * x
      invariant forall j :: 0 <= j < halfMask.Length ==>
        halfMask[j] == old(halfMask[j]) + Progress(fullMask, n0, x, j - (k0 - hw)) + Progress(fullMask, n0, x, j - k0)
    {
      ProgressStep(fullMask, n0, x);
      k, n := PairIntoTwoRows(halfMask, fullMask, k, n, hw);
    }
  }

  /** One pass of that loop: columns 2x and 2x + 1 into cell x above and below, column 2x + 1 into cell x + 1 above and below. */
  method PairIntoTwoRows(halfMask: array<real>, fullMask: seq<real>, k0: nat, n0: nat, hw: nat) returns (k: nat, n: nat)
    requires 2 <= hw <= k0 && k0 + 1 < halfMask.Length && n0 + 1 < |fullMask|
    modifies halfMask
    ensures k == k0 + 1 && n == n0 + 2
    ensures halfMask[k0 - hw] == old(halfMask[k0 - hw]) + Abs(fullMask[n0]) + Abs(fullMask[n0 + 1])
    ensures halfMask[k0 - hw + 1] == old(halfMask[k0 - hw + 1]) + Abs(fullMask[n0 + 1])
    ensures halfMask[k0] == old(halfMask[k0]) + Abs(fullMask[n0]) + Abs(fullMask[n0 + 1])
    ensures halfMask[k0 + 1] == old(halfMask[k0 + 1]) + Abs(fullMask[n0 + 1])
    ensures forall j :: 0 <= j < halfMask.Length && j != k0 - hw && j != k0 - hw + 1 && j != k0 && j != k0 + 1 ==>
      halfMask[j] == old(halfMask[j])
  {
    k, n := k0, n0;
    halfMask[k - hw] := halfMask[k - hw] + Abs(fullMask[n]);
    halfMask[k] := halfMask[k] + Abs(fullMask[n]);
    n := n + 1;
    halfMask[k - hw] := halfMask[k - hw] + Abs(fullMask[n]);
    halfMask[k - hw + 1] := halfMask[k - hw + 1] + Abs(fullMask[n]);
    halfMask[k] := halfMask[k] + Abs(fullMask[n]);
    k := k + 1;
    halfMask[k] := halfMask[k] + Abs(fullMask[n]);
    n := n + 1;
  }

  /** The last column pair of an odd input row: both columns into the last cell above and below. */
  method LastPairIntoTwoRows(halfMask: array<real>, fullMask: seq<real>, k0: nat, n0: nat, hw: nat) returns (k: nat, n: nat)
    requires 1 <= hw <= k0 < halfMask.Length && n0 + 1 < |fullMask|
    modifies halfMask
    ensures k == k0 + 1 && n == n0 + 2
    ensures halfMask[k0 - hw] == old(halfMask[k0 - hw]) + Abs(fullMask[n0]) + Abs(fullMask[n0 + 1])
    ensures halfMask[k0] == old(halfMask[k0]) + Abs(fullMask[n0]) + Abs(fullMask[n0 + 1])
    ensures forall j :: 0 <= j < halfMask.Length && j != k0 - hw && j != k0 ==> halfMask[j] == old(halfMask[j])
  {
    k, n := k0, n0;
    halfMask[k - hw] := halfMask[k - hw] + Abs(fullMask[n]);
    halfMask[k] := halfMask[k] + Abs(fullMask[n]);
    n := n + 1;
    halfMask[k - hw] := halfMask[k - hw] + Abs(fullMask[n]);
    halfMask[k] := halfMask[k] + Abs(fullMask[n]);
    k, n := k + 1, n + 1;
  }

  /** The pair loop and the last pair together add an odd input row to the rows above and below. */
  lemma {:induction false} TwoRowsComplete(h0: seq<real>, h1: seq<real>, h2: seq<real>, f: seq<real>, k0: nat, n0: nat, hw: nat)
    requires hw >= 1 && hw <= k0 && k0 + hw <= |h0| == |h1| == |h2| && n0 + 2 * hw <= |f|
    requires forall j :: 0 <= j < |h0| ==>
      h1[j] == h0[j] + Progress(f, n0, hw - 1, j - (k0 - hw)) + Progress(f, n0, hw - 1, j - k0)
    requires h2[k0 - 1] == h1[k0 - 1] + Abs(f[n0 + 2 * hw - 2]) + Abs(f[n0 + 2 * hw - 1])
    requires h2[k0 + hw - 1] == h1[k0 + hw - 1] + Abs(f[n0 + 2 * hw - 2]) + Abs(f[n0 + 2 * hw - 1])
    requires forall j :: 0 <= j < |h0| && j != k0 - 1 && j != k0 + hw - 1 ==> h2[j] == h1[j]
    ensures forall j :: 0 <= j < |h0| ==> h2[j] == h0[j] + Gain(f, n0, hw, k0 - hw, j) + Gain(f, n0, hw, k0, j)
  {
    forall j | 0 <= j < |h0|
      ensures h2[j] == h0[j] + Gain(f, n0, hw, k0 - hw, j) + Gain(f, n0, hw, k0, j)
    {
      ProgressLast(f, n0, hw, j - (k0 - hw));
      ProgressLast(f, n0, hw, j - k0);
    }
  }

  /** Entry i of a row after the pair loop, completed by the last pair when it is the last entry. */
  lemma {:induction false} ProgressLast(f: seq<real>, n: nat, hw: nat, i: int)
    requires hw >= 1 && n + 2 * hw <= |f|
    ensures 0 <= i < hw - 1 ==> Progress(f, n, hw - 1, i) == Triple(f, n, i)
    ensures i == hw - 1 ==> Progress(f, n, hw - 1, i) + Abs(f[n + 2 * hw - 2]) + Abs(f[n + 2 * hw - 1]) == Triple(f, n, i)
    ensures (i < 0 || i >= hw) ==> Progress(f, n, hw - 1, i) == 0.0
  {
  }

  /** An odd input row into the output rows above (at k - hw) and below (at k). */
  method TwoRowsInto(halfMask: array<real>, fullMask: seq<real>, k0: nat, n0: nat, hw: nat, fw: nat, oddWidth: bool)
    returns (k: nat, n: nat)
    requires hw >= 1 && 2 * hw <= fw <= 2 * hw + 1 && oddWidth == (fw != 2 * hw)
    requires hw <= k0 && k0 + hw <= halfMask.Length && n0 + fw <= |fullMask|
    modifies halfMask
    ensures k == k0 + hw && n == n0 + fw
    ensures forall j :: 0 <= j < halfMask.Length ==>
      halfMask[j] == old(halfMask[j]) + Gain(fullMask, n0, hw, k0 - hw, j) + Gain(fullMask, n0, hw, k0, j)
  {
    k, n := PairsIntoTwoRows(halfMask, fullMask, k0, n0, hw);
    ghost var pairs := halfMask[..];
    k, n := LastPairIntoTwoRows(halfMask, fullMask, k, n, hw);
    if oddWidth {
      n := n + 1;
    }
    TwoRowsComplete(old(halfMask[..]), pairs, halfMask[..], fullMask, k0, n0, hw);
  }

  /** The last input row into the last output row; the cursors are not used afterwards. */
  method LastRowInto(halfMask: array<real>, fullMask: seq<real>, k0: nat, n0: nat, hw: nat)
    requires hw >= 1 && k0 + hw <= halfMask.Length && n0 + 2 * hw <= |fullMask|
    modifies halfMask
    ensures forall j :: 0 <= j < halfMask.Length ==> halfMask[j] == old(halfMask[j]) + Gain(fullMask, n0, hw, k0, j)
  {
    var k, n := PairsIntoRow(halfMask, fullMask, k0, n0, hw);
    ghost var pairs := halfMask[..];
    halfMask[k] := halfMask[k] + Abs(fullMask[n]);
    n := n + 1;
    halfMask[k] := halfMask[k] + Abs(fullMask[n]);
    RowComplete(old(halfMask[..]), pairs, halfMask[..], fullMask, k0, n0, hw);
  }

  /** Clears the first rows of the output (the first loop of getHalfMask2D), polling for cancellation before each row. */
  method ClearRows(halfMask: array<real>, halfWidth: nat, halfHeight: nat, ctx: ExecutionContext?)
    requires halfMask.Length == halfWidth * halfHeight
    modifies halfMask, ctx
    ensures old(Canceled(ctx)) ==> Canceled(ctx)
    ensures forall j :: 0 <= j < halfMask.Length ==> halfMask[j] == 0.0 || halfMask[j] == old(halfMask[j])
    ensures !Canceled(ctx) ==> forall j :: 0 <= j < halfMask.Length ==> halfMask[j] == 0.0
  {
    var k := 0;
    var y := 0;
    while y < halfHeight
      invariant y <= halfHeight && k == halfWidth * y
      invariant old(Canceled(ctx)) ==> Canceled(ctx)
      invariant forall j :: 0 <= j < halfMask.Length ==> halfMask[j] == (if j < k then 0.0 else old(halfMask[j]))
    {
      var canceled := IsCanceled(ctx);
      if canceled {
        break;
      }
      NextRow(halfWidth, y, halfHeight);
      for x := 0 to halfWidth
        invariant k == halfWidth * y + x
        invariant forall j :: 0 <= j < halfMask.Length ==> halfMask[j] == (if j < k then 0.0 else old(halfMask[j]))
      {
        halfMask[k] := 0.0;
        k := k + 1;
      }
      y := y + 1;
    }
  }

  /**
   * One pass of the main loop of getHalfMask2D: the even input row at n0 into
   * the output row at k0, then the odd input row after it into that output row
   * and the next one, and k back to the start of the next output row.
   */
  method RowPairStep(halfMask: array<real>, fullMask: seq<real>, fullWidth: nat, halfWidth: nat, oddWidth: bool, k0: nat, n0: nat)
    returns (k: nat, n: nat)
    requires halfWidth >= 1 && 2 * halfWidth <= fullWidth <= 2 * halfWidth + 1 && oddWidth == (fullWidth != 2 * halfWidth)
    requires k0 + 2 * halfWidth <= halfMask.Length && n0 + 2 * fullWidth <= |fullMask|
    modifies halfMask
    ensures k == k0 + halfWidth && n == n0 + 2 * fullWidth
    ensures forall j :: 0 <= j < halfMask.Length ==>
      halfMask[j] == old(halfMask[j]) + Gain(fullMask, n0, halfWidth, k0, j)
      + Gain(fullMask, n0 + fullWidth, halfWidth, k0, j) + Gain(fullMask, n0 + fullWidth, halfWidth, k0 + halfWidth, j)
  {
    k, n := RowInto(halfMask, fullMask, k0, n0, halfWidth, fullWidth, oddWidth);
    assert k - halfWidth == k0 && k == k0 + halfWidth && n == n0 + fullWidth;
    k, n := TwoRowsInto(halfMask, fullMask, k, n, halfWidth, fullWidth, oddWidth);
    k := k - halfWidth;
  }

  /**
   * The part of getHalfMask2D after its main loop, which runs also when the loop
   * was canceled: the even input row at n0 into the output row at k0, then the
   * odd input row after it into that output row alone.
   */
  method LastRowPair(halfMask: array<real>, fullMask: seq<real>, fullWidth: nat, halfWidth: nat, oddWidth: bool, k0: nat, n0: nat)
    requires halfWidth >= 1 && 2 * halfWidth <= fullWidth <= 2 * halfWidth + 1 && oddWidth == (fullWidth != 2 * halfWidth)
    requires k0 + halfWidth <= halfMask.Length && n0 + 2 * fullWidth <= |fullMask|
    modifies halfMask
    ensures forall j :: 0 <= j < halfMask.Length ==>
      halfMask[j] == old(halfMask[j]) + Gain(fullMask, n0, halfWidth, k0, j) + Gain(fullMask, n0 + fullWidth, halfWidth, k0, j)
  {
    var k, n := RowInto(halfMask, fullMask, k0, n0, halfWidth, fullWidth, oddWidth);
    k := k - halfWidth;
    assert k == k0 && n == n0 + fullWidth;
    LastRowInto(halfMask, fullMask, k, n, halfWidth);
  }

  /**
   * The main loop of getHalfMask2D: every pair of input rows but the last, each
   * pass polling for cancellation first. It returns the pass it stopped at and
   * the cursors there.
   */
  method MainPasses(halfMask: array<real>, fullMask: seq<real>, fullWidth: nat, halfWidth: nat, halfHeight: nat, oddWidth: bool, ctx: ExecutionContext?)
    returns (y: nat, k: nat, n: nat)
    requires halfWidth >= 1 && 2 * halfWidth <= fullWidth <= 2 * halfWidth + 1 && oddWidth == (fullWidth != 2 * halfWidth)
    requires halfHeight >= 1 && halfMask.Length == RowStart(halfWidth, halfHeight) && RowStart(fullWidth, 2 * halfHeight) <= |fullMask|
    requires forall j :: 0 <= j < halfMask.Length ==> halfMask[j] == 0.0
    modifies halfMask, ctx
    ensures y < halfHeight && k == RowStart(halfWidth, y) && n == RowStart(fullWidth, 2 * y)
    ensures old(Canceled(ctx)) ==> Canceled(ctx)
    ensures !Canceled(ctx) ==> y + 1 == halfHeight
    ensures forall j :: 0 <= j < halfMask.Length ==> halfMask[j] == Accumulated(fullMask, fullWidth, halfWidth, halfHeight, y, j)
  {
    k, n := 0, 0;
    y := 0;
    while y < halfHeight - 1
      invariant y < halfHeight && k == RowStart(halfWidth, y) && n == RowStart(fullWidth, 2 * y)
      invariant old(Canceled(ctx)) ==> Canceled(ctx)
      invariant forall j :: 0 <= j < halfMask.Length ==> halfMask[j] == Accumulated(fullMask, fullWidth, halfWidth, halfHeight, y, j)
    {
      var canceled := IsCanceled(ctx);
      if canceled {
        break;
      }
      PairBounds(fullWidth, halfWidth, halfHeight, y);
      AccumulatedStep(fullMask, fullWidth, halfWidth, halfHeight, y);
      k, n := RowPairStep(halfMask, fullMask, fullWidth, halfWidth, oddWidth, k, n);
      y := y + 1;
    }
  }

  /**
   * getHalfMask2D: the reduction of a fullWidth by fullHeight mask. Cancellation
   * stops the two loops early, and the output then holds partial sums; the rows
   * after the main loop are added in any case.
   */
  method GetHalfMask2D(fullMask: seq<real>, fullWidth: nat, fullHeight: nat, ctx: ExecutionContext?) returns (halfMask: array<real>)
    requires fullWidth >= 2 && fullHeight >= 2 && |fullMask| == fullWidth * fullHeight
    modifies ctx
    ensures fresh(halfMask) && halfMask.Length == (fullWidth / 2) * (fullHeight / 2)
    ensures old(Canceled(ctx)) ==> Canceled(ctx)
    ensures forall j :: 0 <= j < halfMask.Length ==> halfMask[j] >= 0.0
    ensures !Canceled(ctx) ==> halfMask[..] == HalfMask(fullMask, fullWidth, fullHeight)
  {
    var halfWidth := fullWidth / 2;
    var halfHeight := fullHeight / 2;
    var oddWidth := 2 * halfWidth != fullWidth;
    MulMonotone(fullWidth, 2 * halfHeight, fullHeight);
    RowStartIsProduct(fullWidth, 2 * halfHeight);
    RowStartIsProduct(halfWidth, halfHeight);
    halfMask := new real[halfWidth * halfHeight](_ => 0.0);
    ClearRows(halfMask, halfWidth, halfHeight, ctx);
    var y, k, n := MainPasses(halfMask, fullMask, fullWidth, halfWidth, halfHeight, oddWidth, ctx);
    PairBounds(fullWidth, halfWidth, halfHeight, y);
    ghost var passed := halfMask[..];
    LastRowPair(halfMask, fullMask, fullWidth, halfWidth, oddWidth, k, n);
    if !Canceled(ctx) {
      LastPassComplete(passed, halfMask[..], fullMask, fullWidth, fullHeight, y, k, n);
    }
  }

  // ---------------------------------------------------------------------------
  // The reduction, cell by cell.

  /** What the even input row of pair q gives to output cell x. */
  function EvenFeed(f: seq<real>, fw: nat, hw: nat, hh: nat, q: nat, x: nat): real
    requires 2 * hw <= fw && RowStart(fw, 2 * hh) <= |f| && q < hh && x < hw
  {
    PairBounds(fw, hw, hh, q);
    Triple(f, RowStart(fw, 2 * q), x)
  }

  /** What the odd input row of pair q gives to output cell x. */
  function OddFeed(f: seq<real>, fw: nat, hw: nat, hh: nat, q: nat, x: nat): real
    requires 2 * hw <= fw && RowStart(fw, 2 * hh) <= |f| && q < hh && x < hw
  {
    PairBounds(fw, hw, hh, q);
    Triple(f, RowStart(fw, 2 * q) + fw, x)
  }

  /** Output cell (x, y) after `pairs` passes: what it has of the odd row of pair y - 1 and of both rows of pair y, of the pairs passed so far. */
  function Window(f: seq<real>, fw: nat, hw: nat, hh: nat, pairs: nat, x: nat, y: nat): real
    requires 2 * hw <= fw && RowStart(fw, 2 * hh) <= |f| && pairs <= hh && x < hw && y < hh
  {
    (if 0 < y <= pairs then OddFeed(f, fw, hw, hh, y - 1, x) else 0.0)
    + (if y < pairs then EvenFeed(f, fw, hw, hh, y, x) + OddFeed(f, fw, hw, hh, y, x) else 0.0)
  }

  /** Cell (x, y) lies in the output row that starts at RowStart(hw, r) exactly when r == y. */
  lemma {:induction false} RowOfCell(hw: nat, x: nat, y: nat, r: nat)
    requires x < hw
    ensures RowStart(hw, r) <= x + RowStart(hw, y) < RowStart(hw, r) + hw <==> r == y
  {
    if r < y {
      RowStartStep(hw, r, y);
    } else if y < r {
      RowStartStep(hw, y, r);
    }
  }

  /** The passes made so far feed each output cell through its window. */
  lemma {:induction false} AccumulatedCell(f: seq<real>, fw: nat, hw: nat, hh: nat, pairs: nat, x: nat, y: nat)
    requires 2 * hw <= fw && RowStart(fw, 2 * hh) <= |f| && pairs <= hh && x < hw && y < hh
    ensures Accumulated(f, fw, hw, hh, pairs, x + RowStart(hw, y)) == Window(f, fw, hw, hh, pairs, x, y)
  {
    if pairs > 0 {
      AccumulatedCell(f, fw, hw, hh, pairs - 1, x, y);
      PassGainCell(f, fw, hw, hh, pairs - 1, x, y);
    }
  }

  /** Pass q feeds cell (x, y) both its rows when q == y, its odd row when q == y - 1, and nothing otherwise. */
  lemma {:induction false} PassGainCell(f: seq<real>, fw: nat, hw: nat, hh: nat, q: nat, x: nat, y: nat)
    requires 2 * hw <= fw && RowStart(fw, 2 * hh) <= |f| && q < hh && x < hw && y < hh
    ensures PassGain(f, fw, hw, hh, q, x + RowStart(hw, y))
      == if y == q then EvenFeed(f, fw, hw, hh, q, x) + OddFeed(f, fw, hw, hh, q, x)
         else if y == q + 1 then OddFeed(f, fw, hw, hh, q, x) else 0.0
  {
    var c := x + RowStart(hw, y);
    PairBounds(fw, hw, hh, q);
    RowOfCell(hw, x, y, q);
    RowOfCell(hw, x, y, q + 1);
    if y == q {
      assert c - RowStart(hw, q) == x;
    } else if y == q + 1 {
      assert c - (RowStart(hw, q) + hw) == x;
    }
  }

  /** Once every pair is passed, the window of a cell is its cell of the reduction. */
  lemma {:induction false} WindowHalfCell(f: seq<real>, fw: nat, fh: nat, x: nat, y: nat)
    requires fw >= 2 && fh >= 2 && |f| == fw * fh && x < fw / 2 && y < fh / 2
    ensures RowStart(fw, 2 * (fh / 2)) <= |f|
    ensures Window(f, fw, fw / 2, fh / 2, fh / 2, x, y) == HalfCell(f, fw, fh, x, y)
  {
    var hw, hh := fw / 2, fh / 2;
    MulMonotone(fw, 2 * hh, fh);
    RowStartIsProduct(fw, 2 * hh);
    PairBounds(fw, hw, hh, y);
    if y > 0 {
      PairBounds(fw, hw, hh, y - 1);
      assert 2 * (y - 1) + 1 == 2 * y - 1;
    }
  }

  /** Once every pass is made, entry j of the loop's output is entry j of the reduction. */
  lemma {:induction false} AccumulatedHalfMask(f: seq<real>, fw: nat, fh: nat, j: int)
    requires fw >= 2 && fh >= 2 && |f| == fw * fh && 0 <= j < (fw / 2) * (fh / 2)
    ensures RowStart(fw, 2 * (fh / 2)) <= |f|
    ensures Accumulated(f, fw, fw / 2, fh / 2, fh / 2, j) == HalfMask(f, fw, fh)[j]
  {
    var hw, hh := fw / 2, fh / 2;
    MulMonotone(fw, 2 * hh, fh);
    RowStartIsProduct(fw, 2 * hh);
    CellOfIndex(j, hw, hh);
    RowStartIsProduct(hw, j / hw);
    AccumulatedCell(f, fw, hw, hh, hh, j % hw, j / hw);
    WindowHalfCell(f, fw, fh, j % hw, j / hw);
  }

  /** The part after the main loop completes the reduction when the main loop made every pass before it. */
  lemma {:induction false} LastPassComplete(h0: seq<real>, h1: seq<real>, f: seq<real>, fw: nat, fh: nat, y: nat, k: nat, n: nat)
    requires fw >= 2 && fh >= 2 && |f| == fw * fh && y + 1 == fh / 2
    requires k == RowStart(fw / 2, y) && n == RowStart(fw, 2 * y) && n + 2 * fw <= |f|
    requires |h0| == |h1| == (fw / 2) * (fh / 2)
    requires RowStart(fw, 2 * (fh / 2)) <= |f|
    requires forall j :: 0 <= j < |h0| ==> h0[j] == Accumulated(f, fw, fw / 2, fh / 2, y, j)
    requires forall j :: 0 <= j < |h1| ==> h1[j] == h0[j] + Gain(f, n, fw / 2, k, j) + Gain(f, n + fw, fw / 2, k, j)
    ensures h1 == HalfMask(f, fw, fh)
  {
    var hw, hh := fw / 2, fh / 2;
    AccumulatedStep(f, fw, hw, hh, y);
    forall j | 0 <= j < |h1|
      ensures h1[j] == HalfMask(f, fw, fh)[j]
    {
      AccumulatedHalfMask(f, fw, fh, j);
    }
  }

  // ---------------------------------------------------------------------------
  // What the reduction of a mask says about the mask.

  /** Input column (or row) u is one of those the window of output column (or row) x reads: 2x - 1 (when x > 0), 2x and 2x + 1. */
  predicate InWindow(u: int, x: int)
  {
    u == 2 * x || u == 2 * x + 1 || (x > 0 && u == 2 * x - 1)
  }

  /** Every input cell in the window of output cell (x, y) is zero. */
  predicate WindowZero(f: seq<real>, fw: nat, fh: nat, x: nat, y: nat)
    requires |f| == fw * fh
  {
    forall u, v :: 0 <= u < fw && 0 <= v < fh && InWindow(u, x) && InWindow(v, y) ==>
      (CellInRaster(u, v, fw, fh); f[Cell(u, v, fw)] == 0.0)
  }

  /** Cell (x, y) of the reduction sits at x + (fw / 2) * y. */
  lemma HalfMaskAt(f: seq<real>, fw: nat, fh: nat, x: nat, y: nat)
    requires fw >= 2 && fh >= 2 && |f| == fw * fh && x < fw / 2 && y < fh / 2
    ensures 0 <= Cell(x, y, fw / 2) < |HalfMask(f, fw, fh)|
    ensures HalfMask(f, fw, fh)[Cell(x, y, fw / 2)] == HalfCell(f, fw, fh, x, y)
  {
    CellInRaster(x, y, fw / 2, fh / 2);
    IndexOfCell(x, y, fw / 2);
  }

  /** The part of a window that lies in input row r adds up to zero exactly when each of its cells is zero. */
  lemma {:induction false} TripleZero(f: seq<real>, fw: nat, fh: nat, x: nat, r: nat)
    requires |f| == fw * fh && x < fw / 2 && r < fh
    ensures RowStart(fw, r) == fw * r && RowStart(fw, r) + fw <= fw * fh
    ensures Triple(f, RowStart(fw, r), x) == 0.0 <==>
      forall u :: 0 <= u < fw && InWindow(u, x) ==> f[Cell(u, r, fw)] == 0.0
  {
    RowStartInRaster(fw, r, fh);
    var n := RowStart(fw, r);
    assert Cell(2 * x, r, fw) == n + 2 * x && Cell(2 * x + 1, r, fw) == n + 2 * x + 1;
    if x > 0 {
      assert Cell(2 * x - 1, r, fw) == n + 2 * x - 1;
    }
    if Triple(f, n, x) == 0.0 {
      forall u | 0 <= u < fw && InWindow(u, x)
        ensures f[Cell(u, r, fw)] == 0.0
      {
      }
    }
  }

  /** A window that is all zero is zero in each of its input rows. */
  lemma {:induction false} WindowZeroRow(f: seq<real>, fw: nat, fh: nat, x: nat, y: nat, r: nat)
    requires |f| == fw * fh && WindowZero(f, fw, fh, x, y) && r < fh && InWindow(r, y)
    ensures forall u :: 0 <= u < fw && InWindow(u, x) ==> 0 <= Cell(u, r, fw) < |f| && f[Cell(u, r, fw)] == 0.0
  {
    forall u | 0 <= u < fw && InWindow(u, x)
      ensures 0 <= Cell(u, r, fw) < |f| && f[Cell(u, r, fw)] == 0.0
    {
      CellInRaster(u, r, fw, fh);
    }
  }

  /**
   * A cell of the reduction is zero exactly when its window of the input mask
   * is all zero: the mask keeps a region of interest at every level, however
   * coarse.
   */
  lemma {:induction false} HalfCellZero(f: seq<real>, fw: nat, fh: nat, x: nat, y: nat)
    requires |f| == fw * fh && x < fw / 2 && y < fh / 2
    ensures HalfCell(f, fw, fh, x, y) == 0.0 <==> WindowZero(f, fw, fh, x, y)
  {
    TripleZero(f, fw, fh, x, 2 * y);
    TripleZero(f, fw, fh, x, 2 * y + 1);
    if y > 0 {
      TripleZero(f, fw, fh, x, 2 * y - 1);
    }
    if HalfCell(f, fw, fh, x, y) == 0.0 {
      forall u, v | 0 <= u < fw && 0 <= v < fh && InWindow(u, x) && InWindow(v, y)
        ensures f[Cell(u, v, fw)] == 0.0
      {
        CellInRaster(u, v, fw, fh);
      }
    }
    if WindowZero(f, fw, fh, x, y) {
      WindowZeroRow(f, fw, fh, x, y, 2 * y);
      WindowZeroRow(f, fw, fh, x, y, 2 * y + 1);
      if y > 0 {
        WindowZeroRow(f, fw, fh, x, y, 2 * y - 1);
      }
    }
  }

  /** All ones: every entry of f is 1, as clearMask leaves the mask. */
  predicate AllOnes(f: seq<real>)
  {
    forall i :: 0 <= i < |f| ==> f[i] == 1.0
  }

  /** Of an all-ones mask, the part of a window in one input row is its number of columns, 2 at the left edge and 3 elsewhere. */
  lemma {:induction false} TripleOfOnes(f: seq<real>, fw: nat, fh: nat, x: nat, r: nat)
    requires |f| == fw * fh && AllOnes(f) && x < fw / 2 && r < fh
    ensures RowStart(fw, r) + fw <= |f|
    ensures Triple(f, RowStart(fw, r), x) == if x == 0 then 2.0 else 3.0
  {
    RowStartInRaster(fw, r, fh);
  }

  /** The reduction of an all-ones mask (clearMask) counts, in every cell, the input cells of its window: 2 or 3 columns by 2 or 3 rows, so 4 in the corner, 6 along the top and left edges and 9 elsewhere. */
  lemma {:induction false} HalfCellOfOnes(f: seq<real>, fw: nat, fh: nat, x: nat, y: nat)
    requires |f| == fw * fh && AllOnes(f) && x < fw / 2 && y < fh / 2
    ensures HalfCell(f, fw, fh, x, y) == if x == 0 && y == 0 then 4.0 else if x == 0 || y == 0 then 6.0 else 9.0
  {
    TripleOfOnes(f, fw, fh, x, 2 * y);
    TripleOfOnes(f, fw, fh, x, 2 * y + 1);
    if y > 0 {
      TripleOfOnes(f, fw, fh, x, 2 * y - 1);
    }
  }

  /**
   * The reduction reads only the first 2 * (fw / 2) columns and 2 * (fh / 2)
   * rows of its input: a trailing odd column or row never contributes.
   */
  lemma {:induction false} HalfMaskIgnoresOddEdge(f: seq<real>, g: seq<real>, fw: nat, fh: nat)
    requires fw >= 2 && fh >= 2 && |f| == fw * fh && |g| == fw * fh
    requires forall u, v :: 0 <= u < 2 * (fw / 2) && 0 <= v < 2 * (fh / 2) ==>
      (CellInRaster(u, v, fw, fh); f[Cell(u, v, fw)] == g[Cell(u, v, fw)])
    ensures HalfMask(f, fw, fh) == HalfMask(g, fw, fh)
  {
    var hw, hh := fw / 2, fh / 2;
    forall j | 0 <= j < hw * hh
      ensures HalfMask(f, fw, fh)[j] == HalfMask(g, fw, fh)[j]
    {
      CellOfIndex(j, hw, hh);
      var x, y := j % hw, j / hw;
      HalfMaskAt(f, fw, fh, x, y);
      HalfMaskAt(g, fw, fh, x, y);
      SameWindow(f, g, fw, fh, x, y);
    }
  }

  /** Two masks that agree on the window of cell (x, y) give that cell the same value. */
  lemma {:induction false} SameWindow(f: seq<real>, g: seq<real>, fw: nat, fh: nat, x: nat, y: nat)
    requires |f| == fw * fh && |g| == fw * fh && x < fw / 2 && y < fh / 2
    requires forall u, v :: 0 <= u < 2 * (fw / 2) && 0 <= v < 2 * (fh / 2) ==>
      (CellInRaster(u, v, fw, fh); f[Cell(u, v, fw)] == g[Cell(u, v, fw)])
    ensures HalfCell(f, fw, fh, x, y) == HalfCell(g, fw, fh, x, y)
  {
    SameRow(f, g, fw, fh, x, 2 * y);
    SameRow(f, g, fw, fh, x, 2 * y + 1);
    if y > 0 {
      SameRow(f, g, fw, fh, x, 2 * y - 1);
    }
  }

  /** Two masks that agree on the even-sized part of input row r give each output cell the same share of it. */
  lemma {:induction false} SameRow(f: seq<real>, g: seq<real>, fw: nat, fh: nat, x: nat, r: nat)
    requires |f| == fw * fh && |g| == fw * fh && x < fw / 2 && r < 2 * (fh / 2)
    requires forall u, v :: 0 <= u < 2 * (fw / 2) && 0 <= v < 2 * (fh / 2) ==>
      (CellInRaster(u, v, fw, fh); f[Cell(u, v, fw)] == g[Cell(u, v, fw)])
    ensures RowStart(fw, r) == fw * r && RowStart(fw, r) + fw <= fw * fh
    ensures Triple(f, RowStart(fw, r), x) == Triple(g, RowStart(fw, r), x)
  {
    RowStartInRaster(fw, r, fh);
    var n := RowStart(fw, r);
    assert Cell(2 * x, r, fw) == n + 2 * x && f[Cell(2 * x, r, fw)] == g[Cell(2 * x, r, fw)];
    assert Cell(2 * x + 1, r, fw) == n + 2 * x + 1 && f[Cell(2 * x + 1, r, fw)] == g[Cell(2 * x + 1, r, fw)];
    if x > 0 {
      assert Cell(2 * x - 1, r, fw) == n + 2 * x - 1 && f[Cell(2 * x - 1, r, fw)] == g[Cell(2 * x - 1, r, fw)];
    }
  }

  /** The reduction of an all-zero mask is all zero. */
  lemma {:induction false} HalfMaskOfZeros(f: seq<real>, fw: nat, fh: nat)
    requires fw >= 2 && fh >= 2 && |f| == fw * fh
    requires forall i :: 0 <= i < |f| ==> f[i] == 0.0
    ensures forall j :: 0 <= j < |HalfMask(f, fw, fh)| ==> HalfMask(f, fw, fh)[j] == 0.0
  {
    var hw, hh := fw / 2, fh / 2;
    forall j | 0 <= j < hw * hh
      ensures HalfMask(f, fw, fh)[j] == 0.0
    {
      CellOfIndex(j, hw, hh);
      var x, y := j % hw, j / hw;
      HalfMaskAt(f, fw, fh, x, y);
      forall u, v | 0 <= u < fw && 0 <= v < fh && InWindow(u, x) && InWindow(v, y)
        ensures 0 <= Cell(u, v, fw) < |f|
      {
        CellInRaster(u, v, fw, fh);
      }
      HalfCellZero(f, fw, fh, x, y);
    }
  }

  // ---------------------------------------------------------------------------
  // The mask pyramid.

  /** Level d of the mask pyramid of a w by h mask: the mask itself at 0, then each level the reduction of the one before. */
  function MaskLevel(full: seq<real>, w: nat, h: nat, d: nat): (r: seq<real>)
    requires |full| == w * h && HalvedTimes(w, d) >= 1 && HalvedTimes(h, d) >= 1
    ensures |r| == HalvedTimes(w, d) * HalvedTimes(h, d)
    ensures d > 0 ==> forall j :: 0 <= j < |r| ==> r[j] >= 0.0
    decreases d
  {
    if d == 0 then full
    else
      HalvedTimesNonIncreasing(w, 0, d - 1);
      HalvedTimesNonIncreasing(h, 0, d - 1);
      HalfMask(MaskLevel(full, w, h, d - 1), HalvedTimes(w, d - 1), HalvedTimes(h, d - 1))
  }

  /** Every level of a stack of reduced masks, from level 1 up, has the size of its level and no negative entry. */
  predicate Shaped(levels: seq<seq<real>>, w: nat, h: nat)
  {
    forall i :: 0 <= i < |levels| ==>
      |levels[i]| == HalvedTimes(w, i + 1) * HalvedTimes(h, i + 1)
      && forall j :: 0 <= j < |levels[i]| ==> levels[i][j] >= 0.0
  }

  /** What buildPyramid pushes for n levels: levels 1 to n, the finest first; the full-size mask is not pushed. */
  function MaskLevels(full: seq<real>, w: nat, h: nat, n: nat): (r: seq<seq<real>>)
    requires |full| == w * h && HalvedTimes(w, n) >= 1 && HalvedTimes(h, n) >= 1
    ensures |r| == n && Shaped(r, w, h)
    decreases n
  {
    if n == 0 then []
    else
      HalvedTimesNonIncreasing(w, n - 1, n);
      HalvedTimesNonIncreasing(h, n - 1, n);
      MaskLevels(full, w, h, n - 1) + [MaskLevel(full, w, h, n)]
  }

  /** The levels pushed are the pyramid's levels, each in its place. */
  lemma {:induction false} MaskLevelsAt(full: seq<real>, w: nat, h: nat, n: nat, i: nat)
    requires |full| == w * h && HalvedTimes(w, n) >= 1 && HalvedTimes(h, n) >= 1 && i < n
    ensures HalvedTimes(w, i + 1) >= 1 && HalvedTimes(h, i + 1) >= 1
    ensures MaskLevels(full, w, h, n)[i] == MaskLevel(full, w, h, i + 1)
    decreases n
  {
    HalvedTimesNonIncreasing(w, i + 1, n);
    HalvedTimesNonIncreasing(h, i + 1, n);
    HalvedTimesNonIncreasing(w, n - 1, n);
    HalvedTimesNonIncreasing(h, n - 1, n);
    if i < n - 1 {
      MaskLevelsAt(full, w, h, n - 1, i);
    }
  }

  /**
   * One pass of the loop of buildPyramid: halve the sizes, reduce the current
   * mask, push the result, which becomes the current mask.
   */
  method PushLevel(current: seq<real>, w: nat, h: nat, d: nat, ghost full: seq<real>, pushed: seq<seq<real>>, ctx: ExecutionContext?)
    returns (next: seq<real>, pushed': seq<seq<real>>)
    requires |full| == w * h && HalvedTimes(w, d + 1) >= 1 && HalvedTimes(h, d + 1) >= 1
    requires |current| == HalvedTimes(w, d) * HalvedTimes(h, d)
    requires |pushed| == d && Shaped(pushed, w, h)
    modifies ctx
    ensures |next| == HalvedTimes(w, d + 1) * HalvedTimes(h, d + 1)
    ensures pushed' == pushed + [next] && Shaped(pushed', w, h)
    ensures old(Canceled(ctx)) ==> Canceled(ctx)
    ensures !Canceled(ctx) && current == MaskLevel(full, w, h, d) ==> next == MaskLevel(full, w, h, d + 1)
  {
    var fullWidth, fullHeight := HalvedTimes(w, d), HalvedTimes(h, d);
    var halfMask := GetHalfMask2D(current, fullWidth, fullHeight, ctx);
    next := halfMask[..];
    pushed' := pushed + [next];
  }

  /**
   * buildPyramid: while the depth is not reached and the work is not canceled,
   * push the reduction of the last mask. Returns what is pushed; once canceled,
   * the level being reduced is still pushed, with partial sums in it.
   */
  method BuildMaskLevels(full: seq<real>, w: nat, h: nat, pyramidDepth: int, ctx: ExecutionContext?)
    returns (pushed: seq<seq<real>>)
    requires |full| == w * h
    requires HalvedTimes(w, LevelCount(pyramidDepth)) >= 1 && HalvedTimes(h, LevelCount(pyramidDepth)) >= 1
    modifies ctx
    ensures old(Canceled(ctx)) ==> Canceled(ctx)
    ensures |pushed| <= LevelCount(pyramidDepth) && Shaped(pushed, w, h)
    ensures old(Canceled(ctx)) ==> pushed == []
    ensures !Canceled(ctx) ==> pushed == MaskLevels(full, w, h, LevelCount(pyramidDepth))
  {
    ghost var count := LevelCount(pyramidDepth);
    HalvedTimesNonIncreasing(w, 0, count);
    HalvedTimesNonIncreasing(h, 0, count);
    var fullMask := full;
    pushed := [];
    var depth := 1;
    var d: nat := 0;
    while depth < pyramidDepth
      invariant d == depth - 1 && d <= count
      invariant HalvedTimes(w, d) >= 1 && HalvedTimes(h, d) >= 1
      invariant |fullMask| == HalvedTimes(w, d) * HalvedTimes(h, d)
      invariant |pushed| == d && Shaped(pushed, w, h)
      invariant old(Canceled(ctx)) ==> Canceled(ctx) && d == 0
      invariant !Canceled(ctx) ==> fullMask == MaskLevel(full, w, h, d) && pushed == MaskLevels(full, w, h, d)
    {
      var canceled := IsCanceled(ctx);
      if canceled {
        break;
      }
      HalvedTimesNonIncreasing(w, d + 1, count);
      HalvedTimesNonIncreasing(h, d + 1, count);
      fullMask, pushed := PushLevel(fullMask, w, h, d, full, pushed, ctx);
      depth := depth + 1;
      d := d + 1;
    }
  }

  // ---------------------------------------------------------------------------
  // The regions of interest.

  /** A region of interest, as the set of absolute pixel positions it covers. */
  type Region = (int, int) -> bool

  /** The regions of the overlays that have one, in their order. */
  function Regions(overlays: seq<Option<Region>>): (r: seq<Region>)
    ensures |r| <= |overlays|
    decreases |overlays|
  {
    if |overlays| == 0 then []
    else
      Regions(overlays[..|overlays| - 1])
      + (match overlays[|overlays| - 1] case Some(roi) => [roi] case None => [])
  }

  /** Some region of rois covers the pixel at (x, y). */
  predicate Covered(rois: seq<Region>, x: int, y: int)
  {
    exists t :: 0 <= t < |rois| && rois[t](x, y)
  }

  /** Some overlay has a region, and it covers the pixel at (x, y). */
  predicate OverlayCovers(overlays: seq<Option<Region>>, x: int, y: int)
  {
    exists i :: 0 <= i < |overlays| && overlays[i].Some? && overlays[i].value(x, y)
  }

  /** The regions collected from the overlays cover what the overlays' regions cover, and there are none exactly when no overlay has one. */
  lemma {:induction false} RegionsCover(overlays: seq<Option<Region>>)
    ensures forall x, y :: Covered(Regions(overlays), x, y) <==> OverlayCovers(overlays, x, y)
    ensures Regions(overlays) == [] <==> forall i :: 0 <= i < |overlays| ==> overlays[i].None?
    decreases |overlays|
  {
    if |overlays| > 0 {
      var front, last := overlays[..|overlays| - 1], overlays[|overlays| - 1];
      RegionsCover(front);
      var r := Regions(overlays);
      forall x, y
        ensures Covered(r, x, y) <==> OverlayCovers(overlays, x, y)
      {
        if Covered(r, x, y) {
          var t :| 0 <= t < |r| && r[t](x, y);
          if t < |Regions(front)| {
            assert Regions(front)[t] == r[t] && Covered(Regions(front), x, y);
            var i :| 0 <= i < |front| && front[i].Some? && front[i].value(x, y);
            assert overlays[i] == front[i];
          } else {
            assert overlays[|overlays| - 1].Some?;
          }
        }
        if OverlayCovers(overlays, x, y) {
          var i :| 0 <= i < |overlays| && overlays[i].Some? && overlays[i].value(x, y);
          if i < |front| {
            assert front[i] == overlays[i] && OverlayCovers(front, x, y);
            var t :| 0 <= t < |Regions(front)| && Regions(front)[t](x, y);
            assert r[t] == Regions(front)[t];
          } else {
            assert r[|r| - 1] == last.value;
          }
        }
      }
      if r == [] {
        forall i | 0 <= i < |overlays|
          ensures overlays[i].None?
        {
          if i < |front| {
            assert front[i] == overlays[i];
          }
        }
      }
    }
  }

  /** What setData leaves at the pixel at absolute position (x, y): 1 everywhere without a region, otherwise 1 on the union of the regions and 0 elsewhere. */
  function MaskValue(overlays: seq<Option<Region>>, x: int, y: int): (r: real)
    ensures r == 0.0 || r == 1.0
  {
    if forall i :: 0 <= i < |overlays| ==> overlays[i].None? then 1.0
    else if OverlayCovers(overlays, x, y) then 1.0
    else 0.0
  }

  /** The pixel at row-major index j of a raster of the given width, in absolute coordinates. */
  function PixelX(j: int, width: int, xOffset: int): int
    requires width > 0
  {
    j % width + xOffset
  }

  function PixelY(j: int, width: int, yOffset: int): int
    requires width > 0
  {
    j / width + yOffset
  }

  /**
   * Marks with 1 every pixel of the mask that roi covers, in raster order (the
   * cursor loop of setData over one region); other entries are left as they are.
   */
  method MarkRegion(mask: array<real>, width: int, xOffset: int, yOffset: int, roi: Region)
    requires width > 0
    modifies mask
    ensures forall j :: 0 <= j < mask.Length ==>
      mask[j] == if roi(PixelX(j, width, xOffset), PixelY(j, width, yOffset)) then 1.0 else old(mask[j])
  {
    for k := 0 to mask.Length
      invariant forall j :: 0 <= j < mask.Length ==>
        mask[j] == if j < k && roi(PixelX(j, width, xOffset), PixelY(j, width, yOffset)) then 1.0 else old(mask[j])
    {
      if roi(PixelX(k, width, xOffset), PixelY(k, width, yOffset)) {
        mask[k] := 1.0;
      }
    }
  }

  /** The marking loop of setData: every region in turn, over a zero mask. */
  method MarkRegions(mask: array<real>, width: int, xOffset: int, yOffset: int, rois: seq<Region>)
    requires width > 0
    requires forall j :: 0 <= j < mask.Length ==> mask[j] == 0.0
    modifies mask
    ensures forall j :: 0 <= j < mask.Length ==>
      mask[j] == if Covered(rois, PixelX(j, width, xOffset), PixelY(j, width, yOffset)) then 1.0 else 0.0
  {
    for r := 0 to |rois|
      invariant forall j :: 0 <= j < mask.Length ==>
        mask[j] == if Covered(rois[..r], PixelX(j, width, xOffset), PixelY(j, width, yOffset)) then 1.0 else 0.0
    {
      MarkRegion(mask, width, xOffset, yOffset, rois[r]);
      forall x, y
        ensures Covered(rois[..r + 1], x, y) <==> Covered(rois[..r], x, y) || rois[r](x, y)
      {
        if Covered(rois[..r + 1], x, y) {
          var t :| 0 <= t < r + 1 && rois[..r + 1][t](x, y);
          if t < r {
            assert rois[..r][t] == rois[..r + 1][t];
          }
        }
        if Covered(rois[..r], x, y) {
          var t :| 0 <= t < r && rois[..r][t](x, y);
          assert rois[..r + 1][t] == rois[..r][t];
        }
        if rois[r](x, y) {
          assert rois[..r + 1][r] == rois[r];
        }
      }
    }
    assert rois[..|rois|] == rois;
  }

  /** The collecting loop of setData: the regions of the overlays that have one. */
  method CollectRegions(overlays: seq<Option<Region>>) returns (rois: seq<Region>)
    ensures rois == Regions(overlays)
  {
    rois := [];
    for i := 0 to |overlays|
      invariant rois == Regions(overlays[..i])
    {
      assert overlays[..i + 1][..i] == overlays[..i];
      match overlays[i]
      case Some(roi) =>
        rois := rois + [roi];
      case None =>
    }
    assert overlays[..|overlays|] == overlays;
  }

  // ---------------------------------------------------------------------------
  // The mask object.

  /**
   * TurboRegMask: a mask of `width` by `height` weights in row-major order over
   * the bounding box at (xOffset, yOffset), and the stack of its reductions,
   * finest first.
   */
  class TurboRegMask {
    var mask: array<real>
    var pyramid: seq<seq<real>>
    var width: int
    var height: int
    var xOffset: int
    var yOffset: int
    var pyramidDepth: int
    var ctx: ExecutionContext?

    /** The mask holds `width` by `height` entries. */
    predicate Valid()
      reads this
    {
      0 <= width && 0 <= height && mask.Length == width * height
    }

    /** The state buildPyramid needs: a valid mask and a depth whose coarsest level is not empty. */
    predicate Ready()
      reads this
    {
      Valid() && HalvedTimes(width, LevelCount(pyramidDepth)) >= 1 && HalvedTimes(height, LevelCount(pyramidDepth)) >= 1
    }

    /** A new mask: no data, an empty pyramid, no execution context. */
    constructor ()
      ensures Valid() && mask.Length == 0 && pyramid == []
      ensures width == 0 && height == 0 && xOffset == 0 && yOffset == 0 && pyramidDepth == 0 && ctx == null
    {
      mask := new real[0];
      pyramid := [];
      width, height, xOffset, yOffset, pyramidDepth := 0, 0, 0, 0, 0;
      ctx := null;
    }

    /** setPyramidDepth. */
    method SetPyramidDepth(pyramidDepth: int)
      modifies this`pyramidDepth
      ensures this.pyramidDepth == pyramidDepth
    {
      this.pyramidDepth := pyramidDepth;
    }

    /** setExecutionContext. */
    method SetExecutionContext(ctx: ExecutionContext?)
      modifies this`ctx
      ensures this.ctx == ctx
    {
      this.ctx := ctx;
    }

    /** clearMask: every entry of the mask becomes 1, row by row. */
    method ClearMask()
      requires Valid()
      modifies mask
      ensures AllOnes(mask[..])
    {
      var k := 0;
      var y := 0;
      while y < height
        invariant 0 <= y <= height && k == width * y
        invariant forall j :: 0 <= j < k ==> mask[j] == 1.0
      {
        NextRow(width, y, height);
        for x := 0 to width
          invariant k == width * y + x
          invariant forall j :: 0 <= j < k ==> mask[j] == 1.0
        {
          mask[k] := 1.0;
          k := k + 1;
        }
        y := y + 1;
      }
    }

    /**
     * setData: the bounding box of the selection, truncated to whole pixels
     * and one pixel larger than its extent, and a mask over it that is 1
     * everywhere when no overlay has a region of interest, and otherwise 1
     * exactly on the union of the regions.
     */
    method SetData(boundsX: real, boundsY: real, boundsWidth: real, boundsHeight: real, overlays: seq<Option<Region>>)
      requires 0.0 <= boundsWidth && 0.0 <= boundsHeight
      modifies this
      ensures width == JavaTruncate(boundsWidth) + 1 && height == JavaTruncate(boundsHeight) + 1
      ensures xOffset == JavaTruncate(boundsX) && yOffset == JavaTruncate(boundsY)
      ensures Valid() && fresh(mask)
      ensures pyramid == old(pyramid) && pyramidDepth == old(pyramidDepth) && ctx == old(ctx)
      ensures forall j :: 0 <= j < mask.Length ==>
        mask[j] == MaskValue(overlays, PixelX(j, width, xOffset), PixelY(j, width, yOffset))
    {
      width := JavaTruncate(boundsWidth) + 1;
      height := JavaTruncate(boundsHeight) + 1;
      xOffset := JavaTruncate(boundsX);
      yOffset := JavaTruncate(boundsY);
      mask := new real[width * height](_ => 0.0);
      var rois := CollectRegions(overlays);
      RegionsCover(overlays);
      if |rois| == 0 {
        ClearMask();
        return;
      }
      MarkRegions(mask, width, xOffset, yOffset, rois);
    }

    /**
     * buildPyramid: pushes the reductions of the mask, level 1 first, up to the
     * pyramid depth or until the work is canceled.
     */
    method BuildPyramid()
      requires Ready()
      modifies this`pyramid, ctx
      ensures old(Canceled(ctx)) ==> Canceled(ctx)
      ensures old(pyramid) <= pyramid && |pyramid| <= |old(pyramid)| + LevelCount(pyramidDepth)
      ensures Shaped(pyramid[|old(pyramid)|..], width, height)
      ensures old(Canceled(ctx)) ==> pyramid == old(pyramid)
      ensures !Canceled(ctx) ==> pyramid == old(pyramid) + MaskLevels(mask[..], width, height, LevelCount(pyramidDepth))
    {
      var pushed := BuildMaskLevels(mask[..], width, height, pyramidDepth, ctx);
      ghost var p0 := pyramid;
      pyramid := pyramid + pushed;
      assert pyramid[|p0|..] == pushed;
    }

    /** run: the mask precomputation, which is interruptible. */
    method Run()
      requires Ready()
      modifies this`pyramid, ctx
      ensures old(Canceled(ctx)) ==> Canceled(ctx)
      ensures old(pyramid) <= pyramid && |pyramid| <= |old(pyramid)| + LevelCount(pyramidDepth)
      ensures Shaped(pyramid[|old(pyramid)|..], width, height)
      ensures old(Canceled(ctx)) ==> pyramid == old(pyramid)
      ensures !Canceled(ctx) ==> pyramid == old(pyramid) + MaskLevels(mask[..], width, height, LevelCount(pyramidDepth))
    {
      BuildPyramid();
    }
  }
}
