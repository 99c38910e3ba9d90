/**
 * What the image and the mask share (TurboRegInterval): the bounding box of
 * the data, clipping of coordinates to it, the depth of the multiresolution
 * pyramid, and cancellation by the execution context that owns the work.
 */
module Interval {
  import opened Arith

  /** The smallest linear size of a level of the pyramid. */
  const MIN_SIZE: int := 12

  /** The bounding box of the data: `width` by `height` pixels from (xOffset, yOffset). */
  datatype Bounds = Bounds(width: int, height: int, xOffset: int, yOffset: int)
  {
    /** clipX(long): clamps to [xOffset, xOffset + width]; the upper end is included. The lower test comes first. */
    function ClipX(x: int): (r: int)
      ensures 0 <= width ==> xOffset <= r <= xOffset + width
      ensures xOffset <= x <= xOffset + width ==> r == x
      ensures x < xOffset ==> r == xOffset
      ensures xOffset <= x && x > xOffset + width ==> r == xOffset + width
    {
      if x < xOffset then xOffset else if x > xOffset + width then xOffset + width else x
    }

    /** clipY(long). */
    function ClipY(y: int): (r: int)
      ensures 0 <= height ==> yOffset <= r <= yOffset + height
      ensures yOffset <= y <= yOffset + height ==> r == y
      ensures y < yOffset ==> r == yOffset
      ensures yOffset <= y && y > yOffset + height ==> r == yOffset + height
    {
      if y < yOffset then yOffset else if y > yOffset + height then yOffset + height else y
    }

    /** clipX(double). */
    function ClipXReal(x: real): (r: real)
      ensures 0 <= width ==> xOffset as real <= r <= (xOffset + width) as real
      ensures xOffset as real <= x <= (xOffset + width) as real ==> r == x
      ensures x < xOffset as real ==> r == xOffset as real
      ensures xOffset as real <= x && x > (xOffset + width) as real ==> r == (xOffset + width) as real
    {
      if x < xOffset as real then xOffset as real
      else if x > (xOffset + width) as real then (xOffset + width) as real
      else x
    }

    /** clipY(double). */
    function ClipYReal(y: real): (r: real)
      ensures 0 <= height ==> yOffset as real <= r <= (yOffset + height) as real
      ensures yOffset as real <= y <= (yOffset + height) as real ==> r == y
      ensures y < yOffset as real ==> r == yOffset as real
      ensures yOffset as real <= y && y > (yOffset + height) as real ==> r == (yOffset + height) as real
    {
      if y < yOffset as real then yOffset as real
      else if y > (yOffset + height) as real then (yOffset + height) as real
      else y
    }
  }

  /** Clipping twice is clipping once. */
  lemma ClipIdempotent(b: Bounds, x: int, y: int, u: real, v: real)
    requires 0 <= b.width && 0 <= b.height
    ensures b.ClipX(b.ClipX(x)) == b.ClipX(x) && b.ClipY(b.ClipY(y)) == b.ClipY(y)
    ensures b.ClipXReal(b.ClipXReal(u)) == b.ClipXReal(u)
    ensures b.ClipYReal(b.ClipYReal(v)) == b.ClipYReal(v)
  {
  }

  /** The integer and the real clip agree on whole coordinates. */
  lemma ClipRealOfInt(b: Bounds, x: int, y: int)
    requires 0 <= b.width && 0 <= b.height
    ensures b.ClipXReal(x as real) == b.ClipX(x) as real
    ensures b.ClipYReal(y as real) == b.ClipY(y) as real
  {
  }

  /**
   * getPyramidDepth: one more level for every halving that leaves the source
   * and the target both at least 2 * MIN_SIZE wide and high before it.
   */
  method PyramidDepth(sw0: int, sh0: int, tw0: int, th0: int) returns (depth: int)
    ensures depth >= 1
    ensures depth == 1 <==> sw0 < 2 * MIN_SIZE || sh0 < 2 * MIN_SIZE || tw0 < 2 * MIN_SIZE || th0 < 2 * MIN_SIZE
    ensures forall d: nat :: 1 <= d < depth ==>
      HalvedTimes(sw0, d) >= MIN_SIZE && HalvedTimes(sh0, d) >= MIN_SIZE
      && HalvedTimes(tw0, d) >= MIN_SIZE && HalvedTimes(th0, d) >= MIN_SIZE
    ensures HalvedTimes(sw0, depth - 1) < 2 * MIN_SIZE || HalvedTimes(sh0, depth - 1) < 2 * MIN_SIZE
         || HalvedTimes(tw0, depth - 1) < 2 * MIN_SIZE || HalvedTimes(th0, depth - 1) < 2 * MIN_SIZE
  {
    var sw, sh, tw, th := sw0, sh0, tw0, th0;
    depth := 1;
    while 2 * MIN_SIZE <= sw && 2 * MIN_SIZE <= sh && 2 * MIN_SIZE <= tw && 2 * MIN_SIZE <= th
      invariant depth >= 1
      invariant sw == HalvedTimes(sw0, depth - 1) && sh == HalvedTimes(sh0, depth - 1)
      invariant tw == HalvedTimes(tw0, depth - 1) && th == HalvedTimes(th0, depth - 1)
      invariant depth > 1 ==> 2 * MIN_SIZE <= sw0 && 2 * MIN_SIZE <= sh0 && 2 * MIN_SIZE <= tw0 && 2 * MIN_SIZE <= th0
      invariant forall d: nat :: 1 <= d < depth ==>
        HalvedTimes(sw0, d) >= MIN_SIZE && HalvedTimes(sh0, d) >= MIN_SIZE
        && HalvedTimes(tw0, d) >= MIN_SIZE && HalvedTimes(th0, d) >= MIN_SIZE
      decreases sw
    {
      sw := JavaHalf(sw);
      sh := JavaHalf(sh);
      tw := JavaHalf(tw);
      th := JavaHalf(th);
      depth := depth + 1;
    }
  }

  /** The number of levels a pyramid of the given depth pushes onto its stack (the full-size level is not pushed). */
  function LevelCount(depth: int): nat
  {
    if depth > 1 then depth - 1 else 0
  }

  /** The owner of a computation, which may cancel it at any moment (Cancelable). */
  class ExecutionContext {
    var canceled: bool

    constructor ()
      ensures !canceled
    {
      canceled := false;
    }
  }

  /** Whether a computation run under ctx has been canceled; without a context it never is. */
  predicate Canceled(ctx: ExecutionContext?)
    reads ctx
  {
    ctx != null && ctx.canceled
  }

  /**
   * isCanceled. The owner may cancel between any two polls, which the model
   * writes as an arbitrary choice; once canceled, a context stays canceled.
   */
  method IsCanceled(ctx: ExecutionContext?) returns (b: bool)
    modifies ctx
    ensures b == Canceled(ctx)
    ensures ctx == null ==> !b
    ensures old(Canceled(ctx)) ==> b
  {
    if ctx == null {
      return false;
    }
    if !ctx.canceled {
      ctx.canceled := *;
    }
    b := ctx.canceled;
  }
}
