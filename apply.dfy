/**
 * Applying a registration to every plane of a stack (TurboRegApply): which
 * planes are transformed, in what order, and how the transformed values are
 * clamped to the channel's display range before they are written back.
 */
module Apply {
  import opened Wrappers

  /** A plane index is inside the extents `dims` of the axes beyond x and y. */
  predicate InRange(plane: seq<int>, dims: seq<nat>)
  {
    |plane| == |dims| && forall j :: 0 <= j < |plane| ==> 0 <= plane[j] < dims[j]
  }

  /** The number of planes: the product of the extents. */
  function Size(dims: seq<nat>): nat
  {
    if |dims| == 0 then 1 else dims[0] * Size(dims[1..])
  }

  /** The all-zero index of n axes. */
  function Zeros(n: nat): (r: seq<int>)
    ensures |r| == n && forall j :: 0 <= j < n ==> r[j] == 0
  {
    seq(n, _ => 0)
  }

  /**
   * One carry step of the plane odometer: the first digit is incremented;
   * a digit that reaches its extent becomes 0 and carries into the next.
   */
  function Next(plane: seq<int>, dims: seq<nat>): (r: seq<int>)
    requires |plane| == |dims|
    ensures |r| == |plane|
  {
    if |plane| == 0 then []
    else if plane[0] + 1 == dims[0] then [0] + Next(plane[1..], dims[1..])
    else [plane[0] + 1] + plane[1..]
  }

  /** The position of a plane in the odometer's order: digit 0 is the least significant. */
  function Rank(plane: seq<int>, dims: seq<nat>): (r: nat)
    requires InRange(plane, dims)
    ensures r < Size(dims)
  {
    if |plane| == 0 then 0
    else
      var rest := Rank(plane[1..], dims[1..]);
      RankStep(plane[0], dims[0], rest, Size(dims[1..]));
      plane[0] + dims[0] * rest
  }

  /** d + n * r stays below n * s when d < n and r < s. */
  lemma {:induction false} RankStep(d: int, n: int, r: int, s: int)
    requires 0 <= d < n && 0 <= r < s
    ensures 0 <= d + n * r < n * s
  {
    assert n * r <= n * (s - 1) by {
      MulLeft(n, r, s - 1);
    }
  }

  lemma {:induction false} MulLeft(n: int, a: int, b: int)
    requires 0 <= n && a <= b
    ensures n * a <= n * b
  {
  }

  /** The plane at a given position of the order. */
  function Unrank(dims: seq<nat>, r: nat): (p: seq<int>)
    requires r < Size(dims)
    ensures |p| == |dims|
    decreases |dims|
  {
    if |dims| == 0 then []
    else
      assert dims[0] > 0;
      UnrankStep(r, dims[0], Size(dims[1..]));
      [r % dims[0]] + Unrank(dims[1..], r / dims[0])
  }

  /** The quotient of a position by the first extent is a position of the other axes. */
  lemma {:induction false} UnrankStep(r: nat, n: nat, s: nat)
    requires n > 0 && r < n * s
    ensures r / n < s
  {
    var q := r / n;
    assert r == n * q + r % n;
    if q >= s {
      MulLeft(n, s, q);
      assert false;
    }
  }

  /** Unrank undoes Rank. */
  lemma {:induction false} UnrankRank(plane: seq<int>, dims: seq<nat>)
    requires InRange(plane, dims)
    ensures Unrank(dims, Rank(plane, dims)) == plane
    decreases |plane|
  {
    if |plane| > 0 {
      var rest := Rank(plane[1..], dims[1..]);
      var r := Rank(plane, dims);
      DivMod(plane[0], dims[0], rest);
      UnrankRank(plane[1..], dims[1..]);
      assert r % dims[0] == plane[0] && r / dims[0] == rest;
      assert Unrank(dims, r) == [plane[0]] + plane[1..];
    }
  }

  /** Rank undoes Unrank, and Unrank gives planes inside the extents. */
  lemma {:induction false} RankUnrank(dims: seq<nat>, r: nat)
    requires r < Size(dims)
    ensures InRange(Unrank(dims, r), dims)
    ensures Rank(Unrank(dims, r), dims) == r
    decreases |dims|
  {
    if |dims| > 0 {
      assert dims[0] > 0;
      UnrankStep(r, dims[0], Size(dims[1..]));
      RankUnrank(dims[1..], r / dims[0]);
      var p := Unrank(dims, r);
      assert p[1..] == Unrank(dims[1..], r / dims[0]);
      assert InRange(p, dims);
      RankPlace(p, dims);
      PlaceDivMod(r, dims[0]);
    }
  }

  /** The digit d followed by the higher position q, in base n. */
  function Place(d: int, n: int, q: int): int
  {
    d + n * q
  }

  lemma RankPlace(plane: seq<int>, dims: seq<nat>)
    requires InRange(plane, dims) && |plane| > 0
    ensures Rank(plane, dims) == Place(plane[0], dims[0], Rank(plane[1..], dims[1..]))
  {
  }

  lemma PlaceDivMod(r: int, n: int)
    requires n > 0
    ensures Place(r % n, n, r / n) == r
  {
  }

  /** (d + n * q) / n == q and (d + n * q) % n == d when 0 <= d < n. */
  lemma {:induction false} DivMod(d: int, n: int, q: int)
    requires 0 <= d < n
    ensures (d + n * q) / n == q && (d + n * q) % n == d
  {
    var x := d + n * q;
    var a, b := x / n, x % n;
    assert n * a + b == n * q + d;
    assert n * (a - q) == d - b by {
      MulSub(n, a, q);
    }
    if a - q >= 1 {
      MulLeft(n, 1, a - q);
      assert false;
    }
    if a - q <= -1 {
      MulLeft(n, a - q, -1);
      assert false;
    }
  }

  lemma {:induction false} MulSub(n: int, a: int, q: int)
    ensures n * (a - q) == n * a - n * q
  {
  }

  /** The arithmetic of a carry out of the first digit. */
  lemma {:induction false} CarryArith(n: int, rest: int, s: int)
    requires n > 0 && 0 <= rest < s
    ensures (n - 1) + n * rest + 1 == n * (rest + 1)
    ensures rest + 1 < s ==> n * (rest + 1) < n * s
    ensures rest + 1 == s ==> n * (rest + 1) == n * s
  {
    if rest + 1 < s {
      MulLeft(n, rest + 1, s - 1);
      assert n * (s - 1) == n * s - n;
    }
  }

  /**
   * One carry step moves a plane in range one position further in the
   * order, and from the last position back to the first; the plane stays in
   * range.
   */
  lemma {:induction false} NextRank(plane: seq<int>, dims: seq<nat>)
    requires InRange(plane, dims)
    ensures InRange(Next(plane, dims), dims)
    ensures Rank(Next(plane, dims), dims) ==
      if Rank(plane, dims) + 1 < Size(dims) then Rank(plane, dims) + 1 else 0
    decreases |plane|, 1
  {
    if |plane| > 0 {
      if plane[0] + 1 == dims[0] {
        NextRankCarry(plane, dims);
      } else {
        NextRankNoCarry(plane, dims);
      }
    }
  }

  /** NextRank when the first digit does not reach its extent. */
  lemma {:induction false} NextRankNoCarry(plane: seq<int>, dims: seq<nat>)
    requires InRange(plane, dims) && |plane| > 0 && plane[0] + 1 != dims[0]
    ensures InRange(Next(plane, dims), dims)
    ensures Rank(Next(plane, dims), dims) == Rank(plane, dims) + 1 && Rank(plane, dims) + 1 < Size(dims)
  {
    var n, rest, s := dims[0], Rank(plane[1..], dims[1..]), Size(dims[1..]);
    var next := Next(plane, dims);
    assert next == [plane[0] + 1] + plane[1..];
    assert next[1..] == plane[1..];
    assert Rank(next, dims) == (plane[0] + 1) + n * rest;
    RankStep(plane[0] + 1, n, rest, s);
  }

  /** NextRank when the first digit reaches its extent and carries. */
  lemma {:induction false} NextRankCarry(plane: seq<int>, dims: seq<nat>)
    requires InRange(plane, dims) && |plane| > 0 && plane[0] + 1 == dims[0]
    ensures InRange(Next(plane, dims), dims)
    ensures Rank(Next(plane, dims), dims) ==
      if Rank(plane, dims) + 1 < Size(dims) then Rank(plane, dims) + 1 else 0
    decreases |plane|, 0
  {
    var n, rest, s := dims[0], Rank(plane[1..], dims[1..]), Size(dims[1..]);
    var next := Next(plane, dims);
    var tail := Next(plane[1..], dims[1..]);
    NextRank(plane[1..], dims[1..]);
    assert next == [0] + tail;
    assert next[1..] == tail;
    CarryArith(n, rest, s);
    assert Rank(plane, dims) + 1 == n * (rest + 1);
    assert Rank(next, dims) == n * Rank(tail, dims[1..]);
  }

  /** The plane after k carry steps from the all-zero plane. */
  function Odometer(dims: seq<nat>, k: nat): (r: seq<int>)
    ensures |r| == |dims|
  {
    if k == 0 then Zeros(|dims|) else Next(Odometer(dims, k - 1), dims)
  }

  /** The plane run at iteration i of an "all stack frames" run: carry steps come before each plane. */
  function Visited(dims: seq<nat>, i: nat): (r: seq<int>)
    ensures |r| == |dims|
  {
    Odometer(dims, i + 1)
  }

  /** The all-zero plane of non-empty extents is the first in the order. */
  lemma {:induction false} RankZeros(dims: seq<nat>)
    requires forall j :: 0 <= j < |dims| ==> dims[j] > 0
    ensures InRange(Zeros(|dims|), dims) && Rank(Zeros(|dims|), dims) == 0
    decreases |dims|
  {
    if |dims| > 0 {
      RankZeros(dims[1..]);
      assert Zeros(|dims|)[1..] == Zeros(|dims| - 1);
    }
  }

  /** After k <= Size(dims) steps the odometer is at position k, or back at 0 after all of them. */
  lemma {:induction false} OdometerRank(dims: seq<nat>, k: nat)
    requires forall j :: 0 <= j < |dims| ==> dims[j] > 0
    requires k <= Size(dims)
    ensures InRange(Odometer(dims, k), dims)
    ensures Rank(Odometer(dims, k), dims) == if k < Size(dims) then k else 0
  {
    if k == 0 {
      RankZeros(dims);
    } else {
      OdometerRank(dims, k - 1);
      NextRank(Odometer(dims, k - 1), dims);
    }
  }

  /** The extents are all positive when their product is. */
  lemma {:induction false} PositiveExtents(dims: seq<nat>)
    requires Size(dims) > 0
    ensures forall j :: 0 <= j < |dims| ==> dims[j] > 0
    decreases |dims|
  {
    if |dims| > 0 {
      PositiveExtents(dims[1..]);
      assert dims[0] > 0;
      forall j | 1 <= j < |dims|
        ensures dims[j] > 0
      {
        assert dims[j] == dims[1..][j - 1];
      }
    }
  }

  /**
   * The Size(dims) planes visited after steps 1, 2, ..., Size(dims): each
   * plane in range exactly once, the all-zero plane last.
   */
  lemma {:induction false} OdometerVisitsEachPlaneOnce(dims: seq<nat>)
    ensures forall i, j :: 0 <= i < j < Size(dims) ==> Visited(dims, i) != Visited(dims, j)
    ensures forall p :: InRange(p, dims) ==> exists i :: 0 <= i < Size(dims) && Visited(dims, i) == p
    ensures forall i :: 0 <= i < Size(dims) ==> InRange(Visited(dims, i), dims)
    ensures Size(dims) > 0 ==> Visited(dims, Size(dims) - 1) == Zeros(|dims|)
  {
    var n := Size(dims);
    forall p | InRange(p, dims)
      ensures exists i :: 0 <= i < n && Visited(dims, i) == p
    {
      var r := Rank(p, dims);
      PositiveExtents(dims);
      var i := if r == 0 then n - 1 else r - 1;
      OdometerRank(dims, i + 1);
      UnrankRank(p, dims);
      UnrankRank(Visited(dims, i), dims);
      assert Visited(dims, i) == p;
    }
    if n > 0 {
      PositiveExtents(dims);
      forall i | 0 <= i < n
        ensures InRange(Visited(dims, i), dims)
        ensures Rank(Visited(dims, i), dims) == if i + 1 < n then i + 1 else 0
      {
        OdometerRank(dims, i + 1);
      }
      RankZeros(dims);
      UnrankRank(Visited(dims, n - 1), dims);
      UnrankRank(Zeros(|dims|), dims);
    }
  }

  /**
   * A carry step zeroes the leading digits that reach their extent,
   * increments the first that does not, and keeps the digits after it.
   */
  lemma {:induction false} NextAt(plane: seq<int>, dims: seq<nat>, j: nat)
    requires |plane| == |dims| && j <= |plane|
    requires forall k :: 0 <= k < j ==> plane[k] + 1 == dims[k]
    ensures forall k :: 0 <= k < j ==> Next(plane, dims)[k] == 0
    ensures j < |plane| && plane[j] + 1 != dims[j] ==>
      Next(plane, dims)[j] == plane[j] + 1 && forall k :: j < k < |plane| ==> Next(plane, dims)[k] == plane[k]
    decreases j
  {
    if j > 0 {
      var next, tail := Next(plane, dims), Next(plane[1..], dims[1..]);
      NextAt(plane[1..], dims[1..], j - 1);
      assert next == [0] + tail;
      forall k | 1 <= k < |plane|
        ensures next[k] == tail[k - 1]
      {
      }
    }
  }

  /** The carry loop: increment plane[0], zeroing and carrying while a digit reaches its extent. */
  method Increment(plane: array<int>, dims: seq<nat>)
    requires plane.Length == |dims|
    modifies plane
    ensures plane[..] == Next(old(plane[..]), dims)
  {
    ghost var p0 := plane[..];
    for j := 0 to plane.Length
      invariant forall k :: 0 <= k < j ==> p0[k] + 1 == dims[k]
      invariant forall k :: 0 <= k < plane.Length ==> plane[k] == if k < j then 0 else p0[k]
    {
      plane[j] := plane[j] + 1;
      if plane[j] == dims[j] {
        plane[j] := 0;
      } else {
        NextAt(p0, dims, j);
        assert plane[..] == Next(p0, dims);
        return;
      }
    }
    NextAt(p0, dims, plane.Length);
    assert plane[..] == Next(p0, dims);
  }

  /** The number of planes of a stack: the product of the extents beyond x and y. */
  method PlaneCount(dims: seq<nat>) returns (nPlanes: nat)
    ensures nPlanes == Size(dims)
  {
    nPlanes := 1;
    for i := 0 to |dims|
      invariant nPlanes * Size(dims[i..]) == Size(dims)
    {
      assert dims[i..][1..] == dims[i + 1..];
      assert nPlanes * Size(dims[i..]) == (nPlanes * dims[i]) * Size(dims[i + 1..]);
      nPlanes := nPlanes * dims[i];
    }
    assert dims[|dims|..] == [];
  }

  /** The planes an "all stack frames" run transforms: a carry step, then the plane, Size(dims) times. */
  method AllFramePlanes(dims: seq<nat>) returns (planes: seq<seq<int>>)
    ensures |planes| == Size(dims)
    ensures forall i :: 0 <= i < |planes| ==> planes[i] == Visited(dims, i)
  {
    var nPlanes := PlaneCount(dims);
    var plane := new int[|dims|](_ => 0);
    assert plane[..] == Odometer(dims, 0);
    planes := [];
    for i := 0 to nPlanes
      invariant plane.Length == |dims| && plane[..] == Odometer(dims, i)
      invariant |planes| == i && forall k :: 0 <= k < i ==> planes[k] == Visited(dims, k)
    {
      Increment(plane, dims);
      planes := planes + [plane[..]];
    }
  }

  /**
   * The planes run() hands to a worker, each as a copy: the only plane of
   * an image without further axes; every plane, in odometer order; or the
   * displayed plane, once, or once for every channel when there is a
   * channel axis (an axis number counting x and y).
   */
  method Planes(dims: seq<nat>, allFrames: bool, position: seq<int>, channelAxis: int) returns (planes: seq<seq<int>>)
    requires |position| == |dims|
    requires channelAxis >= 0 ==> 2 <= channelAxis < |dims| + 2
    ensures |dims| == 0 ==> planes == [[]]
    ensures |dims| > 0 && allFrames ==>
      |planes| == Size(dims) && forall i :: 0 <= i < |planes| ==> planes[i] == Visited(dims, i)
    ensures |dims| > 0 && !allFrames && channelAxis < 0 ==> planes == [position]
    ensures |dims| > 0 && !allFrames && channelAxis >= 0 ==>
      |planes| == dims[channelAxis - 2]
      && forall i :: 0 <= i < |planes| ==> planes[i] == position[channelAxis - 2 := i]
  {
    if |dims| == 0 {
      planes := [[]];
    } else if allFrames {
      planes := AllFramePlanes(dims);
    } else {
      var plane := new int[|dims|];
      for i := 0 to |dims|
        invariant forall k :: 0 <= k < i ==> plane[k] == position[k]
      {
        plane[i] := position[i];
      }
      assert plane[..] == position;
      if channelAxis < 0 {
        planes := [plane[..]];
      } else {
        var c := channelAxis - 2;
        planes := [];
        for i := 0 to dims[c]
          invariant |planes| == i && forall k :: 0 <= k < i ==> planes[k] == position[c := k]
          invariant forall k :: 0 <= k < plane.Length && k != c ==> plane[k] == position[k]
        {
          plane[c] := i;
          assert plane[..] == position[c := i];
          planes := planes + [plane[..]];
        }
      }
    }
  }

  /** max(lo, min(hi, v)): the written value, kept within the channel's range. */
  function Clamp(lo: real, hi: real, v: real): (r: real)
    ensures lo <= hi ==> lo <= r <= hi
    ensures lo <= v <= hi ==> r == v
    ensures v < lo ==> r == lo
    ensures lo <= hi && hi < v ==> r == hi
  {
    var m := if hi < v then hi else v;
    if lo > m then lo else m
  }

  /** For a channel range, clamping is idempotent and does not change the order of two values. */
  lemma {:induction false} ClampIdempotentMonotone(lo: real, hi: real, u: real, v: real)
    requires lo <= hi
    ensures Clamp(lo, hi, Clamp(lo, hi, v)) == Clamp(lo, hi, v)
    ensures u <= v ==> Clamp(lo, hi, u) <= Clamp(lo, hi, v)
  {
  }

  /** The range values are clamped to: the channel's display range, or 0 to 255 without a channel axis. */
  function ChannelRange(channelRange: Option<(real, real)>): (real, real)
  {
    match channelRange
    case None => (0.0, 255.0)
    case Some(range) => range
  }

  /**
   * The copy back: every transformed value, clamped to the channel's display
   * range (or to 0 to 255 without a channel), into the plane in the same order.
   */
  method WriteClamped(target: array<real>, buffer: seq<real>, channelRange: Option<(real, real)>)
    requires target.Length == |buffer|
    modifies target
    ensures forall i :: 0 <= i < target.Length ==>
      target[i] == Clamp(ChannelRange(channelRange).0, ChannelRange(channelRange).1, buffer[i])
    ensures channelRange.None? ==> forall i :: 0 <= i < target.Length ==> 0.0 <= target[i] <= 255.0
    ensures channelRange.Some? && channelRange.value.0 <= channelRange.value.1 ==>
      forall i :: 0 <= i < target.Length ==> channelRange.value.0 <= target[i] <= channelRange.value.1
  {
    var (lo, hi) := ChannelRange(channelRange);
    var i := 0;
    while i < |buffer|
      invariant 0 <= i <= |buffer|
      invariant forall k :: 0 <= k < i ==> target[k] == Clamp(lo, hi, buffer[k])
    {
      target[i] := Clamp(lo, hi, buffer[i]);
      i := i + 1;
    }
  }
}
