/**
 * The landmarks of a registration (TurboRegPointHandler): how many a model
 * needs, where they start, how a move is clipped and, for a rigid body,
 * refused, and how they are written to and read back from a results table.
 */
module PointHandler {
  import opened Wrappers
  import opened Interval
  import opened Transformation
  import opened Image

  /** The largest number of landmarks any model uses. */
  const NUM_POINTS: int := 4

  /** Half the size of a drawn landmark; two rigid-body landmarks are kept more than twice this apart. */
  const CROSS_HALFSIZE: int := 5

  /** 0.5 * (sqrt(5) - 1), written as the double it evaluates to. */
  const GOLDEN_RATIO: real := 0.6180339887498949

  const SOURCE_X: string := "sourceX"
  const SOURCE_Y: string := "sourceY"
  const TARGET_X: string := "targetX"
  const TARGET_Y: string := "targetY"

  /** A landmark in pixel units. */
  datatype Point = Point(x: real, y: real)

  /** Coordinate j of p: 0 is x, anything else is y. */
  function Coord(p: Point, j: int): real
  {
    if j == 0 then p.x else p.y
  }

  /** p with coordinate j replaced by v. */
  function WithCoord(p: Point, j: int, v: real): (q: Point)
    ensures Coord(q, j) == v
    ensures j == 0 ==> q.y == p.y
    ensures j != 0 ==> q.x == p.x
  {
    if j == 0 then p.(x := v) else p.(y := v)
  }

  /** pointCount: the landmarks that pin down each model. */
  function PointCount(t: TransformationType): (r: nat)
    ensures 1 <= r <= NUM_POINTS
    ensures r == 1 <==> t == Translation
    ensures r == 2 <==> t == ScaledRotation
    ensures r == 4 <==> t == Bilinear
    ensures r == 3 <==> t == RigidBody || t == Affine
  {
    match t
    case Translation => 1
    case RigidBody => 3
    case ScaledRotation => 2
    case Affine => 3
    case Bilinear => 4
  }

  /**
   * The layout setTransformation starts from on a width-by-height image:
   * the middle, and the golden-ratio insets from each border.
   */
  function DefaultPoints(t: TransformationType, width: int, height: int): (r: seq<Point>)
    ensures |r| == PointCount(t)
  {
    var w, h := width as real, height as real;
    var xMid, yMid := 0.5 * w, 0.5 * h;
    var xMin, yMin := 0.25 * GOLDEN_RATIO * w, 0.25 * GOLDEN_RATIO * h;
    var xMax, yMax := w - 0.25 * GOLDEN_RATIO * w, h - 0.25 * GOLDEN_RATIO * h;
    match t
    case Translation => [Point(xMid, yMid)]
    case RigidBody => [Point(xMid, yMid), Point(xMid, yMin), Point(xMid, yMax)]
    case ScaledRotation => [Point(xMin, yMid), Point(xMax, yMid)]
    case Affine => [Point(xMid, yMin), Point(xMin, yMax), Point(xMax, yMax)]
    case Bilinear => [Point(xMin, yMin), Point(xMin, yMax), Point(xMax, yMin), Point(xMax, yMax)]
  }

  /** A point of the closed box [0, width] x [0, height]. */
  predicate InImage(p: Point, width: int, height: int)
  {
    0.0 <= p.x <= width as real && 0.0 <= p.y <= height as real
  }

  /** Every starting landmark lies on the image. */
  lemma {:induction false} DefaultPointsInImage(t: TransformationType, width: int, height: int)
    requires 0 <= width && 0 <= height
    ensures forall i :: 0 <= i < |DefaultPoints(t, width, height)| ==> InImage(DefaultPoints(t, width, height)[i], width, height)
  {
  }

  /** On an image that is not empty, no two starting landmarks coincide. */
  lemma {:induction false} DefaultPointsDistinct(t: TransformationType, width: int, height: int)
    requires 0 < width && 0 < height
    ensures forall i, j :: 0 <= i < j < |DefaultPoints(t, width, height)| ==>
      DefaultPoints(t, width, height)[i] != DefaultPoints(t, width, height)[j]
  {
  }

  /**
   * The starting layout is symmetric about the vertical centre line of the
   * image: mirroring any landmark gives a landmark of the same layout.
   */
  lemma {:induction false} DefaultPointsSymmetric(t: TransformationType, width: int, height: int, i: int)
    requires 0 <= i < |DefaultPoints(t, width, height)|
    ensures exists k ::
      0 <= k < |DefaultPoints(t, width, height)| && DefaultPoints(t, width, height)[k] == Mirrored(DefaultPoints(t, width, height)[i], width)
  {
    var r := DefaultPoints(t, width, height);
    match t
    case Translation =>
      assert r[i] == Mirrored(r[i], width);
    case RigidBody =>
      assert r[i] == Mirrored(r[i], width);
    case ScaledRotation =>
      assert r[1 - i] == Mirrored(r[i], width);
    case Affine =>
      var k := if i == 0 then 0 else 3 - i;
      assert r[k] == Mirrored(r[i], width);
    case Bilinear =>
      var k := (i + 2) % 4;
      assert r[k] == Mirrored(r[i], width);
  }

  /** p mirrored about the vertical centre line of an image `width` wide. */
  function Mirrored(p: Point, width: int): Point
  {
    Point(width as real - p.x, p.y)
  }

  /** The squared distance between two landmarks. */
  function Dist2(p: Point, q: Point): (r: real)
    ensures r >= 0.0
  {
    (q.x - p.x) * (q.x - p.x) + (q.y - p.y) * (q.y - p.y)
  }

  /** Distance does not depend on the order of the two landmarks. */
  lemma {:induction false} Dist2Symmetric(p: Point, q: Point)
    ensures Dist2(p, q) == Dist2(q, p)
  {
    assert (q.x - p.x) * (q.x - p.x) == (p.x - q.x) * (p.x - q.x);
    assert (q.y - p.y) * (q.y - p.y) == (p.y - q.y) * (p.y - q.y);
  }

  /**
   * Whether movePoint refuses to put the current landmark at p: of a rigid
   * body, landmark 1 or 2 may not come within 2 * CROSS_HALFSIZE of the
   * landmark 3 - current. The source compares half the distance with
   * CROSS_HALFSIZE; for distances that is the same as comparing the square
   * of the distance with (2 * CROSS_HALFSIZE) squared.
   */
  predicate Refused(t: TransformationType, points: seq<Point>, current: int, p: Point)
    requires t == RigidBody && current != 0 ==> 0 <= 3 - current < |points|
  {
    t == RigidBody && current != 0
    && Dist2(points[3 - current], p) <= (2 * CROSS_HALFSIZE * 2 * CROSS_HALFSIZE) as real
  }

  /** The landmarks after movePoint(x, y) on an image with bounds b. */
  function Moved(t: TransformationType, points: seq<Point>, current: int, b: Bounds, x: real, y: real): (r: seq<Point>)
    requires 0 <= b.width && 0 <= b.height
    requires 0 <= current < |points|
    requires t == RigidBody && current != 0 ==> 0 <= 3 - current < |points|
    ensures |r| == |points|
    ensures forall i :: 0 <= i < |points| && i != current ==> r[i] == points[i]
  {
    var p := Point(b.ClipXReal(x), b.ClipYReal(y));
    if Refused(t, points, current, p) then points else points[current := p]
  }

  /** Where the current landmark lands is always inside the bounds; it either moves there or stays put. */
  lemma {:induction false} MovedClipped(t: TransformationType, points: seq<Point>, current: int, b: Bounds, x: real, y: real)
    requires 0 <= b.width && 0 <= b.height
    requires 0 <= current < |points|
    requires t == RigidBody && current != 0 ==> 0 <= 3 - current < |points|
    ensures var r := Moved(t, points, current, b, x, y);
      r == points || (r[current].x == b.ClipXReal(x) && r[current].y == b.ClipYReal(y))
    ensures var r := Moved(t, points, current, b, x, y);
      r[current] != points[current] ==>
        b.xOffset as real <= r[current].x <= (b.xOffset + b.width) as real
        && b.yOffset as real <= r[current].y <= (b.yOffset + b.height) as real
    ensures t != RigidBody || current == 0 ==>
      Moved(t, points, current, b, x, y)[current] == Point(b.ClipXReal(x), b.ClipYReal(y))
  {
  }

  /** Of a rigid body, landmarks 1 and 2 are more than 2 * CROSS_HALFSIZE apart. */
  predicate Separated(points: seq<Point>)
  {
    |points| == 3 ==> Dist2(points[1], points[2]) > (2 * CROSS_HALFSIZE * 2 * CROSS_HALFSIZE) as real
  }

  /**
   * A move of landmark 1 or 2 of a rigid body always leaves the two apart,
   * whatever they were before; a move of landmark 0 keeps them as they were.
   */
  lemma {:induction false} MovedKeepsSeparated(points: seq<Point>, current: int, b: Bounds, x: real, y: real)
    requires 0 <= b.width && 0 <= b.height
    requires |points| == 3 && 0 <= current < 3
    requires current == 0 ==> Separated(points)
    requires current != 0 ==> Separated(points) || Moved(RigidBody, points, current, b, x, y) != points
    ensures Separated(Moved(RigidBody, points, current, b, x, y))
  {
    var p := Point(b.ClipXReal(x), b.ClipYReal(y));
    var r := Moved(RigidBody, points, current, b, x, y);
    if current != 0 && !Refused(RigidBody, points, current, p) {
      assert r == points[current := p];
      if current == 1 {
        Dist2Symmetric(points[2], p);
        assert Dist2(r[1], r[2]) == Dist2(points[2], p);
      } else {
        assert r[1] == points[1] && r[2] == p;
      }
    }
  }

  /** Repeating a move changes nothing more. */
  lemma {:induction false} MovedIdempotent(t: TransformationType, points: seq<Point>, current: int, b: Bounds, x: real, y: real)
    requires 0 <= b.width && 0 <= b.height
    requires 0 <= current < |points|
    requires t == RigidBody && current != 0 ==> 0 <= 3 - current < |points|
    ensures Moved(t, Moved(t, points, current, b, x, y), current, b, x, y) == Moved(t, points, current, b, x, y)
  {
    var p := Point(b.ClipXReal(x), b.ClipYReal(y));
    var r := Moved(t, points, current, b, x, y);
    if t == RigidBody && current != 0 {
      assert r[3 - current] == points[3 - current];
    }
  }

  /** The table column names for the target image, or for the source image. */
  function ColumnNames(isTarget: bool): (r: (string, string))
    ensures r.0 != r.1
  {
    if isTarget then (TARGET_X, TARGET_Y) else (SOURCE_X, SOURCE_Y)
  }

  /** Name j of a pair of column names. */
  function ColumnName(names: (string, string), j: int): string
  {
    if j == 0 then names.0 else names.1
  }

  /**
   * A results table: its row count and its columns by name; a cell is a
   * number or empty.
   */
  datatype Table = Table(rowCount: nat, columns: map<string, seq<Option<real>>>)

  /** Every column of t is as long as t has rows. */
  predicate Shaped(t: Table)
  {
    forall name :: name in t.columns ==> |t.columns[name]| == t.rowCount
  }

  /** A column cut to, or padded with zero cells up to, n rows. */
  function Resized(c: seq<Option<real>>, n: nat): (r: seq<Option<real>>)
    ensures |r| == n
    ensures forall i :: 0 <= i < n ==> r[i] == if i < |c| then c[i] else Some(0.0)
  {
    if |c| >= n then c[..n] else c + seq(n - |c|, _ => Some(0.0))
  }

  /** setRowCount(n): the table has n rows and each column keeps its first n cells. */
  function WithRowCount(t: Table, n: nat): (r: Table)
    ensures r.rowCount == n && r.columns.Keys == t.columns.Keys && Shaped(r)
  {
    Table(n, map name | name in t.columns :: Resized(t.columns[name], n))
  }

  /** Column c with cell i, for every landmark i, set to coordinate j of that landmark plus offset. */
  function Written(c: seq<Option<real>>, points: seq<Point>, j: int, offset: real): (r: seq<Option<real>>)
    requires |points| <= |c|
    ensures |r| == |c|
  {
    seq(|c|, i requires 0 <= i < |c| => if i < |points| then Some(Coord(points[i], j) + offset) else c[i])
  }

  /** The table after the first `count` coordinate columns have been written. */
  function WrittenColumns(t: Table, names: (string, string), points: seq<Point>, offset: Point, n: nat, count: nat): (r: Table)
    requires names.0 in t.columns && names.1 in t.columns
    requires |points| <= n && count <= 2
    ensures r.rowCount == n && r.columns.Keys == t.columns.Keys && Shaped(r)
    decreases count
  {
    if count == 0 then WithRowCount(t, n)
    else
      var prev := WrittenColumns(t, names, points, offset, n, count - 1);
      var name := ColumnName(names, count - 1);
      prev.(columns := prev.columns[name := Written(prev.columns[name], points, count - 1, Coord(offset, count - 1))])
  }

  /** What getResults leaves in a table. */
  function Results(t: Table, names: (string, string), points: seq<Point>, offset: Point, n: nat): (r: Table)
    requires names.0 in t.columns && names.1 in t.columns
    requires |points| <= n
  {
    WrittenColumns(t, names, points, offset, n, 2)
  }

  /**
   * The results table has n rows; its two coordinate columns hold the
   * landmarks shifted by the offset, then what was there; every other
   * column keeps its first n cells.
   */
  lemma {:induction false} ResultsCells(t: Table, names: (string, string), points: seq<Point>, offset: Point, n: nat)
    requires names.0 in t.columns && names.1 in t.columns && names.0 != names.1
    requires |points| <= n
    ensures var r := Results(t, names, points, offset, n);
      r.rowCount == n && r.columns.Keys == t.columns.Keys && Shaped(r)
    ensures var r := Results(t, names, points, offset, n);
      forall i :: 0 <= i < |points| ==>
        r.columns[names.0][i] == Some(points[i].x + offset.x) && r.columns[names.1][i] == Some(points[i].y + offset.y)
    ensures var r := Results(t, names, points, offset, n);
      forall i :: |points| <= i < n ==>
        r.columns[names.0][i] == Resized(t.columns[names.0], n)[i]
        && r.columns[names.1][i] == Resized(t.columns[names.1], n)[i]
    ensures var r := Results(t, names, points, offset, n);
      forall name :: name in t.columns && name != names.0 && name != names.1 ==>
        r.columns[name] == Resized(t.columns[name], n)
  {
    var r0 := WithRowCount(t, n);
    var r1 := WrittenColumns(t, names, points, offset, n, 1);
    assert r1.columns[names.1] == r0.columns[names.1];
  }

  /** The value a cell contributes to a landmark read with the given offset; an empty cell leaves 0. */
  function CellValue(cell: Option<real>, offset: real): real
  {
    match cell
    case Some(v) => v - offset
    case None => 0.0
  }

  /**
   * The landmarks the table constructor reads from t, or None when t does
   * not fit (a different row count, or a coordinate column missing).
   */
  function ReadPoints(t: Table, names: (string, string), offset: Point, n: nat): (r: Option<seq<Point>>)
    requires Shaped(t)
    ensures r.Some? <==> t.rowCount == n && names.0 in t.columns && names.1 in t.columns
    ensures r.Some? ==> |r.value| == n
  {
    if t.rowCount != n || names.0 !in t.columns || names.1 !in t.columns then None
    else
      var cx, cy := t.columns[names.0], t.columns[names.1];
      Some(seq(n, i requires 0 <= i < n => Point(CellValue(cx[i], offset.x), CellValue(cy[i], offset.y))))
  }

  /** Reading back what getResults wrote, with the same offset and count, gives the landmarks again. */
  lemma {:induction false} ReadResults(t: Table, names: (string, string), points: seq<Point>, offset: Point, n: nat)
    requires names.0 in t.columns && names.1 in t.columns && names.0 != names.1
    requires |points| == n
    ensures Shaped(Results(t, names, points, offset, n))
    ensures ReadPoints(Results(t, names, points, offset, n), names, offset, n) == Some(points)
  {
    ResultsCells(t, names, points, offset, n);
    var w := Results(t, names, points, offset, n);
    assert w.rowCount == n && names.0 in w.columns && names.1 in w.columns;
    var r := ReadPoints(w, names, offset, n);
    assert |r.value| == |points|;
    forall i | 0 <= i < n
      ensures r.value[i] == points[i]
    {
      assert w.columns[names.0][i] == Some(points[i].x + offset.x);
      assert w.columns[names.1][i] == Some(points[i].y + offset.y);
    }
    assert r.value == points;
  }

  /**
   * Conversely, writing what was read from a fitting table with no empty
   * coordinate cell leaves that table as it was.
   */
  lemma {:induction false} ResultsOfRead(t: Table, names: (string, string), offset: Point, n: nat)
    requires Shaped(t) && t.rowCount == n && names.0 in t.columns && names.1 in t.columns && names.0 != names.1
    requires forall i :: 0 <= i < n ==> t.columns[names.0][i].Some? && t.columns[names.1][i].Some?
    ensures Results(t, names, ReadPoints(t, names, offset, n).value, offset, n) == t
  {
    var points := ReadPoints(t, names, offset, n).value;
    var r := Results(t, names, points, offset, n);
    ResultsCells(t, names, points, offset, n);
    forall name | name in t.columns
      ensures r.columns[name] == t.columns[name]
    {
      assert Resized(t.columns[name], n) == t.columns[name];
      if name == names.0 || name == names.1 {
        forall i | 0 <= i < n
          ensures r.columns[name][i] == t.columns[name][i]
        {
          assert t.columns[name][i] == Some(t.columns[name][i].value);
        }
      }
    }
    assert r.columns == t.columns;
  }

  /** The landmarks the table constructor ends with: those read, or the starting layout. */
  function Loaded(table: Option<Table>, names: (string, string), offset: Point, t: TransformationType, width: int, height: int): (r: seq<Point>)
    requires table.Some? ==> Shaped(table.value)
    ensures |r| == PointCount(t)
  {
    if table.None? then DefaultPoints(t, width, height)
    else match ReadPoints(table.value, names, offset, PointCount(t))
      case None => DefaultPoints(t, width, height)
      case Some(p) => p
  }

  /** The landmarks of one image of a registration. */
  class TurboRegPointHandler {
    var precisionPoint: array<Point>
    var transformation: TransformationType
    const interval: TurboRegImage?
    var currentPoint: int
    var interactive: bool
    const xOffset: real
    const yOffset: real

    /** The offset getResults adds and the table constructor subtracts. */
    function Offset(): Point
      reads this
    {
      Point(xOffset, yOffset)
    }

    /** The bounds moves are clipped to: those of the image, as it is now. */
    function ClipBounds(): (b: Bounds)
      requires interval != null
      reads this, interval
      ensures b.width == interval.width && b.height == interval.height
    {
      Bounds(interval.width, interval.height, interval.xOffset, interval.yOffset)
    }

    /** Landmarks for a model on an image: as many as the model needs, all at the origin, with no offset. */
    constructor ForInterval(transformation: TransformationType, interval: TurboRegImage?)
      ensures fresh(precisionPoint) && precisionPoint.Length == PointCount(transformation)
      ensures forall i :: 0 <= i < precisionPoint.Length ==> precisionPoint[i] == Point(0.0, 0.0)
      ensures this.transformation == transformation && this.interval == interval
      ensures xOffset == 0.0 && yOffset == 0.0 && currentPoint == 0 && interactive
    {
      this.transformation := transformation;
      precisionPoint := new Point[PointCount(transformation)](_ => Point(0.0, 0.0));
      this.interval := interval;
      xOffset, yOffset := 0.0, 0.0;
      currentPoint, interactive := 0, true;
    }

    /** Landmarks given by the caller, shared with it, on no image. */
    constructor FromPoints(precisionPoint: array<Point>, transformation: TransformationType, xOffset: real, yOffset: real)
      ensures this.precisionPoint == precisionPoint && this.transformation == transformation
      ensures interval == null && this.xOffset == xOffset && this.yOffset == yOffset
      ensures currentPoint == 0 && !interactive
    {
      this.transformation := transformation;
      this.precisionPoint := precisionPoint;
      this.interval := null;
      interactive := false;
      this.xOffset, this.yOffset := xOffset, yOffset;
      currentPoint := 0;
    }

    /**
     * Landmarks read from a results table, less the offset of the image; a
     * missing table, a row count other than the model's or a missing
     * coordinate column gives the starting layout instead.
     */
    constructor FromTable(transformation: TransformationType, resultsTable: Option<Table>, interval: TurboRegImage)
      requires resultsTable.Some? ==> Shaped(resultsTable.value)
      ensures this.transformation == transformation && this.interval == interval
      ensures xOffset == interval.xOffset as real && yOffset == interval.yOffset as real
      ensures fresh(precisionPoint)
      ensures precisionPoint[..] == Loaded(resultsTable, ColumnNames(interval.isTarget), Offset(),
        transformation, interval.width, interval.height)
      ensures currentPoint == 0 && interactive
    {
      var isTarget := interval.isTarget;
      var nPoints := PointCount(transformation);
      this.transformation := transformation;
      precisionPoint := new Point[nPoints](_ => Point(0.0, 0.0));
      this.interval := interval;
      xOffset, yOffset := interval.xOffset as real, interval.yOffset as real;
      currentPoint, interactive := 0, true;
      new;
      var offset := Point(xOffset, yOffset);
      if resultsTable.None? {
        SetTransformation(transformation);
        return;
      }
      var table := resultsTable.value;
      var names := ColumnNames(isTarget);
      if table.rowCount != nPoints || names.0 !in table.columns || names.1 !in table.columns {
        SetTransformation(transformation);
      } else {
        ReadColumns(table, names, offset);
      }
    }

    /** The read loop of the table constructor: each coordinate column in turn, one cell per landmark. */
    method ReadColumns(table: Table, names: (string, string), offset: Point)
      requires Shaped(table) && table.rowCount == precisionPoint.Length
      requires names.0 in table.columns && names.1 in table.columns
      requires forall i :: 0 <= i < precisionPoint.Length ==> precisionPoint[i] == Point(0.0, 0.0)
      modifies precisionPoint
      ensures Some(precisionPoint[..]) == ReadPoints(table, names, offset, precisionPoint.Length)
    {
      var n := precisionPoint.Length;
      for j := 0 to 2
        invariant forall i :: 0 <= i < n ==>
          precisionPoint[i].x == (if j > 0 then CellValue(table.columns[names.0][i], offset.x) else 0.0)
          && precisionPoint[i].y == (if j > 1 then CellValue(table.columns[names.1][i], offset.y) else 0.0)
      {
        var c := table.columns[ColumnName(names, j)];
        ghost var before := precisionPoint[..];
        for i := 0 to n
          invariant forall k :: 0 <= k < n ==>
            precisionPoint[k] == if k < i then WithCoord(before[k], j, CellValue(c[k], Coord(offset, j))) else before[k]
        {
          var value := c[i];
          if value.Some? {
            precisionPoint[i] := WithCoord(precisionPoint[i], j, value.value - Coord(offset, j));
          }
        }
      }
      ReadDone(precisionPoint[..], table, names, offset);
    }

    /** getResults: the landmarks plus the offset, in the columns of this image, in a table of pointCount rows. */
    method GetResults(resultsTable: Table) returns (r: Table)
      requires interval != null
      requires ColumnNames(interval.isTarget).0 in resultsTable.columns && ColumnNames(interval.isTarget).1 in resultsTable.columns
      requires precisionPoint.Length <= PointCount(transformation)
      ensures r == Results(resultsTable, ColumnNames(interval.isTarget), precisionPoint[..], Offset(), PointCount(transformation))
    {
      var names := ColumnNames(interval.isTarget);
      var offset := Point(xOffset, yOffset);
      var n := PointCount(transformation);
      r := WithRowCount(resultsTable, n);
      for j := 0 to 2
        invariant r == WrittenColumns(resultsTable, names, precisionPoint[..], offset, n, j)
      {
        var name := ColumnName(names, j);
        var c := r.columns[name];
        ghost var c0 := c;
        for i := 0 to precisionPoint.Length
          invariant |c| == n
          invariant forall k :: 0 <= k < n ==>
            c[k] == if k < i then Some(Coord(precisionPoint[k], j) + Coord(offset, j)) else c0[k]
        {
          c := c[i := Some(Coord(precisionPoint[i], j) + Coord(offset, j))];
        }
        assert c == Written(c0, precisionPoint[..], j, Coord(offset, j));
        r := r.(columns := r.columns[name := c]);
      }
    }

    /** The current landmark (getPoint). */
    function GetPoint(): (p: Point)
      requires 0 <= currentPoint < precisionPoint.Length
      reads this, precisionPoint
      ensures p in precisionPoint[..]
    {
      precisionPoint[currentPoint]
    }

    /** movePoint: move the current landmark to (x, y) clipped to the image, unless a rigid body refuses it. */
    method MovePoint(x: real, y: real)
      requires interval != null && 0 <= interval.width && 0 <= interval.height
      requires 0 <= currentPoint < precisionPoint.Length
      requires transformation == RigidBody && currentPoint != 0 ==> 0 <= 3 - currentPoint < precisionPoint.Length
      modifies this`interactive, precisionPoint
      ensures interactive
      ensures precisionPoint[..] == Moved(transformation, old(precisionPoint[..]), currentPoint, ClipBounds(), x, y)
    {
      ghost var target := Moved(transformation, precisionPoint[..], currentPoint, ClipBounds(), x, y);
      interactive := true;
      var b := Bounds(interval.width, interval.height, interval.xOffset, interval.yOffset);
      var cx := b.ClipXReal(x);
      var cy := b.ClipYReal(y);
      if transformation == RigidBody && currentPoint != 0 {
        var other := precisionPoint[3 - currentPoint];
        if Dist2(other, Point(cx, cy)) <= (2 * CROSS_HALFSIZE * 2 * CROSS_HALFSIZE) as real {
          return;
        }
      }
      precisionPoint[currentPoint] := Point(cx, cy);
      assert precisionPoint[..] == target;
    }

    /** setCurrentPoint: later moves act on landmark `currentPoint`; it is not checked against the count. */
    method SetCurrentPoint(currentPoint: int)
      modifies this`currentPoint
      ensures this.currentPoint == currentPoint
    {
      this.currentPoint := currentPoint;
    }

    /** setPoints: the first |points| landmarks take the given values, unclipped; the others stay. */
    method SetPoints(points: seq<Point>)
      requires |points| <= precisionPoint.Length
      modifies this`interactive, precisionPoint
      ensures !interactive
      ensures precisionPoint[..] == points + old(precisionPoint[..])[|points|..]
    {
      interactive := false;
      for i := 0 to |points|
        invariant !interactive
        invariant forall k :: 0 <= k < precisionPoint.Length ==>
          precisionPoint[k] == if k < i then points[k] else old(precisionPoint[k])
      {
        precisionPoint[i] := points[i];
      }
      assert precisionPoint[..] == points + old(precisionPoint[..])[|points|..];
    }

    /** setTransformation: a new model, its starting layout on the image as it is now, and landmark 0 current. */
    method SetTransformation(transformation: TransformationType)
      requires interval != null
      modifies this`interactive, this`transformation, this`precisionPoint, this`currentPoint
      ensures interactive && this.transformation == transformation && currentPoint == 0
      ensures fresh(precisionPoint)
      ensures precisionPoint[..] == DefaultPoints(transformation, interval.width, interval.height)
    {
      interactive := true;
      this.transformation := transformation;
      var layout := DefaultPoints(transformation, interval.width, interval.height);
      currentPoint := 0;
      precisionPoint := new Point[|layout|](i requires 0 <= i < |layout| => layout[i]);
    }
  }

  /** The read loop's result is the table's landmarks. */
  lemma {:induction false} ReadDone(read: seq<Point>, table: Table, names: (string, string), offset: Point)
    requires Shaped(table) && table.rowCount == |read|
    requires names.0 in table.columns && names.1 in table.columns
    requires forall i :: 0 <= i < |read| ==>
      read[i].x == CellValue(table.columns[names.0][i], offset.x)
      && read[i].y == CellValue(table.columns[names.1][i], offset.y)
    ensures Some(read) == ReadPoints(table, names, offset, |read|)
  {
    var r := ReadPoints(table, names, offset, |read|).value;
    assert |r| == |read|;
    forall i | 0 <= i < |read|
      ensures r[i] == read[i]
    {
    }
    assert r == read;
  }
}
