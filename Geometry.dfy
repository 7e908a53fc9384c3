/**
 * Integer grid geometry: axes, points (a column `x` and a row `y`), sizes, and rects.
 * A rect is an origin and a size whose width or height may be negative, in which
 * case it extends to the left of (or above) its origin; `standardized` rewrites it
 * with a non-negative size and the same points.
 */
module Geometry {
  import opened Wrappers

  // ----- Axis -----

  datatype Axis = X | Y

  /** `perpendicularAxis`. */
  function Perpendicular(a: Axis): (b: Axis)
    ensures b != a
  {
    match a
    case X => Y
    case Y => X
  }

  /** Taking the perpendicular twice gives the axis back. */
  lemma PerpendicularInvolution(a: Axis)
    ensures Perpendicular(Perpendicular(a)) == a
    ensures Perpendicular(X) == Y && Perpendicular(Y) == X
  {
  }

  // ----- Point -----

  datatype Point = Point(x: int, y: int)

  const PointZero: Point := Point(0, 0)

  /** `value(of:)` and the getter of `subscript(axis:)`. */
  function ValueOf(p: Point, axis: Axis): int {
    match axis
    case X => p.x
    case Y => p.y
  }

  /** The setter of `subscript(axis:)`: the point with one coordinate replaced. */
  function WithValue(p: Point, axis: Axis, value: int): (q: Point)
    ensures ValueOf(q, axis) == value
    ensures ValueOf(q, Perpendicular(axis)) == ValueOf(p, Perpendicular(axis))
  {
    match axis
    case X => p.(x := value)
    case Y => p.(y := value)
  }

  /** `advanced(byX:byY:)`. */
  function Advanced(p: Point, dx: int, dy: int): (q: Point)
    ensures q.x - p.x == dx && q.y - p.y == dy
  {
    Point(p.x + dx, p.y + dy)
  }

  /** `advancedAlongX(by:)`. */
  function AdvancedAlongX(p: Point, amount: int): (q: Point)
    ensures q.x == p.x + amount && q.y == p.y
  {
    Advanced(p, amount, 0)
  }

  /** `advancedAlongY(by:)`. */
  function AdvancedAlongY(p: Point, amount: int): (q: Point)
    ensures q.y == p.y + amount && q.x == p.x
  {
    Advanced(p, 0, amount)
  }

  /** `advanced(along:by:)`. */
  function AdvancedAlong(p: Point, axis: Axis, amount: int): (q: Point)
    ensures ValueOf(q, axis) == ValueOf(p, axis) + amount
    ensures ValueOf(q, Perpendicular(axis)) == ValueOf(p, Perpendicular(axis))
  {
    match axis
    case X => AdvancedAlongX(p, amount)
    case Y => AdvancedAlongY(p, amount)
  }

  /** `nextAlongX`, `nextAlongY`, `previousAlongX`, `previousAlongY`: one step either way. */
  function Next(p: Point, axis: Axis): (q: Point)
    ensures ValueOf(q, axis) == ValueOf(p, axis) + 1
    ensures ValueOf(q, Perpendicular(axis)) == ValueOf(p, Perpendicular(axis))
    ensures Previous(q, axis) == p
  {
    AdvancedAlong(p, axis, 1)
  }

  function Previous(p: Point, axis: Axis): (q: Point)
    ensures ValueOf(q, axis) == ValueOf(p, axis) - 1
    ensures ValueOf(q, Perpendicular(axis)) == ValueOf(p, Perpendicular(axis))
  {
    AdvancedAlong(p, axis, -1)
  }

  /** Advancing along an axis moves only that coordinate, by the amount, and the two axis-specific forms agree with it. */
  lemma AdvanceAlongAxis(p: Point, axis: Axis, amount: int)
    ensures ValueOf(AdvancedAlong(p, axis, amount), axis) == ValueOf(p, axis) + amount
    ensures ValueOf(AdvancedAlong(p, axis, amount), Perpendicular(axis)) == ValueOf(p, Perpendicular(axis))
    ensures AdvancedAlongX(p, amount) == WithValue(p, X, p.x + amount)
    ensures AdvancedAlongY(p, amount) == WithValue(p, Y, p.y + amount)
  {
  }

  /** Next and previous along one axis undo each other. */
  lemma NextPreviousInverse(p: Point, axis: Axis)
    ensures Previous(Next(p, axis), axis) == p
    ensures Next(Previous(p, axis), axis) == p
  {
  }

  /** Advancements compose by adding their amounts. */
  lemma AdvanceComposes(p: Point, axis: Axis, a: int, b: int)
    ensures AdvancedAlong(AdvancedAlong(p, axis, a), axis, b) == AdvancedAlong(p, axis, a + b)
  {
  }

  // ----- Size -----

  datatype Size = Size(width: int, height: int)

  const SizeZero: Size := Size(0, 0)

  /** `area`. */
  function Area(s: Size): (a: int)
    ensures a == 0 <==> IsEmptySize(s)
    ensures a < 0 <==> (s.width < 0 && s.height > 0) || (s.width > 0 && s.height < 0)
    ensures Abs(a) == Abs(s.width) * Abs(s.height)
  {
    ProductSigns(s.width, s.height);
    s.width * s.height
  }

  /** `isEmpty`. */
  predicate IsEmptySize(s: Size) {
    s.width == 0 || s.height == 0
  }

  /** `init(square:)`. */
  function Square(length: int): Size {
    Size(length, length)
  }

  /** `isSquare`. */
  predicate IsSquare(s: Size) {
    s.width == s.height
  }

  /** `bounds`: the rect at the zero point with this size. */
  function Bounds(s: Size): (r: Rect)
    ensures r.origin == PointZero && r.size == s
  {
    Rect(PointZero, s)
  }

  /** A size is empty exactly when its area is zero; a square is square; the zero size is empty. */
  lemma SizeFacts(s: Size, length: int)
    ensures IsEmptySize(s) <==> Area(s) == 0
    ensures IsSquare(Square(length)) && Area(Square(length)) >= 0
    ensures IsEmptySize(SizeZero)
  {
    if s.width != 0 && s.height != 0 {
      ProductSigns(s.width, s.height);
    }
  }

  lemma {:induction false} PositiveProduct(a: nat, b: nat)
    requires a > 0 && b > 0
    ensures a * b > 0
  {
    if a > 1 {
      PositiveProduct(a - 1, b);
      assert a * b == (a - 1) * b + b;
    }
  }

  /** The sign and magnitude of a product, from those of its factors. */
  lemma ProductSigns(a: int, b: int)
    ensures a * b == 0 <==> a == 0 || b == 0
    ensures a * b < 0 <==> (a < 0 && b > 0) || (a > 0 && b < 0)
    ensures Abs(a * b) == Abs(a) * Abs(b)
  {
    if a != 0 && b != 0 {
      PositiveProduct(Abs(a), Abs(b));
    }
    if a < 0 && b < 0 {
      assert a * b == Abs(a) * Abs(b);
    } else if a < 0 {
      assert a * b == -(Abs(a) * Abs(b));
    } else if b < 0 {
      assert a * b == -(Abs(a) * Abs(b));
    }
  }

  // ----- Rect -----

  datatype Rect = Rect(origin: Point, size: Size)

  function Abs(n: int): nat {
    if n < 0 then -n else n
  }

  /** `standardized`: a negative width or height turned positive, the origin moved to the smallest column or row. */
  function Standardized(r: Rect): (s: Rect)
    ensures s.size == Size(Abs(r.size.width), Abs(r.size.height))
    ensures s.origin.x == if r.size.width < 0 then r.origin.x + r.size.width + 1 else r.origin.x
    ensures s.origin.y == if r.size.height < 0 then r.origin.y + r.size.height + 1 else r.origin.y
  {
    var w := r.size.width;
    var h := r.size.height;
    Rect(Point(if w < 0 then r.origin.x - (-w - 1) else r.origin.x,
               if h < 0 then r.origin.y - (-h - 1) else r.origin.y),
         Size(Abs(w), Abs(h)))
  }

  /** `minX`: the first column, the origin's unless the width is negative. */
  function MinX(r: Rect): (x: int)
    ensures x <= r.origin.x
    ensures r.size.width >= 0 ==> x == r.origin.x
  {
    Standardized(r).origin.x
  }

  /** `minY`: the first row, the origin's unless the height is negative. */
  function MinY(r: Rect): (y: int)
    ensures y <= r.origin.y
    ensures r.size.height >= 0 ==> y == r.origin.y
  {
    Standardized(r).origin.y
  }

  /** `maxX`: the last column, or `minX` for a rect of no width; the origin's column lies between. */
  function MaxX(r: Rect): (x: int)
    ensures MinX(r) <= r.origin.x <= x
    ensures r.size.width != 0 ==> x - MinX(r) + 1 == Abs(r.size.width)
    ensures r.size.width <= 0 ==> x == r.origin.x
  {
    if r.size.width == 0 then MinX(r)
    else Standardized(r).origin.x + Standardized(r).size.width - 1
  }

  /** `maxY`: the last row, or `minY` for a rect of no height; the origin's row lies between. */
  function MaxY(r: Rect): (y: int)
    ensures MinY(r) <= r.origin.y <= y
    ensures r.size.height != 0 ==> y - MinY(r) + 1 == Abs(r.size.height)
    ensures r.size.height <= 0 ==> y == r.origin.y
  {
    if r.size.height == 0 then MinY(r)
    else Standardized(r).origin.y + Standardized(r).size.height - 1
  }

  /** `count`: the raw area, negative when exactly one side is negative. */
  function Count(r: Rect): (n: int)
    ensures Abs(n) == Area(Standardized(r).size)
    ensures n < 0 <==> (r.size.width < 0) != (r.size.height < 0) && !IsEmptySize(r.size)
  {
    Area(r.size)
  }

  /** `contains(point:)`: never for an empty rect, otherwise the point is in `rangeX` and `rangeY`. */
  predicate Contains(r: Rect, p: Point)
    ensures Contains(r, p) <==> (
      && !IsEmptySize(r.size)
      && Standardized(r).origin.x <= p.x < Standardized(r).origin.x + Abs(r.size.width)
      && Standardized(r).origin.y <= p.y < Standardized(r).origin.y + Abs(r.size.height))
  {
    !IsEmptySize(r.size) && MinX(r) <= p.x <= MaxX(r) && MinY(r) <= p.y <= MaxY(r)
  }

  /** `==`: two rects are equal when their standardized forms are. */
  predicate RectEquals(a: Rect, b: Rect)
    ensures RectEquals(a, b) ==> Abs(Count(a)) == Abs(Count(b))
    ensures RectEquals(a, b) ==> MinX(a) == MinX(b) && MaxX(a) == MaxX(b) && MinY(a) == MinY(b) && MaxY(a) == MaxY(b)
  {
    var sa := Standardized(a);
    var sb := Standardized(b);
    sa.origin == sb.origin && sa.size == sb.size
  }

  /** `init(rangeX:rangeY:)`: the rect covering two closed ranges. */
  function FromRanges(loX: int, hiX: int, loY: int, hiY: int): (r: Rect)
    requires loX <= hiX && loY <= hiY
    ensures MinX(r) == loX && MaxX(r) == hiX
    ensures MinY(r) == loY && MaxY(r) == hiY
    ensures forall p :: Contains(r, p) <==> loX <= p.x <= hiX && loY <= p.y <= hiY
  {
    Rect(Point(loX, loY), Size(hiX - loX + 1, hiY - loY + 1))
  }

  /** A standardized rect has no negative side, standardizing twice is standardizing once, and it keeps the points. */
  lemma StandardizedFacts(r: Rect, p: Point)
    ensures Standardized(r).size.width >= 0 && Standardized(r).size.height >= 0
    ensures Standardized(Standardized(r)) == Standardized(r)
    ensures Contains(Standardized(r), p) <==> Contains(r, p)
    ensures RectEquals(r, Standardized(r))
  {
  }

  /** For a side that is not zero, the range from min to max holds exactly as many values as the side is long. */
  lemma RangeLengths(r: Rect)
    ensures r.size.width != 0 ==> MaxX(r) - MinX(r) + 1 == Abs(r.size.width)
    ensures r.size.height != 0 ==> MaxY(r) - MinY(r) + 1 == Abs(r.size.height)
  {
  }

  /** A rect with a negative width runs leftwards from its origin: its columns are the origin's and the |width| - 1 before it. */
  lemma NegativeWidth(r: Rect)
    requires r.size.width < 0
    ensures MaxX(r) == r.origin.x
    ensures MinX(r) == r.origin.x - (Abs(r.size.width) - 1)
  {
  }

  /** Equal rects contain the same points. */
  lemma EqualRectsSamePoints(a: Rect, b: Rect, p: Point)
    requires RectEquals(a, b)
    ensures Contains(a, p) <==> Contains(b, p)
  {
    StandardizedFacts(a, p);
    StandardizedFacts(b, p);
  }

  /** Conversely, two non-empty rects that contain the same points are equal. */
  lemma SamePointsEqualRects(a: Rect, b: Rect)
    requires !IsEmptySize(a.size) && !IsEmptySize(b.size)
    requires forall p :: Contains(a, p) <==> Contains(b, p)
    ensures RectEquals(a, b)
  {
    RangeLengths(a);
    RangeLengths(b);
    var loA, hiA := Point(MinX(a), MinY(a)), Point(MaxX(a), MaxY(a));
    var loB, hiB := Point(MinX(b), MinY(b)), Point(MaxX(b), MaxY(b));
    assert Contains(a, loA) && Contains(a, hiA);
    assert Contains(b, loB) && Contains(b, hiB);
    assert Contains(b, loA) && Contains(b, hiA);
    assert Contains(a, loB) && Contains(a, hiB);
  }

  /** Two empty rects contain the same (no) points, yet differ when their origins differ. */
  lemma EmptyRectsMayDiffer()
    ensures forall p :: !Contains(Rect(Point(0, 0), SizeZero), p) && !Contains(Rect(Point(1, 1), SizeZero), p)
    ensures !RectEquals(Rect(Point(0, 0), SizeZero), Rect(Point(1, 1), SizeZero))
  {
  }

  /** An empty rect contains nothing; the zero rect is empty. */
  lemma EmptyContainsNothing(r: Rect, p: Point)
    requires IsEmptySize(r.size)
    ensures !Contains(r, p)
    ensures !Contains(Rect(PointZero, SizeZero), p)
  {
  }

  /** A rect whose origin and size fields are changed in place. */
  class MutableRect {
    var origin: Point
    var size: Size

    constructor(r: Rect)
      ensures origin == r.origin && size == r.size
    {
      origin := r.origin;
      size := r.size;
    }

    function Value(): Rect
      reads this
    {
      Rect(origin, size)
    }

    /** `standardize()`: flip each negative side and move the origin back by the side's length less one. */
    method Standardize()
      modifies this
      ensures Value() == Standardized(old(Value()))
    {
      if size.width < 0 {
        size := size.(width := size.width * -1);
        origin := origin.(x := origin.x - (size.width - 1));
      }
      if size.height < 0 {
        size := size.(height := size.height * -1);
        origin := origin.(y := origin.y - (size.height - 1));
      }
    }
  }

  // ----- enumeration -----

  /** The direction the enumeration walks along a side: backwards for a negative side. */
  function Step(side: int): int {
    if side < 0 then -1 else 1
  }

  /** How many points one row (or column) of the enumeration yields: a side of zero still yields one. */
  function Run(side: int): nat {
    if side == 0 then 1 else Abs(side)
  }

  /** Row `row` of the row-by-row enumeration: columns 0, 1, ... of the run, stepping away from the origin. */
  function RowPoints(r: Rect, row: nat): (ps: seq<Point>)
    ensures |ps| == Run(r.size.width)
    ensures forall c :: 0 <= c < |ps| ==>
      ps[c] == Point(r.origin.x + Step(r.size.width) * c, r.origin.y + Step(r.size.height) * row)
  {
    seq(Run(r.size.width), c => Point(r.origin.x + Step(r.size.width) * c, r.origin.y + Step(r.size.height) * row))
  }

  /** The first `rows` rows, one after the other. */
  function RowsPoints(r: Rect, rows: nat): seq<Point> {
    if rows == 0 then [] else RowsPoints(r, rows - 1) + RowPoints(r, rows - 1)
  }

  /** `rowByRow`: every row of the rect, each finished before the next. */
  function RowByRowPoints(r: Rect): seq<Point> {
    RowsPoints(r, Abs(r.size.height))
  }

  /** Column `col` of the column-by-column enumeration. */
  function ColumnPoints(r: Rect, col: nat): (ps: seq<Point>)
    ensures |ps| == Run(r.size.height)
    ensures forall k :: 0 <= k < |ps| ==>
      ps[k] == Point(r.origin.x + Step(r.size.width) * col, r.origin.y + Step(r.size.height) * k)
  {
    seq(Run(r.size.height), k => Point(r.origin.x + Step(r.size.width) * col, r.origin.y + Step(r.size.height) * k))
  }

  function ColumnsPoints(r: Rect, cols: nat): seq<Point> {
    if cols == 0 then [] else ColumnsPoints(r, cols - 1) + ColumnPoints(r, cols - 1)
  }

  /** `columnByColumn`: every column of the rect, each finished before the next. */
  function ColumnByColumnPoints(r: Rect): seq<Point> {
    ColumnsPoints(r, Abs(r.size.width))
  }

  /** Column `c` of a non-empty rect, counted from the origin, is a column of the rect exactly when `c` is below the width. */
  lemma StepInRange(origin: int, side: int, c: int, lo: int, hi: int)
    requires side != 0
    requires lo == (if side < 0 then origin + side + 1 else origin)
    requires hi == lo + Abs(side) - 1
    ensures 0 <= c < Abs(side) ==> lo <= origin + Step(side) * c <= hi
  {
  }

  /** How many steps from the origin the enumeration takes to reach `x`. */
  function Offset(origin: int, side: int, x: int): int {
    if side < 0 then origin - x else x - origin
  }

  /** Conversely, every column of a non-empty rect is reached from the origin in fewer steps than the width. */
  lemma OffsetInRange(origin: int, side: int, x: int, lo: int, hi: int)
    requires side != 0
    requires lo == (if side < 0 then origin + side + 1 else origin)
    requires hi == lo + Abs(side) - 1
    requires lo <= x <= hi
    ensures 0 <= Offset(origin, side, x) < Abs(side)
    ensures origin + Step(side) * Offset(origin, side, x) == x
  {
  }

  /** Every point the first `rows` rows yield lies in those rows of a non-empty rect, in the row's range of columns. */
  lemma {:induction false} RowsPointsShape(r: Rect, rows: nat, q: Point)
    requires r.size.width != 0
    ensures q in RowsPoints(r, rows) <==>
      exists row, c :: 0 <= row < rows && 0 <= c < Abs(r.size.width) &&
        q == Point(r.origin.x + Step(r.size.width) * c, r.origin.y + Step(r.size.height) * row)
  {
    if rows > 0 {
      RowsPointsShape(r, rows - 1, q);
      var w := Abs(r.size.width);
      if q in RowPoints(r, rows - 1) {
        var c :| 0 <= c < w && RowPoints(r, rows - 1)[c] == q;
        assert 0 <= rows - 1 < rows;
      }
      if exists row, c :: 0 <= row < rows && 0 <= c < w &&
          q == Point(r.origin.x + Step(r.size.width) * c, r.origin.y + Step(r.size.height) * row) {
        var row, c :| 0 <= row < rows && 0 <= c < w &&
          q == Point(r.origin.x + Step(r.size.width) * c, r.origin.y + Step(r.size.height) * row);
        if row == rows - 1 {
          assert RowPoints(r, rows - 1)[c] == q;
        }
      }
    }
  }

  /** Every point the row-by-row enumeration yields lies in the rect. */
  lemma RowByRowWithinRect(r: Rect, q: Point)
    requires r.size.width != 0 && r.size.height != 0
    requires q in RowByRowPoints(r)
    ensures Contains(r, q)
  {
    var w := r.size.width;
    var h := r.size.height;
    RowsPointsShape(r, Abs(h), q);
    var row, c :| 0 <= row < Abs(h) && 0 <= c < Abs(w) &&
      q == Point(r.origin.x + Step(w) * c, r.origin.y + Step(h) * row);
    StepInRange(r.origin.x, w, c, MinX(r), MaxX(r));
    StepInRange(r.origin.y, h, row, MinY(r), MaxY(r));
  }

  /** Every point of the rect is yielded by the row-by-row enumeration. */
  lemma RectWithinRowByRow(r: Rect, q: Point)
    requires r.size.width != 0 && r.size.height != 0
    requires Contains(r, q)
    ensures q in RowByRowPoints(r)
  {
    var w := r.size.width;
    var h := r.size.height;
    OffsetInRange(r.origin.x, w, q.x, MinX(r), MaxX(r));
    OffsetInRange(r.origin.y, h, q.y, MinY(r), MaxY(r));
    var c := Offset(r.origin.x, w, q.x);
    var row := Offset(r.origin.y, h, q.y);
    assert q == Point(r.origin.x + Step(w) * c, r.origin.y + Step(h) * row);
    RowsPointsShape(r, Abs(h), q);
  }

  /** The row-by-row enumeration of a rect with non-zero sides yields exactly the points the rect contains. */
  lemma RowByRowCoversRect(r: Rect, q: Point)
    requires r.size.width != 0 && r.size.height != 0
    ensures q in RowByRowPoints(r) <==> Contains(r, q)
  {
    if q in RowByRowPoints(r) {
      RowByRowWithinRect(r, q);
    }
    if Contains(r, q) {
      RectWithinRowByRow(r, q);
    }
  }

  /** No point occurs twice. */
  predicate NoRepeats(ps: seq<Point>) {
    forall m, n :: 0 <= m < n < |ps| ==> ps[m] != ps[n]
  }

  lemma StepInjective(side: int, a: int, b: int)
    requires Step(side) * a == Step(side) * b
    ensures a == b
  {
  }

  /** No point is yielded twice by the first `rows` rows. */
  lemma {:induction false} RowsPointsNoRepeats(r: Rect, rows: nat)
    requires r.size.width != 0
    ensures NoRepeats(RowsPoints(r, rows))
  {
    if rows > 0 {
      RowsPointsNoRepeats(r, rows - 1);
      var before := RowsPoints(r, rows - 1);
      var row := RowPoints(r, rows - 1);
      var w := r.size.width;
      var h := r.size.height;
      forall m, n | 0 <= m < n < |row|
        ensures row[m] != row[n]
      {
        if row[m] == row[n] {
          StepInjective(w, m, n);
        }
      }
      forall m, n | 0 <= m < |before| && 0 <= n < |row|
        ensures before[m] != row[n]
      {
        RowsPointsShape(r, rows - 1, before[m]);
        var k, c :| 0 <= k < rows - 1 && 0 <= c < Abs(w) &&
          before[m] == Point(r.origin.x + Step(w) * c, r.origin.y + Step(h) * k);
        if before[m] == row[n] {
          StepInjective(h, k, rows - 1);
        }
      }
      var ps := before + row;
      forall m, n | 0 <= m < n < |ps|
        ensures ps[m] != ps[n]
      {
        if n < |before| {
        } else if m >= |before| {
          assert ps[m] == row[m - |before|] && ps[n] == row[n - |before|];
        } else {
          assert ps[m] == before[m] && ps[n] == row[n - |before|];
        }
      }
    }
  }

  /**
   * The row-by-row enumeration of a rect with non-zero sides yields every point of
   * the rect exactly once.
   */
  lemma RowByRowExactlyOnce(r: Rect)
    requires r.size.width != 0 && r.size.height != 0
    ensures NoRepeats(RowByRowPoints(r))
    ensures forall q :: q in RowByRowPoints(r) <==> Contains(r, q)
  {
    RowsPointsNoRepeats(r, Abs(r.size.height));
    forall q
      ensures q in RowByRowPoints(r) <==> Contains(r, q)
    {
      RowByRowCoversRect(r, q);
    }
  }

  /** Iterating `rowByRow` with `next()`: counters `i` and `j` walk the columns and rows of the rect. */
  class RowByRowIterator {
    var i: int
    var j: int
    const dI: int
    const dJ: int
    const origin: Point
    const bounds: Size
    ghost const rect: Rect
    /** The points `next()` has returned so far. */
    ghost var yielded: seq<Point>

    constructor(r: Rect)
      ensures Valid() && rect == r && yielded == []
    {
      i := 0;
      j := 0;
      dI := if r.size.width < 0 then -1 else 1;
      dJ := if r.size.height < 0 then -1 else 1;
      origin := r.origin;
      bounds := Standardized(r).size;
      rect := r;
      yielded := [];
    }

    /** The column and row the counters stand at, counted away from the origin. */
    function Col(): int
      reads this
    {
      i * dI
    }

    function Row(): int
      reads this
    {
      j * dJ
    }

    ghost predicate Valid()
      reads this
    {
      dI == Step(rect.size.width) && dJ == Step(rect.size.height) &&
      origin == rect.origin && bounds == Standardized(rect).size &&
      0 <= Col() < Run(rect.size.width) && 0 <= Row() <= bounds.height &&
      (Row() == bounds.height ==> Col() == 0) &&
      yielded == RowsPoints(rect, Row()) + RowPoints(rect, Row())[..Col()]
    }

    predicate Done()
      reads this
    {
      Row() >= bounds.height
    }

    /** `next()`: the point at the counters, then one column on, wrapping to the next row. */
    method Next() returns (p: Option<Point>)
      requires Valid()
      modifies this
      ensures Valid()
      ensures old(Done()) ==> p == None && yielded == old(yielded) && i == old(i) && j == old(j)
      ensures !old(Done()) ==> p.Some? && yielded == old(yielded) + [p.value]
      ensures !old(Done()) ==> (Row() == old(Row()) && Col() > old(Col())) || Row() > old(Row())
    {
      if !(j * dJ < bounds.height) {
        return None;
      }
      p := Some(Point(origin.x + i, origin.y + j));
      ghost var row := Row();
      ghost var col := Col();
      assert p.value == RowPoints(rect, row)[col];
      assert RowPoints(rect, row)[..col + 1] == RowPoints(rect, row)[..col] + [p.value];
      yielded := yielded + [p.value];
      i := i + dI;
      if i * dI >= bounds.width {
        i := 0;
      }
      j := j + (if i == 0 then dJ else 0);
      if i == 0 {
        assert RowPoints(rect, row)[..col + 1] == RowPoints(rect, row);
        assert RowsPoints(rect, row + 1) == RowsPoints(rect, row) + RowPoints(rect, row);
        assert RowPoints(rect, row + 1)[..0] == [];
      }
    }
  }

  /** A `for point in rect.rowByRow` loop: call `next()` until it returns nothing. */
  method CollectRowByRow(r: Rect) returns (points: seq<Point>)
    ensures points == RowByRowPoints(r)
  {
    var cursor := new RowByRowIterator(r);
    points := [];
    while true
      invariant cursor.Valid() && cursor.rect == r && points == cursor.yielded
      decreases cursor.bounds.height - cursor.Row(), Run(r.size.width) - cursor.Col()
    {
      var p := cursor.Next();
      if p.None? {
        break;
      }
      points := points + [p.value];
    }
    assert cursor.Row() == Abs(r.size.height) && cursor.Col() == 0;
  }

  // column by column: the row-by-row enumeration of the transposed rect

  /** The rect with its axes exchanged. */
  function Transposed(r: Rect): Rect {
    Rect(Point(r.origin.y, r.origin.x), Size(r.size.height, r.size.width))
  }

  function Swapped(p: Point): Point {
    Point(p.y, p.x)
  }

  function SwappedAll(ps: seq<Point>): (qs: seq<Point>)
    ensures |qs| == |ps|
    ensures forall k :: 0 <= k < |ps| ==> qs[k] == Swapped(ps[k])
  {
    seq(|ps|, k requires 0 <= k < |ps| => Swapped(ps[k]))
  }

  lemma {:induction false} ColumnsAreTransposedRows(r: Rect, cols: nat)
    ensures ColumnsPoints(r, cols) == SwappedAll(RowsPoints(Transposed(r), cols))
  {
    if cols > 0 {
      ColumnsAreTransposedRows(r, cols - 1);
      assert ColumnPoints(r, cols - 1) == SwappedAll(RowPoints(Transposed(r), cols - 1));
      var a := RowsPoints(Transposed(r), cols - 1);
      var b := RowPoints(Transposed(r), cols - 1);
      assert SwappedAll(a + b) == SwappedAll(a) + SwappedAll(b);
    }
  }

  /** The column-by-column enumeration of a rect with non-zero sides yields every point of the rect exactly once. */
  lemma ColumnByColumnExactlyOnce(r: Rect)
    requires r.size.width != 0 && r.size.height != 0
    ensures NoRepeats(ColumnByColumnPoints(r))
    ensures forall q :: q in ColumnByColumnPoints(r) <==> Contains(r, q)
  {
    var t := Transposed(r);
    RowByRowExactlyOnce(t);
    ColumnsAreTransposedRows(r, Abs(r.size.width));
    var ps := ColumnByColumnPoints(r);
    var rows := RowByRowPoints(t);
    assert ps == SwappedAll(rows);
    forall q
      ensures q in ps <==> Contains(r, q)
    {
      assert Contains(r, q) <==> Contains(t, Swapped(q));
      if q in ps {
        var k :| 0 <= k < |ps| && ps[k] == q;
        assert rows[k] == Swapped(q);
      }
      if Swapped(q) in rows {
        var k :| 0 <= k < |rows| && rows[k] == Swapped(q);
        assert ps[k] == q;
      }
    }
    forall m, n | 0 <= m < n < |ps|
      ensures ps[m] != ps[n]
    {
      assert rows[m] != rows[n];
    }
  }

  /** A row-by-row point comes before every point of a later row: rows are finished one at a time. */
  lemma {:induction false} RowsInOrder(r: Rect, rows: nat, m: nat, n: nat)
    requires m < n < |RowsPoints(r, rows)|
    requires r.size.width != 0
    ensures Step(r.size.height) * (RowsPoints(r, rows)[m].y - r.origin.y) <=
            Step(r.size.height) * (RowsPoints(r, rows)[n].y - r.origin.y)
  {
    var before := RowsPoints(r, rows - 1);
    var h := r.size.height;
    if n < |before| {
      RowsInOrder(r, rows - 1, m, n);
    } else if m >= |before| {
      assert RowsPoints(r, rows)[m].y == RowsPoints(r, rows)[n].y;
    } else {
      var q := before[m];
      RowsPointsShape(r, rows - 1, q);
      var k, c :| 0 <= k < rows - 1 && 0 <= c < Abs(r.size.width) &&
        q == Point(r.origin.x + Step(r.size.width) * c, r.origin.y + Step(h) * k);
      assert RowsPoints(r, rows)[n].y == r.origin.y + Step(h) * (rows - 1);
      assert Step(h) * Step(h) == 1;
      assert Step(h) * (Step(h) * k) == k;
      assert Step(h) * (Step(h) * (rows - 1)) == rows - 1;
    }
  }

  /** Iterating `columnByColumn` with `next()`: as `rowByRow` with the roles of `i` and `j` exchanged. */
  class ColumnByColumnIterator {
    var i: int
    var j: int
    const dI: int
    const dJ: int
    const origin: Point
    const bounds: Size
    ghost const rect: Rect
    /** The points `next()` has returned so far. */
    ghost var yielded: seq<Point>

    constructor(r: Rect)
      ensures Valid() && rect == r && yielded == []
    {
      i := 0;
      j := 0;
      dI := if r.size.width < 0 then -1 else 1;
      dJ := if r.size.height < 0 then -1 else 1;
      origin := r.origin;
      bounds := Standardized(r).size;
      rect := r;
      yielded := [];
    }

    function Col(): int
      reads this
    {
      i * dI
    }

    function Row(): int
      reads this
    {
      j * dJ
    }

    ghost predicate Valid()
      reads this
    {
      dI == Step(rect.size.width) && dJ == Step(rect.size.height) &&
      origin == rect.origin && bounds == Standardized(rect).size &&
      0 <= Row() < Run(rect.size.height) && 0 <= Col() <= bounds.width &&
      (Col() == bounds.width ==> Row() == 0) &&
      yielded == ColumnsPoints(rect, Col()) + ColumnPoints(rect, Col())[..Row()]
    }

    predicate Done()
      reads this
    {
      Col() >= bounds.width
    }

    /** `next()`: the point at the counters, then one row on, wrapping to the next column. */
    method Next() returns (p: Option<Point>)
      requires Valid()
      modifies this
      ensures Valid()
      ensures old(Done()) ==> p == None && yielded == old(yielded) && i == old(i) && j == old(j)
      ensures !old(Done()) ==> p.Some? && yielded == old(yielded) + [p.value]
      ensures !old(Done()) ==> (Col() == old(Col()) && Row() > old(Row())) || Col() > old(Col())
    {
      if !(i * dI < bounds.width) {
        return None;
      }
      p := Some(Point(origin.x + i, origin.y + j));
      ghost var row := Row();
      ghost var col := Col();
      assert p.value == ColumnPoints(rect, col)[row];
      assert ColumnPoints(rect, col)[..row + 1] == ColumnPoints(rect, col)[..row] + [p.value];
      yielded := yielded + [p.value];
      j := j + dJ;
      if j * dJ >= bounds.height {
        j := 0;
      }
      i := i + (if j == 0 then dI else 0);
      if j == 0 {
        assert ColumnPoints(rect, col)[..row + 1] == ColumnPoints(rect, col);
        assert ColumnsPoints(rect, col + 1) == ColumnsPoints(rect, col) + ColumnPoints(rect, col);
        assert ColumnPoints(rect, col + 1)[..0] == [];
      }
    }
  }

  /** A `for point in rect.columnByColumn` loop. */
  method CollectColumnByColumn(r: Rect) returns (points: seq<Point>)
    ensures points == ColumnByColumnPoints(r)
  {
    var cursor := new ColumnByColumnIterator(r);
    points := [];
    while true
      invariant cursor.Valid() && cursor.rect == r && points == cursor.yielded
      decreases cursor.bounds.width - cursor.Col(), Run(r.size.height) - cursor.Row()
    {
      var p := cursor.Next();
      if p.None? {
        break;
      }
      points := points + [p.value];
    }
    assert cursor.Col() == Abs(r.size.width) && cursor.Row() == 0;
  }
}
