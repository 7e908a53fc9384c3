// A fixed-size collection of values indexed by the points of a rect,
// stored row by row in one flat buffer that is updated in place.

module Grids {
  import opened Wrappers
  import opened Geometry

  // ----- arithmetic of the row-major layout -----

  lemma {:induction false} ScaleMonotone(a: nat, c: nat, w: nat)
    requires a <= c
    ensures a * w <= c * w
    decreases c - a
  {
    if a < c {
      ScaleMonotone(a + 1, c, w);
      assert (a + 1) * w == a * w + w;
    }
  }

  /** Row `a`, column `b` of a layout `w` wide and `h` high lands inside the first `h * w` slots. */
  lemma RowMajorInRange(a: nat, b: nat, w: nat, h: nat)
    requires a < h && b < w
    ensures 0 <= a * w + b < h * w
  {
    ScaleMonotone(a + 1, h, w);
    assert (a + 1) * w == a * w + w;
  }

  /** Distinct (row, column) pairs land in distinct slots. */
  lemma RowMajorInjective(a1: nat, b1: nat, a2: nat, b2: nat, w: nat)
    requires b1 < w && b2 < w
    requires a1 * w + b1 == a2 * w + b2
    ensures a1 == a2 && b1 == b2
  {
    if a1 < a2 {
      assert (a1 + 1) * w == a1 * w + w;
      ScaleMonotone(a1 + 1, a2, w);
    } else if a2 < a1 {
      assert (a2 + 1) * w == a2 * w + w;
      ScaleMonotone(a2 + 1, a1, w);
    }
  }

  /** When `count` is not negative it is the number of cells, |width| times |height|. */
  lemma CountIsCells(r: Rect)
    requires Count(r) >= 0
    ensures Count(r) == Abs(r.size.width) * Abs(r.size.height)
  {
    var w := r.size.width;
    var h := r.size.height;
    if w != 0 && h != 0 {
      if w < 0 && h < 0 {
        assert w * h == Abs(w) * Abs(h);
      }
    }
  }

  /** `valuesIndex(from:)`: rows from `minY`, columns from `minX`, each row |width| long. */
  /** Every point of a rect of non-negative `count` gets a slot of a buffer of `count` values. */
  function ValuesIndex(r: Rect, p: Point): (i: int)
    ensures Count(r) >= 0 && Contains(r, p) ==> 0 <= i < Count(r)
  {
    if Count(r) >= 0 && Contains(r, p) then
      CountIsCells(r);
      RangeLengths(r);
      RowMajorInRange(p.y - MinY(r), p.x - MinX(r), Abs(r.size.width), Abs(r.size.height));
      (p.y - MinY(r)) * Abs(r.size.width) + (p.x - MinX(r))
    else
      (p.y - MinY(r)) * Abs(r.size.width) + (p.x - MinX(r))
  }

  /** The points of the rect are numbered one to one by the slots of a buffer of `count` values. */
  lemma ValuesIndexLayout(r: Rect, p: Point, q: Point)
    requires Count(r) >= 0
    ensures Contains(r, p) ==> 0 <= ValuesIndex(r, p) < Count(r)
    ensures Contains(r, p) && Contains(r, q) && ValuesIndex(r, p) == ValuesIndex(r, q) ==> p == q
  {
    RangeLengths(r);
    var w := Abs(r.size.width);
    if Contains(r, p) && Contains(r, q) && ValuesIndex(r, p) == ValuesIndex(r, q) {
      RowMajorInjective(p.y - MinY(r), p.x - MinX(r), q.y - MinY(r), q.x - MinX(r), w);
    }
  }

  /** The first `rows` rows of a rect with positive sides hold `rows * width` points, row `k` column `c` at slot `k * width + c`. */
  lemma {:induction false} RowsPointsAt(r: Rect, rows: nat, k: nat, c: nat)
    requires r.size.width > 0 && r.size.height > 0
    requires k < rows && c < r.size.width
    ensures |RowsPoints(r, rows)| == rows * r.size.width
    ensures RowsPoints(r, rows)[k * r.size.width + c] == Point(r.origin.x + c, r.origin.y + k)
  {
    var w := r.size.width;
    assert rows * w == (rows - 1) * w + w;
    if k < rows - 1 {
      RowsPointsAt(r, rows - 1, k, c);
      RowMajorInRange(k, c, w, rows - 1);
    } else if rows > 1 {
      RowsPointsAt(r, rows - 1, 0, 0);
    }
  }

  /** The storage order is the row-by-row order: for a rect with positive sides, slot `valuesIndex(p)` of `rowByRow` is `p`. */
  lemma StorageIsRowByRow(r: Rect, p: Point)
    requires r.size.width > 0 && r.size.height > 0 && Contains(r, p)
    ensures |RowByRowPoints(r)| == Count(r)
    ensures RowByRowPoints(r)[ValuesIndex(r, p)] == p
  {
    RowsPointsAt(r, r.size.height, p.y - r.origin.y, p.x - r.origin.x);
  }

  /**
   * With a negative side the storage order is not the `rowByRow` order: for origin (0, 0)
   * and size (-2, 1), `rowByRow` yields (0, 0) first, but (0, 0) is stored in slot 1.
   */
  lemma StorageNotRowByRowForNegativeWidth()
    ensures RowByRowPoints(Rect(Point(0, 0), Size(-2, 1))) == [Point(0, 0), Point(-1, 0)]
    ensures ValuesIndex(Rect(Point(0, 0), Size(-2, 1)), Point(0, 0)) == 1
    ensures ValuesIndex(Rect(Point(0, 0), Size(-2, 1)), Point(-1, 0)) == 0
  {
    var r := Rect(Point(0, 0), Size(-2, 1));
    assert RowPoints(r, 0) == [Point(0, 0), Point(-1, 0)];
    assert RowsPoints(r, 1) == RowsPoints(r, 0) + RowPoints(r, 0);
  }

  /** For every rect with sides that are not zero, the storage order is the `rowByRow` order of its standardized rect. */
  lemma StorageIsStandardizedRowByRow(r: Rect, p: Point)
    requires r.size.width != 0 && r.size.height != 0 && Contains(r, p)
    ensures |RowByRowPoints(Standardized(r))| == Abs(Count(r))
    ensures 0 <= ValuesIndex(r, p) < Abs(Count(r)) && RowByRowPoints(Standardized(r))[ValuesIndex(r, p)] == p
  {
    var s := Standardized(r);
    StandardizedFacts(r, p);
    assert MinX(s) == MinX(r) && MinY(s) == MinY(r) && Abs(s.size.width) == Abs(r.size.width);
    assert ValuesIndex(r, p) == ValuesIndex(s, p);
    ValuesIndexLayout(s, p, p);
    StorageIsRowByRow(s, p);
  }

  // ----- the grid -----

  /** The opaque collection index of a grid: a slot of the buffer. */
  datatype GridIndex = GridIndex(index: int)

  function Advanced(i: GridIndex, n: int): (j: GridIndex)
    ensures Distance(i, j) == n
  {
    GridIndex(i.index + n)
  }

  function Distance(i: GridIndex, other: GridIndex): int {
    other.index - i.index
  }

  /** `index(after:)` and `index(before:)` undo each other. */
  lemma AfterBeforeInverse(i: GridIndex)
    ensures Advanced(Advanced(i, 1), -1) == i && Advanced(Advanced(i, -1), 1) == i
  {
  }

  class Grid<T> {
    /** The possible points that can index the grid. */
    const rect: Rect
    /** One value per point of the rect, row by row. */
    const values: array<T>

    predicate Valid() {
      Count(rect) >= 0 && values.Length == Count(rect)
    }

    /** `init(rect:initialValue:)`: `count` copies of the initial value; a rect of negative `count` is refused. */
    constructor(r: Rect, initialValue: T)
      requires Count(r) >= 0
      ensures Valid() && rect == r && fresh(values)
      ensures values[..] == seq(Count(r), _ => initialValue)
    {
      rect := r;
      values := new T[Count(r)](_ => initialValue);
    }

    /** `init(size:initialValue:)`: the grid over the size's bounds. */
    constructor OfSize(size: Size, initialValue: T)
      requires Area(size) >= 0
      ensures Valid() && rect == Bounds(size) && fresh(values)
      ensures values[..] == seq(Area(size), _ => initialValue)
    {
      rect := Bounds(size);
      values := new T[Area(size)](_ => initialValue);
    }

    function Size(): Size {
      rect.size
    }

    /** The subscript getter: the value stored for a point of the rect. */
    function At(p: Point): (v: T)
      reads values
      requires Valid() && Contains(rect, p)
      ensures exists i :: 0 <= i < values.Length && values[i] == v
    {
      ValuesIndexLayout(rect, p, p);
      values[ValuesIndex(rect, p)]
    }

    /** A freshly made grid holds the initial value at every point. */
    lemma InitialValues(initialValue: T, p: Point)
      requires Valid() && values[..] == seq(Count(rect), _ => initialValue)
      requires Contains(rect, p)
      ensures At(p) == initialValue
    {
      ValuesIndexLayout(rect, p, p);
      assert values[ValuesIndex(rect, p)] == values[..][ValuesIndex(rect, p)];
    }

    /** The subscript setter: the point now holds `v` and every other point keeps its value. */
    method Set(p: Point, v: T)
      requires Valid() && Contains(rect, p)
      modifies values
      ensures Valid()
      ensures At(p) == v
      ensures forall q :: Contains(rect, q) && q != p ==> At(q) == old(At(q))
      ensures values[..] == old(values[..])[ValuesIndex(rect, p) := v]
    {
      ghost var before := values[..];
      ValuesIndexLayout(rect, p, p);
      var k := ValuesIndex(rect, p);
      values[k] := v;
      assert values[..] == before[k := v];
      forall q | Contains(rect, q) && q != p
        ensures At(q) == old(At(q))
      {
        ValuesIndexLayout(rect, p, q);
        ValuesIndexLayout(rect, q, q);
        var m := ValuesIndex(rect, q);
        assert m != k;
        assert At(q) == values[m] == before[m];
      }
    }

    /** `swapAt`: exchanges the values of two contained points; a point outside the rect leaves the grid as it was. */
    method SwapAt(i: Point, j: Point)
      requires Valid()
      modifies values
      ensures Valid()
      ensures !(Contains(rect, i) && Contains(rect, j)) ==> values[..] == old(values[..])
      ensures Contains(rect, i) && Contains(rect, j) ==>
        At(i) == old(At(j)) && At(j) == old(At(i)) &&
        forall q :: Contains(rect, q) && q != i && q != j ==> At(q) == old(At(q))
    {
      if !(Contains(rect, i) && Contains(rect, j)) {
        return;
      }
      var value := At(i);
      Set(i, At(j));
      Set(j, value);
    }

    /** `index(from:)`: none for a point outside the rect, otherwise the slot that holds the point's value. */
    function IndexFrom(p: Point): (r: Option<GridIndex>)
      requires Valid()
      ensures r.None? <==> !Contains(rect, p)
      ensures r.Some? ==> 0 <= r.value.index < values.Length
    {
      if !Contains(rect, p) then None
      else
        ValuesIndexLayout(rect, p, p);
        Some(GridIndex(ValuesIndex(rect, p)))
    }

    /** The index of a point addresses the same value as the point, and distinct points have distinct indices. */
    lemma IndexFromAddressesPoint(p: Point, q: Point)
      requires Valid() && Contains(rect, p) && Contains(rect, q)
      ensures ValueAtPosition(IndexFrom(p).value) == At(p)
      ensures IndexFrom(p) == IndexFrom(q) ==> p == q
    {
      ValuesIndexLayout(rect, p, q);
    }

    function StartIndex(): GridIndex {
      GridIndex(0)
    }

    /** `endIndex`: one past the last slot, so the collection has `count` elements. */
    function EndIndex(): (e: GridIndex)
      requires Valid()
      ensures Distance(StartIndex(), e) == Count(rect)
    {
      GridIndex(values.Length)
    }

    /** The position subscript getter: the value in a slot of the buffer. */
    function ValueAtPosition(position: GridIndex): T
      reads values
      requires 0 <= position.index < values.Length
    {
      values[position.index]
    }

    /** The position subscript setter: only that slot changes. */
    method SetAtPosition(position: GridIndex, v: T)
      requires 0 <= position.index < values.Length
      modifies values
      ensures values[..] == old(values[..])[position.index := v]
    {
      values[position.index] := v;
    }
  }
}
