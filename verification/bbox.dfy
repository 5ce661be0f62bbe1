/**
 Axis-aligned boxes `{x, y, width, height}` as the reader uses them, with the
 union the line builder grows and the `doOverlap` test of src/app/core/pdfjs/Bbox.ts.
 Coordinates are exact reals; floating-point rounding is not modelled.
 */
module BBoxes {

  datatype BBox = BBox(x: real, y: real, width: real, height: real)

  function Right(b: BBox): real { b.x + b.width }

  function Bottom(b: BBox): real { b.y + b.height }

  function Min(a: real, b: real): real { if a <= b then a else b }

  function Max(a: real, b: real): real { if a >= b then a else b }

  /** `outer` reaches at least as far as `inner` on all four edges. */
  predicate Contains(outer: BBox, inner: BBox) {
    && outer.x <= inner.x && outer.y <= inner.y
    && Right(inner) <= Right(outer) && Bottom(inner) <= Bottom(outer)
  }

  /** The box whose left and top edges are the smaller, and whose right and
      bottom edges are the larger, of the two boxes' edges. */
  function Union(a: BBox, b: BBox): (r: BBox)
    ensures Contains(r, a) && Contains(r, b)
    ensures r.x == a.x || r.x == b.x
    ensures r.y == a.y || r.y == b.y
    ensures Right(r) == Right(a) || Right(r) == Right(b)
    ensures Bottom(r) == Bottom(a) || Bottom(r) == Bottom(b)
  {
    var x := Min(a.x, b.x);
    var y := Min(a.y, b.y);
    BBox(x, y, Max(Right(a), Right(b)) - x, Max(Bottom(a), Bottom(b)) - y)
  }

  /** Union is the least box containing both arguments. */
  lemma UnionIsLeast(a: BBox, b: BBox, c: BBox)
    requires Contains(c, a) && Contains(c, b)
    ensures Contains(c, Union(a, b))
  {
  }

  /** Union does not depend on the order of its arguments. */
  lemma UnionCommutes(a: BBox, b: BBox)
    ensures Union(a, b) == Union(b, a)
  {
  }

  /** The x-test of `doOverlap`: an OR of the two one-sided comparisons. */
  predicate XTest(a: BBox, b: BBox) {
    Right(a) >= b.x || Right(b) >= a.x
  }

  /** The y-test of `doOverlap`, the same shape on the vertical axis. */
  predicate YTest(a: BBox, b: BBox) {
    Bottom(a) >= b.y || Bottom(b) >= a.y
  }

  /** `doOverlap(a, b)` as written: each axis test uses OR where an interval
      intersection needs AND. */
  function DoOverlap(a: BBox, b: BBox): (r: bool)
    ensures a.width + b.width >= 0.0 && a.height + b.height >= 0.0 ==> r
    ensures Intersects(a, b) ==> r
  {
    XTest(a, b) && YTest(a, b)
  }

  lemma DoOverlapSymmetric(a: BBox, b: BBox)
    ensures DoOverlap(a, b) == DoOverlap(b, a)
  {
  }

  /** A failing x-test forces the two widths to sum to a negative number, so
      it always passes for boxes with non-negative widths; likewise for y. */
  lemma AxisTestsFailOnlyOnNegativeExtent(a: BBox, b: BBox)
    ensures !XTest(a, b) ==> a.width + b.width < 0.0
    ensures !YTest(a, b) ==> a.height + b.height < 0.0
  {
  }

  /** `doOverlap` can only be false when some width or height is negative. */
  lemma DoOverlapFalseOnlyOnNegativeExtent(a: BBox, b: BBox)
    requires !DoOverlap(a, b)
    ensures a.width < 0.0 || b.width < 0.0 || a.height < 0.0 || b.height < 0.0
  {
    AxisTestsFailOnlyOnNegativeExtent(a, b);
  }

  /** Two boxes meet as closed rectangles: each has a point inside both. */
  predicate Intersects(a: BBox, b: BBox) {
    && a.x <= Right(b) && b.x <= Right(a)
    && a.y <= Bottom(b) && b.y <= Bottom(a)
  }

  /** Whenever two well-formed boxes genuinely intersect, `doOverlap` agrees. */
  lemma IntersectsImpliesDoOverlap(a: BBox, b: BBox)
    requires Intersects(a, b)
    ensures DoOverlap(a, b)
  {
  }

  /** Two unit squares far apart: `doOverlap` reports an overlap that is not there. */
  lemma DoOverlapOnDisjointBoxes()
    ensures var a, b := BBox(0.0, 0.0, 1.0, 1.0), BBox(10.0, 10.0, 1.0, 1.0);
            DoOverlap(a, b) && !Intersects(a, b)
  {
  }

  /** The intended test: intersection of the closed intervals on both axes.
      It is symmetric and, for boxes with non-negative extents, holds exactly
      when a common point exists. */
  lemma IntersectsIffCommonPoint(a: BBox, b: BBox)
    requires a.width >= 0.0 && a.height >= 0.0 && b.width >= 0.0 && b.height >= 0.0
    ensures Intersects(a, b) == Intersects(b, a)
    ensures Intersects(a, b) <==> exists px, py :: InBox(a, px, py) && InBox(b, px, py)
  {
    if Intersects(a, b) {
      var px, py := Max(a.x, b.x), Max(a.y, b.y);
      assert InBox(a, px, py) && InBox(b, px, py);
    }
  }

  predicate InBox(b: BBox, px: real, py: real) {
    b.x <= px <= Right(b) && b.y <= py <= Bottom(b)
  }
}
