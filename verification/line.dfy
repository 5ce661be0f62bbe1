/**
 The `Line` class of src/app/core/pdfjs/Line.ts: an item list and a bounding
 box that is undefined until the first item arrives and afterwards grows as
 the union of every added item's box.
 */
module Lines {
  import opened BBoxes
  import opened TextItems

  datatype Line = Line(bbox: Option<BBox>, textItems: seq<TextItem>)

  /** The box is defined exactly when the line holds an item. */
  predicate Valid(l: Line) {
    l.bbox.Some? <==> |l.textItems| > 0
  }

  /** `line.add(item)`. The first item sets the box to the item's own box;
      a later one moves the left and top edges to the smaller, and the right
      and bottom edges to the larger, of the old box and the item box. */
  function Add(l: Line, t: TextItem): (r: Line)
    ensures |r.textItems| == |l.textItems| + 1
    ensures r.textItems[..|l.textItems|] == l.textItems && r.textItems[|l.textItems|] == t
    ensures Valid(l) ==> Valid(r)
    ensures r.bbox.Some? && Contains(r.bbox.value, ItemBox(t))
    ensures l.bbox.None? ==> r.bbox.value == ItemBox(t)
    ensures l.bbox.Some? ==>
              && Contains(r.bbox.value, l.bbox.value)
              && (r.bbox.value.x == l.bbox.value.x || r.bbox.value.x == X(t))
              && (r.bbox.value.y == l.bbox.value.y || r.bbox.value.y == Y(t))
              && (Right(r.bbox.value) == Right(l.bbox.value) || Right(r.bbox.value) == X(t) + t.width)
              && (Bottom(r.bbox.value) == Bottom(l.bbox.value) || Bottom(r.bbox.value) == Y(t) + t.height)
  {
    var box := match l.bbox
      case None => ItemBox(t)
      case Some(b) => Union(b, ItemBox(t));
    Line(Some(box), l.textItems + [t])
  }

  /** The grown box is the least one containing the old box and the item box. */
  lemma AddIsLeastCover(l: Line, t: TextItem, c: BBox)
    requires l.bbox.Some? && Contains(c, l.bbox.value) && Contains(c, ItemBox(t))
    ensures Contains(c, Add(l, t).bbox.value)
  {
  }

  /** `new Line(items)`: the constructor adds the items one by one, in order. */
  function NewLine(items: seq<TextItem>): (r: Line)
    ensures r.textItems == items
    ensures Valid(r)
  {
    if |items| == 0 then Line(None, [])
    else Add(NewLine(items[..|items| - 1]), items[|items| - 1])
  }

  ghost predicate CoversAll(b: BBox, items: seq<TextItem>) {
    forall i :: 0 <= i < |items| ==> Contains(b, ItemBox(items[i]))
  }

  /** The four edges of a box. */
  datatype Edge = LeftEdge | TopEdge | RightEdge | BottomEdge

  function BoxEdge(b: BBox, e: Edge): real {
    match e
    case LeftEdge => b.x
    case TopEdge => b.y
    case RightEdge => Right(b)
    case BottomEdge => Bottom(b)
  }

  /** Edge `e` of `b` coincides with edge `e` of some item's box. */
  ghost predicate Attained(b: BBox, items: seq<TextItem>, e: Edge) {
    exists i :: 0 <= i < |items| && BoxEdge(b, e) == BoxEdge(ItemBox(items[i]), e)
  }

  /** `b` is the hull of `items`: it contains every item's box and each of its
      four edges is an edge of some item. */
  ghost predicate IsHull(b: BBox, items: seq<TextItem>) {
    && CoversAll(b, items)
    && Attained(b, items, LeftEdge) && Attained(b, items, TopEdge)
    && Attained(b, items, RightEdge) && Attained(b, items, BottomEdge)
  }

  /** The constructed box contains every item's box. */
  lemma {:induction false} NewLineCovers(items: seq<TextItem>)
    requires |items| > 0
    ensures CoversAll(NewLine(items).bbox.value, items)
  {
    var n := |items| - 1;
    var b := NewLine(items).bbox.value;
    if n > 0 {
      var init := items[..n];
      NewLineCovers(init);
      var a := NewLine(init).bbox.value;
      forall i | 0 <= i < |items|
        ensures Contains(b, ItemBox(items[i]))
      {
        if i < n {
          assert init[i] == items[i];
          assert Contains(a, ItemBox(init[i]));
        }
      }
    }
  }

  /** Each edge of the constructed box is attained by one of the items. */
  lemma NewLineEdgesAttained(items: seq<TextItem>)
    requires |items| > 0
    ensures var b := NewLine(items).bbox.value;
            && Attained(b, items, LeftEdge) && Attained(b, items, TopEdge)
            && Attained(b, items, RightEdge) && Attained(b, items, BottomEdge)
  {
    var l := NewLineEdgeAttained(items, LeftEdge);
    var t := NewLineEdgeAttained(items, TopEdge);
    var r := NewLineEdgeAttained(items, RightEdge);
    var b := NewLineEdgeAttained(items, BottomEdge);
  }

  /** Edge `e` of the constructed box is edge `e` of the item at the returned
      position. */
  lemma {:induction false} NewLineEdgeAttained(items: seq<TextItem>, e: Edge) returns (i: nat)
    requires |items| > 0
    ensures i < |items| && BoxEdge(NewLine(items).bbox.value, e) == BoxEdge(ItemBox(items[i]), e)
  {
    var n := |items| - 1;
    if n == 0 {
      i := 0;
    } else {
      var init := items[..n];
      var a := NewLine(init).bbox.value;
      assert NewLine(items) == Add(NewLine(init), items[n]);
      if BoxEdge(NewLine(items).bbox.value, e) == BoxEdge(a, e) {
        i := NewLineEdgeAttained(init, e);
        assert items[i] == init[i];
      } else {
        i := n;
      }
    }
  }

  /** The box of `new Line(items)` is the hull of the items: its left edge is
      the least item `x`, its right edge the greatest item `x + width`, and
      likewise vertically. */
  lemma NewLineIsHull(items: seq<TextItem>)
    requires |items| > 0
    ensures IsHull(NewLine(items).bbox.value, items)
  {
    NewLineCovers(items);
    NewLineEdgesAttained(items);
  }

  /** A box is determined by the hull property: two hulls of the same set of
      items are equal. */
  lemma HullUnique(a: seq<TextItem>, b: seq<TextItem>, ba: BBox, bb: BBox)
    requires forall t :: t in a <==> t in b
    requires IsHull(ba, a) && IsHull(bb, b)
    ensures ba == bb
  {
    HullEdgesReach(a, b, ba, bb);
    HullEdgesReach(b, a, bb, ba);
  }

  /** Lines built from the same items, in whatever order or multiplicity,
      have the same box. */
  lemma NewLineOrderIndependent(a: seq<TextItem>, b: seq<TextItem>)
    requires |a| > 0 && |b| > 0
    requires forall t :: t in a <==> t in b
    ensures NewLine(a).bbox == NewLine(b).bbox
  {
    NewLineIsHull(a);
    NewLineIsHull(b);
    HullUnique(a, b, NewLine(a).bbox.value, NewLine(b).bbox.value);
  }

  /** One direction of the uniqueness argument: every edge of the hull of `a`
      reaches at least as far as the matching edge of the hull of `b`, because
      it is attained by an item that `b` also holds. */
  lemma HullEdgesReach(a: seq<TextItem>, b: seq<TextItem>, ba: BBox, bb: BBox)
    requires forall t :: t in a ==> t in b
    requires CoversAll(bb, b)
    requires Attained(ba, a, LeftEdge) && Attained(ba, a, TopEdge)
    requires Attained(ba, a, RightEdge) && Attained(ba, a, BottomEdge)
    ensures bb.x <= ba.x && bb.y <= ba.y && Right(ba) <= Right(bb) && Bottom(ba) <= Bottom(bb)
  {
    HullEdgeReaches(a, b, ba, bb, LeftEdge);
    HullEdgeReaches(a, b, ba, bb, TopEdge);
    HullEdgeReaches(a, b, ba, bb, RightEdge);
    HullEdgeReaches(a, b, ba, bb, BottomEdge);
  }

  /** `HullEdgesReach` for one edge. */
  lemma HullEdgeReaches(a: seq<TextItem>, b: seq<TextItem>, ba: BBox, bb: BBox, e: Edge)
    requires forall t :: t in a ==> t in b
    requires CoversAll(bb, b) && Attained(ba, a, e)
    ensures e.LeftEdge? || e.TopEdge? ==> BoxEdge(bb, e) <= BoxEdge(ba, e)
    ensures e.RightEdge? || e.BottomEdge? ==> BoxEdge(ba, e) <= BoxEdge(bb, e)
  {
    var i :| 0 <= i < |a| && BoxEdge(ba, e) == BoxEdge(ItemBox(a[i]), e);
    assert a[i] in b;
    var k :| 0 <= k < |b| && b[k] == a[i];
    assert Contains(bb, ItemBox(b[k]));
  }
}
