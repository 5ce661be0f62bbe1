/**
 The geometry of `PdfService` (src/app/services/pdf.service.ts): the projection
 of an item's document-space box into the overlay's top-down pixel space inside
 `buildSVG`, and `flipBBox`, which `buildSVG` applies to vertically written
 items. DOM construction and the delayed glyph-rescaling pass are not modelled.
 */
module Overlay {
  import opened BBoxes
  import opened TextItems

  /** `window.devicePixelRatio || 1`: a zero ratio falls back to 1. */
  function EffectiveDpr(devicePixelRatio: real): (d: real)
    ensures d != 0.0
    ensures devicePixelRatio != 0.0 ==> d == devicePixelRatio
    ensures devicePixelRatio == 0.0 ==> d == 1.0
  {
    if devicePixelRatio == 0.0 then 1.0 else devicePixelRatio
  }

  /** Lines 125-126: `tscale * dpr * (1 / resolution_factor)`. */
  function ProjectionScale(tscale: real, devicePixelRatio: real, resolutionFactor: real): (s: real)
    requires resolutionFactor != 0.0
    ensures s * resolutionFactor == tscale * EffectiveDpr(devicePixelRatio)
  {
    tscale * EffectiveDpr(devicePixelRatio) * (1.0 / resolutionFactor)
  }

  /** Lines 128-133: every length is multiplied by `scale`, and the vertical
      axis is flipped about the viewport height because document space grows
      upwards and overlay space downwards. */
  function ProjectBox(t: TextItem, viewportHeight: real, scale: real): (b: BBox)
    ensures b.width == t.width * scale && b.height == t.height * scale
    ensures b.x == X(t) * scale
    ensures Bottom(b) == viewportHeight - Y(t) * scale
  {
    BBox(x := X(t) * scale,
         y := viewportHeight - (Y(t) + t.height) * scale,
         width := t.width * scale,
         height := t.height * scale)
  }

  /** Lines 167-175: shift `y` by `height - width` and `x` by `-height`, then
      swap width and height. The bottom edge stays where it was, and the new
      right edge lands on the old left edge. */
  function FlipBBox(b: BBox): (r: BBox)
    ensures r.width == b.height && r.height == b.width
    ensures Bottom(r) == Bottom(b)
    ensures Right(r) == b.x
  {
    BBox(b.x - b.height, b.y - (b.width - b.height), b.height, b.width)
  }

  /** The inverse of `FlipBBox`. */
  function UnflipBBox(b: BBox): (r: BBox)
    ensures FlipBBox(r) == b
  {
    BBox(b.x + b.width, b.y + b.height - b.width, b.height, b.width)
  }

  lemma UnflipAfterFlip(b: BBox)
    ensures UnflipBBox(FlipBBox(b)) == b
  {
  }

  /** Flipping twice restores `y`, `width` and `height` but moves `x` left by
      `width + height`: `flipBBox` is not its own inverse unless both are 0. */
  lemma FlipTwice(b: BBox)
    ensures var r := FlipBBox(FlipBBox(b));
            r.y == b.y && r.width == b.width && r.height == b.height
            && r.x == b.x - (b.width + b.height)
    ensures FlipBBox(FlipBBox(b)) == b <==> b.width + b.height == 0.0
  {
  }

  /** Lines 128-137: the overlay box of one item, flipped when `transform[0]`
      is 0. */
  function OverlayBox(t: TextItem, viewportHeight: real, scale: real): (b: BBox)
    ensures IsVertical(t) ==> b == FlipBBox(ProjectBox(t, viewportHeight, scale))
    ensures !IsVertical(t) ==> b == ProjectBox(t, viewportHeight, scale)
  {
    var b := ProjectBox(t, viewportHeight, scale);
    if t.transform.scaleX == 0.0 then FlipBBox(b) else b
  }

  /** Maps an overlay box back to document space: divide by `scale` and undo
      the vertical flip. */
  function Unproject(b: BBox, viewportHeight: real, scale: real): BBox
    requires scale != 0.0
  {
    BBox(b.x / scale, (viewportHeight - Bottom(b)) / scale, b.width / scale, b.height / scale)
  }

  /** For a horizontal item and a non-zero scale the overlay box determines
      the item's document box. */
  lemma ProjectionRoundTrip(t: TextItem, viewportHeight: real, scale: real)
    requires scale != 0.0 && !IsVertical(t)
    ensures Unproject(OverlayBox(t, viewportHeight, scale), viewportHeight, scale) == ItemBox(t)
  {
    var b := ProjectBox(t, viewportHeight, scale);
    assert (viewportHeight - Bottom(b)) / scale == Y(t);
  }

  /** For a vertical item the document box is recovered by undoing the flip first. */
  lemma VerticalProjectionRoundTrip(t: TextItem, viewportHeight: real, scale: real)
    requires scale != 0.0 && IsVertical(t)
    ensures Unproject(UnflipBBox(OverlayBox(t, viewportHeight, scale)), viewportHeight, scale) == ItemBox(t)
  {
    ProjectionRoundTrip(t.(transform := t.transform.(scaleX := 1.0)), viewportHeight, scale);
  }
}
