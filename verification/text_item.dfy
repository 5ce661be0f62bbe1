/**
 The extracted text fragments the reader works on: pdf.js `TextItem` records
 (a string, a 2-D transform, a width and height, an end-of-line flag) and the
 `TextMarkedContent` markers that share the same item stream. The recognising
 test `isTextItem` (src/app/core/pdfjs/Utils.ts) becomes the datatype variant.
 */
module TextItems {
  import opened BBoxes

  datatype Option<T> = None | Some(value: T)

  /** The six entries `[scaleX, skewX, skewY, scaleY, x, y]` of `transform`. */
  datatype Transform = Transform(scaleX: real, skewX: real, skewY: real, scaleY: real, x: real, y: real)

  datatype TextItem = TextItem(str: string, transform: Transform, width: real, height: real, hasEOL: bool)

  datatype ContentItem = Text(item: TextItem) | MarkedContent

  /** `transform[4]`, the horizontal origin in document space. */
  function X(t: TextItem): real { t.transform.x }

  /** `transform[5]`, the vertical origin in document space (bottom-up). */
  function Y(t: TextItem): real { t.transform.y }

  /** `transform[0] === 0`: the fragment is written vertically. */
  predicate IsVertical(t: TextItem) { t.transform.scaleX == 0.0 }

  /** The box `(transform[4], transform[5], width, height)` of one item. */
  function ItemBox(t: TextItem): BBox {
    BBox(X(t), Y(t), t.width, t.height)
  }
}
