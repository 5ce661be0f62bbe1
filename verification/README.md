# Paragraph reconstruction and overlay geometry of a PDF read-aloud reader

This project models, in Dafny, the pure core of a browser PDF reader that turns
the positioned text fragments pdf.js extracts from a page into paragraphs to
be read aloud and highlighted:

- `text.dfy` (`Text`): the JavaScript string built-ins the core relies on —
  `trim`, `split(' ')`, `endsWith`, and the digits-only test `/^([0-9]+)$/`.
- `bbox.dfy` (`BBoxes`): the `BBox` record, the box union that lines grow, and
  `doOverlap` exactly as written.
- `text_item.dfy` (`TextItems`): pdf.js text items and marked-content items.
  `isTextItem` becomes the datatype variant.
- `paragraph.dfy` (`Paragraphs`): the `Paragraph` accumulator, with every
  method turned into a function returning the new record.
- `line.dfy` (`Lines`): the `Line` class, its `add` and its constructor.
- `paragraph_detection.dfy` (`ParagraphDetection`): the fragment-level
  paragraph builder `getParagraphs2`, written as a left fold over the item
  stream. A reference description of its output comes with it.
- `prefilter.dfy` (`PageNumberFilter`): the page-number band detection of
  `getPreFilter` and the predicate it returns.
- `overlay.dfy` (`Overlay`): the document-to-overlay projection in `buildSVG`
  and `flipBBox`.
- `url_safe.dfy` (`UrlSafe`): the base64 to base64url rewrite that `hashBytes`
  applies to the document digest (section 5 of RFC 4648).

Coordinates are exact `real`s. `Math.round(x)` is `(x + 0.5).Floor`. The
bucket key rounds once (`Round(y)`) and the returned predicate rounds twice
(`Round(Round(y * 100) / 100)`). The two can differ
(`PageNumberFilter.KeyAndFilterRoundingDiffer`).

The central result is `ParagraphDetection.GetParagraphs2Spec`. It pins down the
builder's output completely:

- Concatenating the paragraphs' item lists gives exactly the retained items
  (text items whose string does not trim to ""), in stream order.
- Every paragraph has at least one item and non-empty text.
- Each paragraph's text is its items' strings joined by the de-hyphenation and
  single-space rule.
- Two consecutive retained items lie in the same paragraph exactly when no
  boundary falls between them. A boundary falls when the vertical-gap or
  font-height test fails, or when the earlier item is a short end-of-line
  "headline".

What the code does, in detail:

- The merge test is exactly the vertical-gap and font-height comparison of
  src/app/core/pdfjs/ParagraphDetection.ts:18-25. The origins must be less
  than twice the previous item's height apart, and the heights less than 1
  apart. Nothing else enters it (`ParagraphDetection.Joins`).
- The headline rule is `hasEOL` and fewer than five `' '`-separated pieces
  (src/app/core/pdfjs/ParagraphDetection.ts:47-48), that is, fewer than four
  spaces (`ParagraphDetection.IsHeadline`).
- `Paragraph.trim()` discards its result, so paragraph texts are never trimmed
  (`Paragraphs.TrimKeepsSurroundingWhitespace`).
- `flipBBox` is not its own inverse (`Overlay.FlipTwice`).
- The band is not necessarily the most frequent one. The comparator at
  src/app/core/pdfjs/ParagraphDetection.ts:130 subtracts the key string's
  length from the other entry's bucket size, so it is not a consistent
  ordering. The model therefore takes the sort outcome as a parameter: any
  permutation of the bucket keys. The chosen band is the first key in that
  order whose bucket has more than five members
  (`PageNumberFilter.ChosenBandNeedNotBeLargest`).

## Model

| member | source | states |
|---|---|---|
| Text.TrimStart | src/app/core/pdfjs/ParagraphDetection.ts:12 | the leading-whitespace strip used by `str.trim()` returns the suffix after a whitespace-only prefix, and that suffix does not start with whitespace |
| Text.TrimEnd | src/app/core/pdfjs/ParagraphDetection.ts:12 | the trailing-whitespace strip returns the prefix before a whitespace-only suffix, and that prefix does not end with whitespace |
| Text.TrimIsInnerSlice | src/app/core/pdfjs/ParagraphDetection.ts:103-104 | `s.trim()` is a slice `s[i..j]` with only whitespace outside it and no whitespace at either of its ends |
| Text.TrimEmptyIffAllWhitespace | src/app/core/pdfjs/ParagraphDetection.ts:12 | `str.trim() === ""` holds exactly when every character is whitespace, so the blank-item test drops whitespace-only items and nothing else |
| Text.Trim | src/app/core/pdfjs/ParagraphDetection.ts:12 | `str.trim()` is no longer than `str`, neither starts nor ends with whitespace, and is "" for a whitespace-only string |
| Text.NotBlank | src/app/core/pdfjs/ParagraphDetection.ts:12 | a string whose first character is not whitespace passes the non-blank test |
| Text.IsDigits | src/app/core/pdfjs/ParagraphDetection.ts:104 | a string accepted by `/^([0-9]+)$/` is non-empty and is its own trim, so the test on `str.trim()` sees the digits themselves |
| Text.DigitsAreTrimmed | src/app/core/pdfjs/ParagraphDetection.ts:103-104 | trimming a non-empty string of ASCII digits leaves it unchanged |
| Text.Split | src/app/core/pdfjs/ParagraphDetection.ts:48 | `split(' ')` yields one more piece than there are spaces, and no piece contains a space |
| Text.JoinSplit | src/app/core/pdfjs/ParagraphDetection.ts:48 | joining the pieces of `split(' ')` with `' '` gives back the original string |
| Text.EndsWithIffSuffix | src/app/core/pdfjs/Paragraph.ts:25-27 | the backwards character comparison of `endsWith` holds exactly when the argument is a suffix |
| BBoxes.Union | src/app/core/pdfjs/Line.ts:26-34 | the union contains both boxes, and each of its four edges is the corresponding edge of one of them |
| BBoxes.UnionIsLeast | src/app/core/pdfjs/Line.ts:26-34 | any box containing both boxes contains their union, so the union is the least enclosing box |
| BBoxes.UnionCommutes | src/app/core/pdfjs/Line.ts:30-34 | the union does not depend on argument order |
| BBoxes.DoOverlapSymmetric | src/app/core/pdfjs/Bbox.ts:8-12 | `doOverlap(a, b) == doOverlap(b, a)` |
| BBoxes.DoOverlap | src/app/core/pdfjs/Bbox.ts:8-12 | `doOverlap` is true whenever the two widths and the two heights have non-negative sums, and whenever the boxes intersect as closed rectangles |
| BBoxes.AxisTestsFailOnlyOnNegativeExtent | src/app/core/pdfjs/Bbox.ts:9-10 | the x-test can fail only if the two widths sum to a negative number, and likewise the y-test with the heights; so each test always passes for non-negative extents |
| BBoxes.DoOverlapFalseOnlyOnNegativeExtent | src/app/core/pdfjs/Bbox.ts:8-12 | `doOverlap` returns false only if some width or height is negative |
| BBoxes.IntersectsImpliesDoOverlap | src/app/core/pdfjs/Bbox.ts:8-12 | whenever two boxes intersect as closed rectangles, `doOverlap` returns true |
| BBoxes.DoOverlapOnDisjointBoxes | src/app/core/pdfjs/Bbox.ts:8-12 | two unit squares ten units apart are reported as overlapping although they share no point |
| BBoxes.IntersectsIffCommonPoint | src/app/core/pdfjs/Bbox.ts:8-12 | the intended interval test is symmetric and, for non-negative extents, holds exactly when the boxes share a point |
| Paragraphs.Append | src/app/core/pdfjs/Paragraph.ts:16-19 | `append` extends the text by exactly the item's string at its end and pushes the item after the unchanged earlier items |
| Paragraphs.Empty | src/app/core/pdfjs/Paragraph.ts:9-14 | `new Paragraph()` with no item is empty and holds no items |
| Paragraphs.IsEmpty | src/app/core/pdfjs/Paragraph.ts:21-23 | an empty paragraph does not end with `-`; a non-empty one has a last character and ends with it |
| Paragraphs.FromItem | src/app/core/pdfjs/Paragraph.ts:9-14 | `new Paragraph(item)` appends the item to an empty paragraph, so its text is `item.str` and its items are `[item]` |
| Paragraphs.EmptinessAfterAppend | src/app/core/pdfjs/Paragraph.ts:21-23 | a fresh paragraph is empty; appending a non-empty string makes it non-empty; appending "" leaves emptiness as it was |
| Paragraphs.ParagraphEndsWith | src/app/core/pdfjs/Paragraph.ts:25-27 | `endsWith(s)` holds exactly when `s` is a suffix of the text |
| Paragraphs.UpdateText | src/app/core/pdfjs/Paragraph.ts:33-35 | `updateText(f)` replaces the text by `f` of itself and leaves the items alone |
| Paragraphs.TrimParagraph | src/app/core/pdfjs/Paragraph.ts:37-39 | `trim()` leaves both the text and the items unchanged |
| Paragraphs.TrimKeepsSurroundingWhitespace | src/app/core/pdfjs/Paragraph.ts:37-39 | `trim()` keeps the spaces around `" a "`, although trimming the string gives `"a"` |
| Lines.Add | src/app/core/pdfjs/Line.ts:18-36 | `add` appends the item to an unchanged prefix. The first add sets the box to the item's box. A later add keeps the old box and the item box inside the new box, and takes each edge from one of them. The box is defined once an item is present |
| Lines.AddIsLeastCover | src/app/core/pdfjs/Line.ts:25-35 | the grown box lies inside every box that contains the old box and the item box |
| Lines.NewLine | src/app/core/pdfjs/Line.ts:9-16 | the constructor's line holds exactly the given items, and its box is defined exactly when there is one |
| Lines.NewLineCovers | src/app/core/pdfjs/Line.ts:9-35 | the constructed box contains every item's box |
| Lines.NewLineEdgesAttained | src/app/core/pdfjs/Line.ts:9-35 | each edge of the constructed box is an edge of some item: the left edge is some item's `x`, the right edge some item's `x + width`, and likewise vertically |
| Lines.NewLineEdgeAttained | src/app/core/pdfjs/Line.ts:9-35 | any one edge of the constructed box equals the same edge of the item at the returned position |
| Lines.NewLineIsHull | src/app/core/pdfjs/Line.ts:9-35 | the constructed box is the hull of the items: its left edge is the minimum item `x`, its right edge the maximum `x + width`, and likewise vertically |
| Lines.HullUnique | src/app/core/pdfjs/Line.ts:25-35 | two hulls of the same set of items are the same box |
| Lines.NewLineOrderIndependent | src/app/core/pdfjs/Line.ts:9-35 | lines built from the same items in any order or multiplicity have the same box |
| ParagraphDetection.RetainedItems | src/app/core/pdfjs/ParagraphDetection.ts:11-12 | the items the builder looks at are text items whose string is not blank, in stream order |
| ParagraphDetection.Joins | src/app/core/pdfjs/ParagraphDetection.ts:17-25 | the merge test holds exactly when the vertical origins are less than twice the previous height apart and the heights differ by less than 1 |
| ParagraphDetection.IsHeadline | src/app/core/pdfjs/ParagraphDetection.ts:47-48 | an item is a headline exactly when it ends a line and its string has fewer than four spaces |
| ParagraphDetection.Merge | src/app/core/pdfjs/ParagraphDetection.ts:26-32 | on a merge the item is appended to the list. A text ending in `-` loses that hyphen before the item's string is added. Other non-empty text gets exactly one space before it. Empty text becomes just the item's string |
| ParagraphDetection.MergeFollowsJoinRule | src/app/core/pdfjs/ParagraphDetection.ts:27-32 | the paragraph operations used on a merge produce the string join rule |
| ParagraphDetection.Place | src/app/core/pdfjs/ParagraphDetection.ts:17-44 | the first retained item opens a paragraph. A later item that passes the gap and font-height tests joins the open paragraph, and nothing is emitted. Otherwise the open paragraph is emitted if its text is non-empty, and the item opens a new one |
| ParagraphDetection.CloseHeadline | src/app/core/pdfjs/ParagraphDetection.ts:46-53 | after an end-of-line item with fewer than five `' '`-pieces the open paragraph is emitted and an empty one is opened; otherwise nothing changes |
| ParagraphDetection.Init | src/app/core/pdfjs/ParagraphDetection.ts:7-9 | the starting state (no paragraphs, an empty open paragraph, no previous item) satisfies the fold invariant for an empty stream of retained items |
| ParagraphDetection.Step | src/app/core/pdfjs/ParagraphDetection.ts:11-53 | one callback: an item that is not a text item or whose string trims to "" returns early and changes nothing (:12); a retained item becomes the previous item. The emitted paragraphs so far stay as they were, and at most two are added |
| ParagraphDetection.Run | src/app/core/pdfjs/ParagraphDetection.ts:11-54 | after the `forEach` over any stream, the state satisfies the fold invariant for that stream's retained items. The emitted paragraphs and the open one flatten to those items, and the previous item is the last of them. Every emitted paragraph is closed and chained to the next. The open paragraph is empty exactly after a headline |
| ParagraphDetection.GetParagraphs2Spec | src/app/core/pdfjs/ParagraphDetection.ts:6-62 | the output flattens to exactly the retained items in order. Every paragraph is non-empty and its text is its items joined by the hyphen/space rule. Consecutive items share a paragraph exactly when the join test passes and the earlier item is not a headline. A headline item always ends its paragraph |
| ParagraphDetection.GetParagraphs2 | src/app/core/pdfjs/ParagraphDetection.ts:6-62 | the output paragraphs flatten to exactly the retained items in order. Each has items and non-empty text, its text is the join of its items, and no boundary falls inside it. A boundary falls between each paragraph's last item and the next paragraph's first |
| ParagraphDetection.StepFirst | src/app/core/pdfjs/ParagraphDetection.ts:40-44 | the first retained item, if not a headline, opens a paragraph holding just itself and becomes the previous item |
| ParagraphDetection.StepJoin | src/app/core/pdfjs/ParagraphDetection.ts:17-32 | a retained non-headline item that passes the merge test is merged into the open paragraph, and nothing is emitted |
| ParagraphDetection.RunJoiningPair | src/app/core/pdfjs/ParagraphDetection.ts:11-53 | a first item and a second that joins it, neither a headline, leave one open paragraph holding both and nothing emitted |
| ParagraphDetection.GetParagraphs2OneOpen | src/app/core/pdfjs/ParagraphDetection.ts:56-61 | when the stream ends with nothing emitted and one non-empty open paragraph, that paragraph is the whole output |
| ParagraphDetection.DroppedItemsAppearNowhere | src/app/core/pdfjs/ParagraphDetection.ts:12 | blank and marked-content items appear in no paragraph, and a stream with no retained item yields `[]` |
| ParagraphDetection.HyphenatedWordExample | src/app/core/pdfjs/ParagraphDetection.ts:6-62 | for any two text items `"Hel-"` and `"lo world."` at y 100 and 100.05, both of height 10 and neither ending a line, `getParagraphs2` returns the single paragraph `"Hello world."` holding both items |
| ParagraphDetection.HyphenatedMerge | src/app/core/pdfjs/ParagraphDetection.ts:26-32 | merging `"lo world."` into the paragraph opened by `"Hel-"` drops the hyphen and gives `"Hello world."` with both items |
| PageNumberFilter.Round | src/app/core/pdfjs/ParagraphDetection.ts:105 | `Math.round` gives the integer within half a unit of its argument, rounding halves up |
| PageNumberFilter.BandKey | src/app/core/pdfjs/ParagraphDetection.ts:105 | the bucket key is the integer within half a unit of the item's vertical origin |
| PageNumberFilter.FilterY | src/app/core/pdfjs/ParagraphDetection.ts:137-139 | the coordinate the predicate compares is an integer within 0.505 of the vertical origin |
| PageNumberFilter.Accepts | src/app/core/pdfjs/ParagraphDetection.ts:137-142 | the three returned closures: with no band every item is accepted (:142). Below `maxY / 2` the band predicate accepts exactly the items whose doubly-rounded y is greater than the band (:137), and otherwise exactly those whose doubly-rounded y is smaller (:139). Neither accepts an item on the band |
| PageNumberFilter.BandSidesPartition | src/app/core/pdfjs/ParagraphDetection.ts:136-140 | for one band, the "above" and "below" closures never both accept an item, and an item neither accepts lies on the band |
| PageNumberFilter.AddToBucket | src/app/core/pdfjs/ParagraphDetection.ts:106-111 | pushing an item adds its key if needed, appends the item to that key's bucket, and leaves every other bucket unchanged |
| PageNumberFilter.ScanBuckets | src/app/core/pdfjs/ParagraphDetection.ts:101-112 | after sampling, the bucket of each key holds exactly the counted items rounding to it, in order: non-blank, non-vertical and digits-only after trimming. No bucket is empty and no counted key is missing |
| PageNumberFilter.ScanStep | src/app/core/pdfjs/ParagraphDetection.ts:101-116 | one loop iteration pushes a counted item onto the bucket of its key and leaves the buckets alone otherwise. It never lowers `maxY`, raises it to at least a non-skipped item's origin, and only to that origin, and leaves it alone for a skipped item |
| PageNumberFilter.Scan | src/app/core/pdfjs/ParagraphDetection.ts:92-116 | after sampling, `maxY` is at least 0 and no bucket is empty |
| PageNumberFilter.ScanBucketAt | src/app/core/pdfjs/ParagraphDetection.ts:101-112 | the bucket of a present key is exactly the counted items rounding to it, and is non-empty; an absent key has no counted item |
| PageNumberFilter.ScanMaxYBounds | src/app/core/pdfjs/ParagraphDetection.ts:92-116 | `maxY` is at least 0 and at least every non-skipped item's vertical origin |
| PageNumberFilter.ScanMaxYAttained | src/app/core/pdfjs/ParagraphDetection.ts:92-116 | `maxY` is either its initial 0 or the origin of the non-skipped item at the returned position |
| PageNumberFilter.FirstQualifying | src/app/core/pdfjs/ParagraphDetection.ts:130-134 | the chosen key is the first key in the sorted order whose bucket has more than five members: every key before it has at most five. If no key is chosen, no bucket has more than five |
| PageNumberFilter.FirstQualifyingIndex | src/app/core/pdfjs/ParagraphDetection.ts:131-134 | the returned position has a bucket of more than five members and every earlier key's bucket has at most five; it is the length of the order when no bucket qualifies |
| PageNumberFilter.ChooseFilter | src/app/core/pdfjs/ParagraphDetection.ts:130-142 | the predicate accepts everything exactly when no bucket has more than five members. Otherwise the band is such a bucket's key, with "above" polarity exactly when the band is below `maxY / 2` |
| PageNumberFilter.GetPreFilterSpec | src/app/core/pdfjs/ParagraphDetection.ts:130-142 | with no key counted more than five times every item is accepted, and with one the filter is not accept-all. The band is counted more than five times. Below `maxY / 2` it accepts exactly the items with doubly-rounded y above the band, otherwise exactly those below; the band itself is always rejected |
| PageNumberFilter.GetPreFilter | src/app/core/pdfjs/ParagraphDetection.ts:130-142 | the filter accepts everything exactly when no bucket has more than five members. Otherwise its band is a sorted key with more than five members, and an item whose doubly-rounded y equals the band is rejected |
| PageNumberFilter.ChosenBandNeedNotBeLargest | src/app/core/pdfjs/ParagraphDetection.ts:130-131 | with buckets of 6 and 8 members, a sort outcome listing the 6-member key first makes it the band |
| PageNumberFilter.KeyAndFilterRoundingDiffer | src/app/core/pdfjs/ParagraphDetection.ts:105-139 | an item at y = 0.495 is counted under key 0 but the predicate sees coordinate 1 |
| Overlay.EffectiveDpr | src/app/services/pdf.service.ts:94 | `devicePixelRatio \|\| 1` is never zero. It is the ratio itself when that is non-zero, and 1 when the ratio is 0 |
| Overlay.ProjectionScale | src/app/services/pdf.service.ts:125-126 | the effective scale times the resolution factor is the viewport scale times the device-pixel ratio |
| Overlay.ProjectBox | src/app/services/pdf.service.ts:128-133 | width, height and `x` are multiplied by the scale, and the overlay box's bottom edge is the viewport height minus the scaled document origin |
| Overlay.FlipBBox | src/app/services/pdf.service.ts:167-175 | `flipBBox` swaps width and height, keeps the bottom edge, and puts the new right edge on the old left edge |
| Overlay.UnflipBBox | src/app/services/pdf.service.ts:167-175 | every box is the flip of its unflip |
| Overlay.UnflipAfterFlip | src/app/services/pdf.service.ts:167-175 | unflipping a flipped box gives the original, so `flipBBox` loses no information |
| Overlay.FlipTwice | src/app/services/pdf.service.ts:167-175 | flipping twice restores `y`, width and height but shifts `x` by `-(width + height)`, so it is self-inverse only when that sum is 0 |
| Overlay.OverlayBox | src/app/services/pdf.service.ts:128-137 | the overlay box is the projected box, flipped exactly when `transform[0] === 0` |
| Overlay.ProjectionRoundTrip | src/app/services/pdf.service.ts:128-137 | for a horizontal item and non-zero scale, dividing by the scale and undoing the y-flip recovers `x`, `y`, width and height |
| Overlay.VerticalProjectionRoundTrip | src/app/services/pdf.service.ts:128-137 | for a vertical item, unflipping first and then unprojecting recovers the document box |
| UrlSafe.ReplaceAll | src/app/core/Utils.ts:18-19 | a global one-character `replace` keeps the length and changes exactly the occurrences of that character |
| UrlSafe.TrailingRun | src/app/core/Utils.ts:20 | the trailing run of `=` is no longer than the string |
| UrlSafe.StripTrailing | src/app/core/Utils.ts:20 | removing `/=+$/` leaves a prefix that does not end in `=`, and everything removed is `=` |
| UrlSafe.ToUrlSafe | src/app/core/Utils.ts:17-20 | the rewrite maps `+` to `-` and `/` to `_` at each kept position and drops exactly the trailing `=` run. The result has no `+` or `/` and does not end in `=` |
| UrlSafe.StripLength | src/app/core/Utils.ts:20 | the stripped length is the input length minus the trailing run |
| UrlSafe.SubstituteKeepsTrailingRun | src/app/core/Utils.ts:17-20 | the two substitutions neither create nor remove `=`, so the trailing run is unchanged by them |
| UrlSafe.ToUrlSafeIdempotent | src/app/core/Utils.ts:17-20 | rewriting a rewritten string changes nothing |
| UrlSafe.ToUrlSafeAlphabet | src/app/core/Utils.ts:17-20 | standard padded base64 text is rewritten into the URL-safe alphabet only |
| UrlSafe.DigestIdentityLength | src/app/core/Utils.ts:14-20 | the 44-character base64 text of a 32-byte digest, ending in one `=`, becomes a 43-character identity |

## Left out

- Page fetching in `getPreFilter` (`document.getPage`, `getTextContent`) and the page-index arithmetic that picks the sampled pages. The sampled items are a given sequence.
- The unused `coordMap`, `id` and `allTextItems` bookkeeping of `getPreFilter`, and the commented-out earlier version.
- `Paragraph.matches`, which needs a regular-expression engine.
- The SHA-256 digest and `btoa` in `hashBytes`: external cryptographic and encoding calls. Only the rewrite of their output is modelled.
- `debounced` (timers), persistence, speech synthesis, notifications, page rendering, file reading, the UI components, and the SVG/DOM construction in `buildSVG`, including its delayed glyph-rescaling pass and the item-to-rectangle map.
- IEEE-754 floating point: coordinates are exact reals, so rounding error, `NaN` and infinities are not modelled.
- Overlay.ProjectionScale: requires a non-zero resolution factor. In JavaScript a zero factor gives an infinite scale, which reals cannot represent.
- Overlay.EffectiveDpr: the `undefined` and `NaN` cases of `devicePixelRatio || 1` are not modelled, because the ratio is a real number. A ratio of 0 is modelled and gives 1.
- PageNumberFilter.GetPreFilter: the sort outcome is a parameter (any permutation of the bucket keys), not computed. The comparator at src/app/core/pdfjs/ParagraphDetection.ts:130 is not a consistent ordering, so the real outcome depends on the engine's sort algorithm.
- The map keys of `getPreFilter` are the integers themselves rather than their decimal strings. For |n| < 10^21, `parseInt(String(n))` gives back `n`. Larger keys are printed in exponent form and do not round-trip; like the rest of IEEE-754 behaviour, that is not modelled.
- Text items carry only the fields the core reads (`str`, `transform`, `width`, `height`, `hasEOL`); `dir` and `fontName` are omitted.
- No line-grouping algorithm, line-level paragraph builder or reading-position state machine appears in the modelled source files, so none is modelled. Only the `Line` class itself is.

## Findings

| source | as written | input that shows it | evidently intended | confidence | as-written member | corrected member |
|---|---|---|---|---|---|---|
| src/app/core/pdfjs/Bbox.ts:9-10 | each axis test is `a.x + a.width >= b.x \|\| b.x + b.width >= a.x`, true for any boxes with non-negative extents | `a = (0, 0, 1, 1)`, `b = (10, 10, 1, 1)`: `doOverlap` is true, yet the boxes are ten units apart | the two comparisons joined by `&&` on each axis: closed-interval intersection | medium, not executed | BBoxes.DoOverlapOnDisjointBoxes | BBoxes.IntersectsIffCommonPoint |
