/**
 The `Paragraph` accumulator of src/app/core/pdfjs/Paragraph.ts as an immutable
 record: a text buffer and the list of items that contributed to it. Every
 mutating method of the class becomes a function returning the new record.
 */
module Paragraphs {
  import opened Text
  import opened TextItems

  datatype Paragraph = Paragraph(fullText: string, textItems: seq<TextItem>)

  /** `new Paragraph()`: no text and no items. */
  function Empty(): (r: Paragraph)
    ensures IsEmpty(r) && |r.textItems| == 0
  {
    Paragraph("", [])
  }

  /** `p.append(item)`: the text grows by `item.str` at its end, and the item
      is pushed after the earlier ones, which stay as they were. */
  function Append(p: Paragraph, t: TextItem): (r: Paragraph)
    ensures |r.fullText| == |p.fullText| + |t.str|
    ensures r.fullText[..|p.fullText|] == p.fullText && r.fullText[|p.fullText|..] == t.str
    ensures |r.textItems| == |p.textItems| + 1
    ensures r.textItems[..|p.textItems|] == p.textItems && r.textItems[|p.textItems|] == t
  {
    Paragraph(p.fullText + t.str, p.textItems + [t])
  }

  /** `new Paragraph(item)`: the constructor appends the one item to an empty
      paragraph, so the text is the item's string and the item list is `[item]`. */
  function FromItem(t: TextItem): (r: Paragraph)
    ensures r.fullText == t.str && r.textItems == [t]
  {
    Append(Empty(), t)
  }

  /** `p.isEmpty()`. An empty paragraph does not end with a hyphen, and a
      non-empty one ends with its last character. */
  function IsEmpty(p: Paragraph): (b: bool)
    ensures b ==> !ParagraphEndsWith(p, "-")
    ensures !b ==> |p.fullText| > 0 && ParagraphEndsWith(p, [p.fullText[|p.fullText| - 1]])
  {
    p.fullText == ""
  }

  /** Appending a non-empty string makes a paragraph non-empty; a fresh
      paragraph is empty and one built from a non-empty item is not. */
  lemma EmptinessAfterAppend(p: Paragraph, t: TextItem)
    requires t.str != ""
    ensures IsEmpty(Empty())
    ensures !IsEmpty(Append(p, t)) && !IsEmpty(FromItem(t))
    ensures IsEmpty(Append(p, t.(str := ""))) <==> IsEmpty(p)
  {
  }

  /** `p.endsWith(s)` (no `endPosition`): `s` is a suffix of the text. */
  function ParagraphEndsWith(p: Paragraph, s: string): (b: bool)
    ensures b <==> |s| <= |p.fullText| && p.fullText[|p.fullText| - |s|..] == s
  {
    EndsWithIffSuffix(p.fullText, s);
    EndsWith(p.fullText, s)
  }

  /** `p.updateText(f)`: the text is replaced by `f` of itself; the item list
      is left alone. */
  function UpdateText(p: Paragraph, update: string -> string): (r: Paragraph)
    ensures r.textItems == p.textItems
    ensures r.fullText == update(p.fullText)
  {
    p.(fullText := update(p.fullText))
  }

  /** `p.trim()`: the method computes `fullText.trim()` and discards it, so
      the paragraph is unchanged. */
  function TrimParagraph(p: Paragraph): (r: Paragraph)
    ensures r.fullText == p.fullText && r.textItems == p.textItems
  {
    var _ := Trim(p.fullText);
    p
  }

  /** The discarded trim is observable: a paragraph whose text has a leading
      space keeps it after `trim()`. */
  lemma TrimKeepsSurroundingWhitespace()
    ensures var p := Paragraph(" a ", []);
            TrimParagraph(p).fullText == " a " && Trim(p.fullText) == "a"
  {
    assert IsWhitespace(' ') && !IsWhitespace('a');
    assert " a "[1..] == "a " && "a "[..1] == "a";
    assert TrimStart("a ") == "a ";
    assert TrimStart(" a ") == "a ";
    assert TrimEnd("a") == "a";
    assert TrimEnd("a ") == "a";
  }
}
