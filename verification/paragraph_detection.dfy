/**
 The fragment-level paragraph builder `getParagraphs2` of
 src/app/core/pdfjs/ParagraphDetection.ts, as a left fold over the page's
 item stream. Marked-content items and items whose text trims to "" are
 skipped; every other item either joins the open paragraph (vertically close,
 same font height) or closes it and opens a new one; an end-of-line item with
 fewer than five space-separated pieces closes its paragraph at once.
 */
module ParagraphDetection {
  import opened Text
  import opened TextItems
  import opened Paragraphs

  function Abs(x: real): real { if x < 0.0 then -x else x }

  function Last<T>(s: seq<T>): T
    requires |s| > 0
  {
    s[|s| - 1]
  }

  /** Items the builder looks at: text items whose string is not blank. */
  predicate Retained(c: ContentItem) {
    c.Text? && Trim(c.item.str) != ""
  }

  /** The retained items of a stream, in stream order. */
  function RetainedItems(items: seq<ContentItem>): (r: seq<TextItem>)
    ensures |r| <= |items|
    ensures forall i :: 0 <= i < |r| ==> Trim(r[i].str) != ""
  {
    if |items| == 0 then []
    else
      var c := items[|items| - 1];
      RetainedItems(items[..|items| - 1]) + (if Retained(c) then [c.item] else [])
  }

  /** `Math.abs(item.y - previous.y) - previous.height`. */
  function VerticalDistance(prev: TextItem, t: TextItem): real {
    Abs(Y(t) - Y(prev)) - prev.height
  }

  /** The merge test of lines 17-25: vertically close and the font height
      changes by less than one unit. Because the distance already subtracts
      the previous height, "close" means the two origins are less than twice
      that height apart. */
  function Joins(prev: TextItem, t: TextItem): (b: bool)
    ensures b <==> && -2.0 * prev.height < Y(t) - Y(prev) < 2.0 * prev.height
                   && prev.height - 1.0 < t.height < prev.height + 1.0
  {
    VerticalDistance(prev, t) < prev.height && Abs(t.height - prev.height) < 1.0
  }

  /** The headline rule of line 48: an end-of-line item whose text splits on
      `' '` into fewer than five pieces. */
  function IsHeadline(t: TextItem): (b: bool)
    ensures b <==> t.hasEOL && Count(t.str, ' ') < 4
  {
    t.hasEOL && |Split(t.str, ' ')| < 5
  }

  /** A paragraph boundary falls between two consecutive retained items. */
  predicate Breaks(prev: TextItem, t: TextItem) {
    !Joins(prev, t) || IsHeadline(prev)
  }

  /** The callback of `updateText` at line 28: `s.slice(0, s.length - 1)`. */
  function DropLastChar(s: string): string {
    if |s| == 0 then s else s[..|s| - 1]
  }

  /** The callback of `updateText` at line 30. */
  function AddSpace(s: string): string {
    s + " "
  }

  /** Lines 27-32: de-hyphenate or insert one space, then append the item. */
  function Merge(p: Paragraph, t: TextItem): (r: Paragraph)
    ensures r.textItems == p.textItems + [t]
    ensures |p.fullText| > 0 && p.fullText[|p.fullText| - 1] == '-' ==>
              r.fullText == p.fullText[..|p.fullText| - 1] + t.str
    ensures (|p.fullText| > 0 && p.fullText[|p.fullText| - 1] != '-') ==>
              r.fullText == p.fullText + " " + t.str
    ensures p.fullText == "" ==> r.fullText == t.str
  {
    var p' :=
      if ParagraphEndsWith(p, "-") then UpdateText(p, DropLastChar)
      else if !IsEmpty(p) then UpdateText(p, AddSpace)
      else p;
    Append(p', t)
  }

  /** The join rule stated on strings, the reference for paragraph texts. */
  function JoinText(text: string, s: string): string {
    if |text| > 0 && text[|text| - 1] == '-' then text[..|text| - 1] + s
    else if |text| > 0 then text + " " + s
    else s
  }

  /** The text a paragraph holding `items` must carry: their strings joined
      left to right by the join rule. */
  function JoinTexts(items: seq<TextItem>): string {
    if |items| == 0 then ""
    else JoinText(JoinTexts(items[..|items| - 1]), items[|items| - 1].str)
  }

  datatype State = State(done: seq<Paragraph>, current: Paragraph, previous: Option<TextItem>)

  /** Lines 7-9: no paragraphs yet, an empty open paragraph, no previous item.
      This is the fold invariant for a stream with nothing retained yet. */
  function Init(): (st: State)
    ensures Inv(st, [])
  {
    State([], Empty(), None)
  }

  /** Lines 17-44 for one retained item: the first item opens a paragraph;
      a later one joins the open paragraph when `Joins` holds, and otherwise
      the open paragraph is emitted (if its text is not empty) and the item
      opens a new one. */
  function Place(st: State, t: TextItem): (r: State)
    ensures r.previous == Some(t)
    ensures st.previous.None? ==> r.done == st.done && r.current == FromItem(t)
    ensures st.previous.Some? && Joins(st.previous.value, t) ==>
              r.done == st.done && r.current.textItems == st.current.textItems + [t]
    ensures st.previous.Some? && !Joins(st.previous.value, t) ==>
              r.current == FromItem(t)
              && r.done == st.done + (if st.current.fullText == "" then [] else [st.current])
  {
    match st.previous
    case None => State(st.done, FromItem(t), Some(t))
    case Some(prev) =>
      if Joins(prev, t) then State(st.done, Merge(st.current, t), Some(t))
      else
        var closing := TrimParagraph(st.current);
        var done := if !IsEmpty(closing) then st.done + [closing] else st.done;
        State(done, FromItem(t), Some(t))
  }

  /** Lines 47-52: after a headline item the open paragraph is emitted and a
      fresh empty one is opened. */
  function CloseHeadline(st: State, t: TextItem): (r: State)
    ensures IsHeadline(t) ==> r.done == st.done + [st.current] && r.current == Empty()
    ensures !IsHeadline(t) ==> r == st
    ensures r.previous == st.previous
  {
    if t.hasEOL && |Split(t.str, ' ')| < 5 then
      State(st.done + [TrimParagraph(st.current)], Empty(), st.previous)
    else st
  }

  /** One iteration of the `forEach` callback. An item that is not retained
      returns early (line 12) and changes nothing; a retained item becomes the
      previous item. Emitted paragraphs are never revisited: at most two new
      ones are added after them. */
  function Step(st: State, c: ContentItem): (r: State)
    ensures !Retained(c) ==> r == st
    ensures Retained(c) ==> r.previous == Some(c.item)
    ensures |st.done| <= |r.done| <= |st.done| + 2 && r.done[..|st.done|] == st.done
  {
    if !Retained(c) then st
    else
      var placed := Place(st, c.item);
      var r := CloseHeadline(placed, c.item);
      DonePrefix(st.done, placed.done, r.done, st.current, placed.current);
      r
  }

  /** Two steps that each keep a list or extend it by one element leave the
      original list as a prefix of the result. */
  lemma DonePrefix(a: seq<Paragraph>, b: seq<Paragraph>, c: seq<Paragraph>, p: Paragraph, q: Paragraph)
    requires b == a || b == a + [p]
    requires c == b || c == b + [q]
    ensures |a| <= |c| <= |a| + 2 && c[..|a|] == a
  {
  }

  /** The `forEach` loop of lines 11-54. After any prefix of the stream the
      state satisfies the fold invariant for the items retained so far. */
  function Run(items: seq<ContentItem>): (st: State)
    ensures Inv(st, RetainedItems(items))
  {
    if |items| == 0 then Init()
    else
      var init, c := items[..|items| - 1], items[|items| - 1];
      var before := Run(init);
      assert RetainedItems(items) == RetainedItems(init) + (if Retained(c) then [c.item] else []);
      StepInv(before, RetainedItems(init), c);
      Step(before, c)
  }

  /** `getParagraphs2(data)`: fold the stream, then emit the open paragraph
      if its text is not empty (lines 56-59). The paragraphs hold exactly the
      retained items in order, each is closed, and a boundary separates every
      two neighbours. */
  function GetParagraphs2(items: seq<ContentItem>): (ps: seq<Paragraph>)
    ensures Flatten(ps) == RetainedItems(items)
    ensures AllClosed(ps) && Chained(ps)
  {
    var st := Run(items);
    CurrentEmptyIff(st, RetainedItems(items));
    if !IsEmpty(st.current) then
      assert Closed(st.current);
      AllClosedSnoc(st.done, st.current);
      ChainedSnoc(st.done, st.current);
      FlattenSnoc(st.done, st.current);
      st.done + [TrimParagraph(st.current)]
    else
      st.done
  }

  // ---------------------------------------------------------------------
  // The reference description of the output.

  /** The items of a paragraph list, concatenated in order. */
  function Flatten(ps: seq<Paragraph>): seq<TextItem> {
    if |ps| == 0 then [] else Flatten(ps[..|ps| - 1]) + ps[|ps| - 1].textItems
  }

  /** No boundary falls between two consecutive items of one paragraph. */
  ghost predicate NoInnerBreak(items: seq<TextItem>) {
    forall i :: 0 < i < |items| ==> !Breaks(items[i - 1], items[i])
  }

  /** A boundary falls between the last item of each paragraph and the first
      item of the next. */
  ghost predicate Chained(ps: seq<Paragraph>) {
    forall k :: 0 < k < |ps| ==> Linked(ps[k - 1], ps[k])
  }

  ghost predicate Linked(a: Paragraph, b: Paragraph) {
    |a.textItems| > 0 && |b.textItems| > 0 && Breaks(Last(a.textItems), b.textItems[0])
  }

  ghost predicate Built(p: Paragraph) {
    p.fullText == JoinTexts(p.textItems) && NoInnerBreak(p.textItems)
  }

  /** An emitted paragraph: at least one item, non-empty text, text given by
      the join rule, and no boundary inside. */
  ghost predicate Closed(p: Paragraph) {
    |p.textItems| > 0 && p.fullText != "" && Built(p)
  }

  ghost predicate AllClosed(ps: seq<Paragraph>) {
    forall k :: 0 <= k < |ps| ==> Closed(ps[k])
  }

  ghost predicate NonEmptyStrings(items: seq<TextItem>) {
    forall i :: 0 <= i < |items| ==> items[i].str != ""
  }

  /** The fold invariant after the retained items `rs` have been processed. */
  ghost predicate Inv(st: State, rs: seq<TextItem>) {
    && Flatten(st.done) + st.current.textItems == rs
    && st.previous == (if rs == [] then None else Some(Last(rs)))
    && AllClosed(st.done) && Chained(st.done)
    && Built(st.current) && NonEmptyStrings(st.current.textItems)
    && (|st.current.textItems| > 0 && |st.done| > 0 ==> Linked(Last(st.done), st.current))
    && (rs != [] ==> (st.current.textItems == [] <==> IsHeadline(Last(rs))))
  }

  // ---------------------------------------------------------------------
  // Helper facts.

  lemma FlattenSnoc(ps: seq<Paragraph>, p: Paragraph)
    ensures Flatten(ps + [p]) == Flatten(ps) + p.textItems
  {
    assert (ps + [p])[..|ps|] == ps;
  }

  /** The last flattened item is the last item of the last paragraph. */
  lemma {:induction false} FlattenLast(ps: seq<Paragraph>)
    requires AllClosed(ps) && |ps| > 0
    ensures |Flatten(ps)| > 0 && |Last(ps).textItems| > 0
    ensures Last(Flatten(ps)) == Last(Last(ps).textItems)
  {
    assert Closed(ps[|ps| - 1]);
  }

  /** Closed paragraphs that flatten to nothing are no paragraphs at all. */
  lemma FlattenEmpty(ps: seq<Paragraph>)
    requires AllClosed(ps) && Flatten(ps) == []
    ensures ps == []
  {
  }

  lemma JoinTextsSnoc(items: seq<TextItem>, t: TextItem)
    ensures JoinTexts(items + [t]) == JoinText(JoinTexts(items), t.str)
  {
    assert (items + [t])[..|items|] == items;
  }

  lemma JoinTextsNonEmpty(items: seq<TextItem>)
    requires |items| > 0 && Last(items).str != ""
    ensures JoinTexts(items) != ""
  {
  }

  lemma NoInnerBreakSnoc(items: seq<TextItem>, t: TextItem)
    requires NoInnerBreak(items)
    requires |items| > 0 ==> !Breaks(Last(items), t)
    ensures NoInnerBreak(items + [t])
  {
    var s := items + [t];
    forall i | 0 < i < |s|
      ensures !Breaks(s[i - 1], s[i])
    {
      if i < |items| {
        assert s[i - 1] == items[i - 1] && s[i] == items[i];
      }
    }
  }

  lemma ChainedSnoc(ps: seq<Paragraph>, p: Paragraph)
    requires Chained(ps)
    requires |ps| > 0 ==> Linked(Last(ps), p)
    ensures Chained(ps + [p])
  {
    var s := ps + [p];
    forall k | 0 < k < |s|
      ensures Linked(s[k - 1], s[k])
    {
      if k < |ps| {
        assert s[k - 1] == ps[k - 1] && s[k] == ps[k];
      }
    }
  }

  lemma AllClosedSnoc(ps: seq<Paragraph>, p: Paragraph)
    requires AllClosed(ps) && Closed(p)
    ensures AllClosed(ps + [p])
  {
    var s := ps + [p];
    forall k | 0 <= k < |s|
      ensures Closed(s[k])
    {
      if k < |ps| {
        assert s[k] == ps[k];
      }
    }
  }

  /** When the open paragraph holds items, the previous item is its last one. */
  lemma PreviousIsLastOfCurrent(st: State, rs: seq<TextItem>)
    requires Inv(st, rs) && |st.current.textItems| > 0
    ensures rs != [] && Last(rs) == Last(st.current.textItems)
  {
  }

  /** When the open paragraph is empty after some items, the previous item
      closed the last emitted paragraph. */
  lemma PreviousIsLastOfDone(st: State, rs: seq<TextItem>)
    requires Inv(st, rs) && rs != [] && st.current.textItems == []
    ensures |st.done| > 0 && |Last(st.done).textItems| > 0
    ensures Last(rs) == Last(Last(st.done).textItems)
  {
    assert Flatten(st.done) == rs;
    FlattenLast(st.done);
  }

  /** The open paragraph's text is empty exactly when it holds no item. */
  lemma CurrentEmptyIff(st: State, rs: seq<TextItem>)
    requires Inv(st, rs)
    ensures st.current.fullText == "" <==> st.current.textItems == []
  {
    if |st.current.textItems| > 0 {
      JoinTextsNonEmpty(st.current.textItems);
    }
  }

  // ---------------------------------------------------------------------
  // Preservation of the invariant.

  /** What holds right after a retained item `t` has been placed: the
      invariant, except that the open paragraph now ends with `t`. */
  ghost predicate Placed(r: State, rs: seq<TextItem>, t: TextItem) {
    && Flatten(r.done) + r.current.textItems == rs + [t]
    && r.previous == Some(t)
    && AllClosed(r.done) && Chained(r.done)
    && Built(r.current) && NonEmptyStrings(r.current.textItems)
    && |r.current.textItems| > 0 && Last(r.current.textItems) == t
    && (|r.done| > 0 ==> Linked(Last(r.done), r.current))
  }

  lemma FromItemBuilt(t: TextItem)
    ensures Built(FromItem(t)) && FromItem(t).textItems == [t]
  {
    JoinTextsSnoc([], t);
  }

  /** The first retained item opens the first paragraph. */
  lemma PlaceFirstInv(st: State, t: TextItem)
    requires Inv(st, []) && t.str != ""
    ensures Placed(Place(st, t), [], t)
  {
    FromItemBuilt(t);
    FlattenEmpty(st.done);
  }

  /** A joining item extends the open paragraph by the join rule. */
  lemma PlaceJoinInv(st: State, rs: seq<TextItem>, t: TextItem)
    requires Inv(st, rs) && t.str != ""
    requires st.previous.Some? && Joins(st.previous.value, t)
    ensures Placed(Place(st, t), rs, t)
  {
    var cur := st.current;
    var r := Place(st, t);
    assert r.done == st.done && r.current == Merge(cur, t);
    MergeBuilt(cur, t);
    if |cur.textItems| > 0 {
      PreviousIsLastOfCurrent(st, rs);
      NoInnerBreakSnoc(cur.textItems, t);
      if |st.done| > 0 {
        assert r.current.textItems[0] == cur.textItems[0];
      }
    } else {
      PreviousIsLastOfDone(st, rs);
      assert NoInnerBreak([t]);
    }
    assert Flatten(st.done) + cur.textItems + [t] == rs + [t];
  }

  /** Merging keeps the text equal to the join of the items. */
  lemma MergeBuilt(p: Paragraph, t: TextItem)
    requires p.fullText == JoinTexts(p.textItems)
    ensures Merge(p, t).fullText == JoinTexts(p.textItems + [t])
    ensures Merge(p, t).textItems == p.textItems + [t]
  {
    JoinTextsSnoc(p.textItems, t);
    MergeFollowsJoinRule(p, t);
  }

  /** A non-joining item closes the open paragraph, when it has text, and
      opens a new one. */
  lemma PlaceBreakInv(st: State, rs: seq<TextItem>, t: TextItem)
    requires Inv(st, rs) && t.str != ""
    requires st.previous.Some? && !Joins(st.previous.value, t)
    ensures Placed(Place(st, t), rs, t)
  {
    if st.current.textItems != [] {
      PlaceBreakEmitInv(st, rs, t);
    } else {
      PlaceBreakSkipInv(st, rs, t);
    }
  }

  /** The break case with items in the open paragraph: it is emitted. */
  lemma PlaceBreakEmitInv(st: State, rs: seq<TextItem>, t: TextItem)
    requires Inv(st, rs) && t.str != "" && st.current.textItems != []
    requires st.previous.Some? && !Joins(st.previous.value, t)
    ensures Placed(Place(st, t), rs, t)
  {
    var cur := st.current;
    CurrentEmptyIff(st, rs);
    FromItemBuilt(t);
    assert Closed(cur);
    PreviousIsLastOfCurrent(st, rs);
    AllClosedSnoc(st.done, cur);
    ChainedSnoc(st.done, cur);
    FlattenSnoc(st.done, cur);
  }

  /** The break case right after a headline: the open paragraph is empty and
      nothing is emitted. */
  lemma PlaceBreakSkipInv(st: State, rs: seq<TextItem>, t: TextItem)
    requires Inv(st, rs) && t.str != "" && st.current.textItems == []
    requires st.previous.Some? && !Joins(st.previous.value, t)
    ensures Placed(Place(st, t), rs, t)
  {
    CurrentEmptyIff(st, rs);
    FromItemBuilt(t);
    PreviousIsLastOfDone(st, rs);
  }

  lemma PlaceInv(st: State, rs: seq<TextItem>, t: TextItem)
    requires Inv(st, rs) && t.str != ""
    ensures Placed(Place(st, t), rs, t)
  {
    match st.previous
    case None => PlaceFirstInv(st, t);
    case Some(p) =>
      if Joins(p, t) {
        PlaceJoinInv(st, rs, t);
      } else {
        PlaceBreakInv(st, rs, t);
      }
  }

  /** The headline rule restores the invariant after a placement. */
  lemma CloseHeadlineInv(m: State, rs: seq<TextItem>, t: TextItem)
    requires Placed(m, rs, t)
    ensures Inv(CloseHeadline(m, t), rs + [t])
  {
    if IsHeadline(t) {
      JoinTextsNonEmpty(m.current.textItems);
      AllClosedSnoc(m.done, m.current);
      ChainedSnoc(m.done, m.current);
      FlattenSnoc(m.done, m.current);
    }
  }

  lemma StepInv(st: State, rs: seq<TextItem>, c: ContentItem)
    requires Inv(st, rs)
    ensures Inv(Step(st, c), if Retained(c) then rs + [c.item] else rs)
  {
    if Retained(c) {
      var t := c.item;
      assert t.str != "";
      PlaceInv(st, rs, t);
      CloseHeadlineInv(Place(st, t), rs, t);
    }
  }

  // ---------------------------------------------------------------------
  // The properties of `getParagraphs2`.

  /** What `getParagraphs2` emits:
      - the paragraphs' item lists, concatenated, are exactly the retained
        items in stream order (nothing dropped, duplicated or reordered);
      - every paragraph has items and non-empty text, and its text is its
        items' strings joined by the hyphen/space rule;
      - two consecutive retained items lie in one paragraph exactly when no
        boundary (`Breaks`) falls between them: no boundary inside a
        paragraph, one between every two neighbouring paragraphs;
      - a headline item is always the last item of its paragraph. */
  lemma {:induction false} GetParagraphs2Spec(items: seq<ContentItem>)
    ensures var ps := GetParagraphs2(items);
            && Flatten(ps) == RetainedItems(items)
            && AllClosed(ps)
            && Chained(ps)
            && (forall k, j :: 0 <= k < |ps| && 0 <= j < |ps[k].textItems| - 1 ==>
                  !IsHeadline(ps[k].textItems[j]))
  {
    var ps := GetParagraphs2(items);
    forall k, j | 0 <= k < |ps| && 0 <= j < |ps[k].textItems| - 1
      ensures !IsHeadline(ps[k].textItems[j])
    {
      assert Closed(ps[k]);
      assert !Breaks(ps[k].textItems[j + 1 - 1], ps[k].textItems[j + 1]);
    }
  }

  /** Blank items and marked-content items appear in no paragraph, and a
      stream without retained items yields no paragraph. */
  lemma DroppedItemsAppearNowhere(items: seq<ContentItem>)
    ensures var ps := GetParagraphs2(items);
            forall k, j :: 0 <= k < |ps| && 0 <= j < |ps[k].textItems| ==>
              Trim(ps[k].textItems[j].str) != ""
    ensures RetainedItems(items) == [] ==> GetParagraphs2(items) == []
  {
    var ps := GetParagraphs2(items);
    GetParagraphs2Spec(items);
    forall k, j | 0 <= k < |ps| && 0 <= j < |ps[k].textItems|
      ensures Trim(ps[k].textItems[j].str) != ""
    {
      FlattenContains(ps, k, j);
    }
    if RetainedItems(items) == [] {
      FlattenEmpty(ps);
    }
  }

  /** Every item of every paragraph occurs in the flattened list. */
  lemma {:induction false} FlattenContains(ps: seq<Paragraph>, k: nat, j: nat)
    requires k < |ps| && j < |ps[k].textItems|
    ensures ps[k].textItems[j] in Flatten(ps)
  {
    var n := |ps| - 1;
    if k < n {
      FlattenContains(ps[..n], k, j);
    } else {
      assert Flatten(ps) == Flatten(ps[..n]) + ps[n].textItems;
    }
  }

  /** The join rule applied to the open paragraph is the string rule. */
  lemma MergeFollowsJoinRule(p: Paragraph, t: TextItem)
    ensures Merge(p, t).fullText == JoinText(p.fullText, t.str)
  {
  }

  /** One more item extends the fold by one step. */
  lemma RunSnoc(items: seq<ContentItem>, c: ContentItem)
    ensures Run(items + [c]) == Step(Run(items), c)
  {
    assert (items + [c])[..|items|] == items;
  }

  /** A retained, non-headline item arriving first opens a paragraph. */
  lemma StepFirst(st: State, t: TextItem)
    requires Trim(t.str) != "" && !IsHeadline(t) && st.previous.None?
    ensures Step(st, Text(t)) == State(st.done, FromItem(t), Some(t))
  {
  }

  /** A retained, non-headline item that joins the previous one is merged
      into the open paragraph. */
  lemma StepJoin(st: State, t: TextItem)
    requires Trim(t.str) != "" && !IsHeadline(t)
    requires st.previous.Some? && Joins(st.previous.value, t)
    ensures Step(st, Text(t)) == State(st.done, Merge(st.current, t), Some(t))
  {
  }

  /** A first item and a second one that joins it, neither a headline, make
      up one open paragraph. */
  lemma RunJoiningPair(a: TextItem, b: TextItem)
    requires Trim(a.str) != "" && !IsHeadline(a)
    requires Trim(b.str) != "" && !IsHeadline(b) && Joins(a, b)
    ensures Run([Text(a), Text(b)]) == State([], Merge(FromItem(a), b), Some(b))
  {
    var st1 := State([], FromItem(a), Some(a));
    RunFirstItem(a);
    StepJoin(st1, b);
    RunPairIsStep(a, b);
  }

  lemma RunPairIsStep(a: TextItem, b: TextItem)
    ensures Run([Text(a), Text(b)]) == Step(Run([Text(a)]), Text(b))
  {
    RunSnoc([Text(a)], Text(b));
    assert [Text(a)] + [Text(b)] == [Text(a), Text(b)];
  }

  /** A first retained item that is not a headline opens the only paragraph. */
  lemma RunFirstItem(a: TextItem)
    requires Trim(a.str) != "" && !IsHeadline(a)
    ensures Run([Text(a)]) == State([], FromItem(a), Some(a))
  {
    RunSnoc([], Text(a));
    assert [] + [Text(a)] == [Text(a)];
    StepFirst(Init(), a);
  }

  /** A stream whose fold ends with one open, non-empty paragraph and
      nothing emitted yields exactly that paragraph. */
  lemma GetParagraphs2OneOpen(items: seq<ContentItem>, p: Paragraph, t: TextItem)
    requires Run(items) == State([], p, Some(t)) && p.fullText != ""
    ensures GetParagraphs2(items) == [p]
  {
  }

  /** The two fragments of the example are both retained. */
  lemma HyphenatedFragmentsRetained(a: TextItem, b: TextItem)
    requires a.str == "Hel-" && b.str == "lo world."
    ensures Trim(a.str) != "" && Trim(b.str) != ""
  {
    assert a.str[0] == 'H' && b.str[0] == 'l';
    assert !IsWhitespace('H') && !IsWhitespace('l');
    NotBlank(a.str);
    NotBlank(b.str);
  }

  /** Neither fragment is a headline, the second joins the first, and the
      merge drops the hyphen. */
  lemma HyphenatedFragmentsJoin(a: TextItem, b: TextItem)
    requires a.str == "Hel-" && b.str == "lo world."
    requires Y(a) == 100.0 && Y(b) == 100.05 && a.height == 10.0 && b.height == 10.0
    requires !a.hasEOL && !b.hasEOL
    ensures !IsHeadline(a) && !IsHeadline(b) && Joins(a, b)
    ensures Merge(FromItem(a), b) == Paragraph("Hello world.", [a, b])
  {
    HyphenatedMerge(a, b);
  }

  /** Merging `"lo world."` into the paragraph opened by `"Hel-"` drops the
      hyphen and adds no space. */
  lemma HyphenatedMerge(a: TextItem, b: TextItem)
    requires a.str == "Hel-" && b.str == "lo world."
    ensures Merge(FromItem(a), b) == Paragraph("Hello world.", [a, b])
  {
    var p := FromItem(a);
    assert p.fullText[|p.fullText| - 1] == '-';
    assert p.fullText[..|p.fullText| - 1] + b.str == "Hello world.";
  }

  /** The example of a word split by a hyphen across two fragments on one
      line: `"Hel-"` followed by `"lo world."` at nearly the same height with
      the same font height yield the single paragraph `"Hello world."`. */
  lemma HyphenatedWordExample(a: TextItem, b: TextItem)
    requires a.str == "Hel-" && b.str == "lo world."
    requires Y(a) == 100.0 && Y(b) == 100.05 && a.height == 10.0 && b.height == 10.0
    requires !a.hasEOL && !b.hasEOL
    ensures GetParagraphs2([Text(a), Text(b)]) == [Paragraph("Hello world.", [a, b])]
  {
    HyphenatedFragmentsRetained(a, b);
    HyphenatedFragmentsJoin(a, b);
    RunJoiningPair(a, b);
    GetParagraphs2OneOpen([Text(a), Text(b)], Paragraph("Hello world.", [a, b]), b);
  }
}
