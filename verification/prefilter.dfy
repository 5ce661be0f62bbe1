/**
 The decision part of `getPreFilter` (src/app/core/pdfjs/ParagraphDetection.ts):
 from the text items of the sampled pages, bucket the purely numeric items by
 their rounded vertical origin, track the highest origin seen, and turn a
 bucket with more than five members into a band that the returned predicate
 excludes together with everything on the far side of it.

 Fetching the sampled pages is not modelled: the sampled items arrive as one
 sequence. The `Map` keyed by the string form of the rounded coordinate is a
 map keyed by the integer itself; for |n| < 10^21, `parseInt` of that
 string gives it back (larger keys print in exponent form and do not).
 */
module PageNumberFilter {
  import opened Text
  import opened TextItems

  /** `Math.round` on exact reals: round half up. */
  function Round(x: real): (n: int)
    ensures x - 0.5 < n as real <= x + 0.5
  {
    (x + 0.5).Floor
  }

  /** The bucket key of line 105: `Math.round(transform[5])`. */
  function BandKey(t: TextItem): (k: int)
    ensures Y(t) - 0.5 < k as real <= Y(t) + 0.5
  {
    Round(Y(t))
  }

  /** The coordinate the returned predicate compares (lines 137 and 139):
      `Math.round(Math.round(transform[5] * 100) / 100)`. */
  function FilterY(t: TextItem): (n: int)
    ensures Y(t) - 0.505 < n as real <= Y(t) + 0.505
  {
    var hundredths := Round(Y(t) * 100.0);
    assert Y(t) - 0.005 < hundredths as real / 100.0 <= Y(t) + 0.005;
    Round(hundredths as real / 100.0)
  }

  /** Line 103: blank items and vertical items are passed over entirely. */
  predicate Skipped(c: ContentItem) {
    !c.Text? || Trim(c.item.str) == "" || IsVertical(c.item)
  }

  /** Line 104: an item that is counted as a page-number candidate. */
  predicate Counted(c: ContentItem) {
    !Skipped(c) && IsDigits(Trim(c.item.str))
  }

  /** The sampled items that are counted under key `k`, in sample order. */
  function CountedWithKey(items: seq<ContentItem>, k: int): seq<TextItem> {
    if |items| == 0 then []
    else
      var c := items[|items| - 1];
      CountedWithKey(items[..|items| - 1], k) + (if Counted(c) && BandKey(c.item) == k then [c.item] else [])
  }

  datatype Sample = Sample(buckets: map<int, seq<TextItem>>, maxY: real)

  /** Lines 106-111: push the item onto its key's bucket, creating it if needed. */
  function AddToBucket(buckets: map<int, seq<TextItem>>, k: int, t: TextItem): (r: map<int, seq<TextItem>>)
    ensures r.Keys == buckets.Keys + {k}
    ensures r[k] == (if k in buckets then buckets[k] else []) + [t]
    ensures forall j :: j in buckets && j != k ==> r[j] == buckets[j]
  {
    if k in buckets then buckets[k := buckets[k] + [t]] else buckets[k := [t]]
  }

  /** One iteration of the inner loop (lines 101-116), without the unused
      bookkeeping of lines 113 and 117-124. */
  function ScanStep(s: Sample, c: ContentItem): (r: Sample)
    ensures Counted(c) ==> r.buckets == AddToBucket(s.buckets, BandKey(c.item), c.item)
    ensures !Counted(c) ==> r.buckets == s.buckets
    ensures s.maxY <= r.maxY && (r.maxY == s.maxY || (c.Text? && r.maxY == Y(c.item)))
    ensures !Skipped(c) ==> Y(c.item) <= r.maxY
    ensures Skipped(c) ==> r.maxY == s.maxY
  {
    if Skipped(c) then s
    else
      var buckets := if IsDigits(Trim(c.item.str)) then AddToBucket(s.buckets, BandKey(c.item), c.item) else s.buckets;
      Sample(buckets, if Y(c.item) > s.maxY then Y(c.item) else s.maxY)
  }

  /** The sampling loop, starting from an empty map and `maxY = 0` (lines 90-92). */
  function Scan(items: seq<ContentItem>): (r: Sample)
    ensures r.maxY >= 0.0
    ensures forall k :: k in r.buckets ==> r.buckets[k] != []
  {
    if |items| == 0 then Sample(map[], 0.0)
    else ScanStep(Scan(items[..|items| - 1]), items[|items| - 1])
  }

  /** The buckets hold exactly the counted items, each under its own rounded
      coordinate and in sample order, and no bucket is empty. */
  lemma ScanBuckets(items: seq<ContentItem>)
    ensures var s := Scan(items);
            && (forall k :: k in s.buckets ==> s.buckets[k] == CountedWithKey(items, k) && s.buckets[k] != [])
            && (forall k :: k !in s.buckets ==> CountedWithKey(items, k) == [])
  {
    var s := Scan(items);
    forall k
      ensures k in s.buckets ==> s.buckets[k] == CountedWithKey(items, k) && s.buckets[k] != []
      ensures k !in s.buckets ==> CountedWithKey(items, k) == []
    {
      ScanBucketAt(items, k);
    }
  }

  /** `ScanBuckets` for one key. */
  lemma {:induction false} ScanBucketAt(items: seq<ContentItem>, k: int)
    ensures k in Scan(items).buckets ==> Scan(items).buckets[k] == CountedWithKey(items, k) != []
    ensures k !in Scan(items).buckets ==> CountedWithKey(items, k) == []
  {
    if |items| > 0 {
      var n := |items| - 1;
      var init, c := items[..n], items[n];
      ScanBucketAt(init, k);
      assert Scan(items) == ScanStep(Scan(init), c);
      assert CountedWithKey(items, k) == CountedWithKey(init, k) + (if Counted(c) && BandKey(c.item) == k then [c.item] else []);
    }
  }

  /** `maxY` is at least 0 and at least every non-skipped item's origin. */
  lemma {:induction false} ScanMaxYBounds(items: seq<ContentItem>)
    ensures Scan(items).maxY >= 0.0
    ensures forall i :: 0 <= i < |items| && !Skipped(items[i]) ==> Y(items[i].item) <= Scan(items).maxY
  {
    if |items| > 0 {
      var n := |items| - 1;
      var init := items[..n];
      ScanMaxYBounds(init);
      var s0, s := Scan(init), Scan(items);
      assert s == ScanStep(s0, items[n]);
      forall i | 0 <= i < |items| && !Skipped(items[i])
        ensures Y(items[i].item) <= s.maxY
      {
        if i < n {
          assert items[i] == init[i];
        }
      }
    }
  }

  /** `maxY` is either its initial 0 or the origin of the non-skipped item
      at the returned position. */
  lemma {:induction false} ScanMaxYAttained(items: seq<ContentItem>) returns (i: nat)
    ensures Scan(items).maxY == 0.0
            || (i < |items| && !Skipped(items[i]) && Scan(items).maxY == Y(items[i].item))
  {
    if |items| == 0 {
      i := 0;
    } else {
      var n := |items| - 1;
      var init := items[..n];
      var i0 := ScanMaxYAttained(init);
      var s0 := Scan(init);
      assert Scan(items) == ScanStep(s0, items[n]);
      if Scan(items).maxY == s0.maxY {
        i := i0;
        if i0 < n {
          assert items[i0] == init[i0];
        }
      } else {
        i := n;
      }
    }
  }

  /** The predicate `getPreFilter` returns. */
  datatype Filter = AcceptAll | Above(limit: int) | Below(limit: int)

  /** The three closures of lines 137, 139 and 142 on one item: the
      accept-all predicate takes everything, and a band predicate takes
      exactly the items whose doubly-rounded origin lies strictly on its side
      of the band, so it never takes the band itself. */
  function Accepts(f: Filter, t: TextItem): (b: bool)
    ensures f.AcceptAll? ==> b
    ensures f.Above? ==> (b <==> f.limit < FilterY(t))
    ensures f.Below? ==> (b <==> FilterY(t) < f.limit)
    ensures !f.AcceptAll? && FilterY(t) == f.limit ==> !b
  {
    match f
    case AcceptAll => true
    case Above(limit) => FilterY(t) > limit
    case Below(limit) => FilterY(t) < limit
  }

  /** For one band, the "above" and "below" predicates never both take an
      item, and every item that neither takes lies on the band. */
  lemma BandSidesPartition(limit: int, t: TextItem)
    ensures !(Accepts(Above(limit), t) && Accepts(Below(limit), t))
    ensures Accepts(Above(limit), t) || Accepts(Below(limit), t) || FilterY(t) == limit
  {
  }

  /** `order` lists every bucket key once: the result of sorting the map's
      entries. The comparator at line 130 is not a consistent ordering, so the
      model admits any permutation. */
  predicate IsKeyOrder(order: seq<int>, buckets: map<int, seq<TextItem>>) {
    && |order| == |buckets|
    && (forall j :: 0 <= j < |order| ==> order[j] in buckets)
    && (forall k :: k in buckets ==> k in order)
  }

  /** The position in `order` of the first key whose bucket has more than
      five members, or `|order|` when there is none. */
  function FirstQualifyingIndex(order: seq<int>, buckets: map<int, seq<TextItem>>): (i: nat)
    requires forall j :: 0 <= j < |order| ==> order[j] in buckets
    ensures i <= |order|
    ensures forall j :: 0 <= j < i ==> |buckets[order[j]]| <= 5
    ensures i < |order| ==> |buckets[order[i]]| > 5
  {
    if |order| == 0 then 0
    else
      if |buckets[order[0]]| > 5 then 0
      else
        var i := FirstQualifyingIndex(order[1..], buckets);
        assert forall j :: 0 < j <= i ==> order[j] == order[1..][j - 1];
        i + 1
  }

  /** Line 131 then `[0]`: the first key in `order` whose bucket has more
      than five members. */
  function FirstQualifying(order: seq<int>, buckets: map<int, seq<TextItem>>): (r: Option<int>)
    requires forall j :: 0 <= j < |order| ==> order[j] in buckets
    ensures r.Some? ==> r.value in order && r.value in buckets && |buckets[r.value]| > 5
    ensures r.Some? ==> exists i :: 0 <= i < |order| && order[i] == r.value
                          && forall j :: 0 <= j < i ==> |buckets[order[j]]| <= 5
    ensures r.None? ==> forall j :: 0 <= j < |order| ==> |buckets[order[j]]| <= 5
  {
    var i := FirstQualifyingIndex(order, buckets);
    if i < |order| then Some(order[i]) else None
  }

  /** Lines 130-142: choose the band and its polarity. */
  function ChooseFilter(s: Sample, order: seq<int>): (f: Filter)
    requires IsKeyOrder(order, s.buckets)
    ensures f.AcceptAll? <==> forall k :: k in s.buckets ==> |s.buckets[k]| <= 5
    ensures !f.AcceptAll? ==> f.limit in s.buckets && |s.buckets[f.limit]| > 5
    ensures f.Above? <==> !f.AcceptAll? && (f.limit as real) < s.maxY / 2.0
  {
    match FirstQualifying(order, s.buckets)
    case None => AcceptAll
    case Some(limit) => if (limit as real) < s.maxY / 2.0 then Above(limit) else Below(limit)
  }

  /** `getPreFilter` on the sampled items, for a given sort outcome. */
  function GetPreFilter(items: seq<ContentItem>, order: seq<int>): (f: Filter)
    requires IsKeyOrder(order, Scan(items).buckets)
    ensures f.AcceptAll? <==> forall k :: k in Scan(items).buckets ==> |Scan(items).buckets[k]| <= 5
    ensures !f.AcceptAll? ==> f.limit in order && |Scan(items).buckets[f.limit]| > 5
    ensures !f.AcceptAll? ==> forall t :: FilterY(t) == f.limit ==> !Accepts(f, t)
  {
    var s := Scan(items);
    var f := ChooseFilter(s, order);
    assert f.AcceptAll? <==> forall k :: k in s.buckets ==> |s.buckets[k]| <= 5;
    f
  }

  /** The returned predicate:
      - with no key counted more than five times it accepts every item;
      - otherwise it is built from some key counted more than five times; if
        that key lies below half of `maxY` it accepts exactly the items whose
        doubly-rounded origin is above the key, and otherwise exactly those
        below it;
      - items on the band itself are never accepted. */
  lemma GetPreFilterSpec(items: seq<ContentItem>, order: seq<int>)
    requires IsKeyOrder(order, Scan(items).buckets)
    ensures var f := GetPreFilter(items, order);
            var s := Scan(items);
            && ((forall k :: |CountedWithKey(items, k)| <= 5) ==> forall t :: Accepts(f, t))
            && (!f.AcceptAll? ==>
                  && |CountedWithKey(items, f.limit)| > 5
                  && ((f.limit as real) < s.maxY / 2.0 ==> forall t :: Accepts(f, t) <==> FilterY(t) > f.limit)
                  && ((f.limit as real) >= s.maxY / 2.0 ==> forall t :: Accepts(f, t) <==> FilterY(t) < f.limit)
                  && forall t :: FilterY(t) == f.limit ==> !Accepts(f, t))
            && ((exists k :: |CountedWithKey(items, k)| > 5) ==> !f.AcceptAll?)
  {
    ScanBuckets(items);
    var s := Scan(items);
    if exists k :: |CountedWithKey(items, k)| > 5 {
      var k :| |CountedWithKey(items, k)| > 5;
      assert k in s.buckets;
    }
  }

  /** The chosen band depends on the sort outcome, and the model admits an
      outcome that picks a six-member bucket over an eight-member one. */
  lemma ChosenBandNeedNotBeLargest(t: TextItem)
    ensures var buckets := map[7 := seq(6, _ => t), 50 := seq(8, _ => t)];
            IsKeyOrder([7, 50], buckets) && FirstQualifying([7, 50], buckets) == Some(7)
  {
    var buckets := map[7 := seq(6, _ => t), 50 := seq(8, _ => t)];
    assert buckets.Keys == {7, 50};
  }

  /** The bucket key rounds once and the predicate rounds twice, so an item
      counted in band 0 can have predicate coordinate 1. */
  lemma KeyAndFilterRoundingDiffer(t: TextItem)
    requires Y(t) == 0.495
    ensures BandKey(t) == 0 && FilterY(t) == 1
  {
  }
}
