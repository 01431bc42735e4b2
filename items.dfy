/**
 * Clothing items: the comma-separated tag list, the ordered list of image
 * URLs, and the default points value an item receives when it is saved.
 */
module Items {
  import opened Wrappers
  import Text

  // ---------------------------------------------------------------------------
  // Tags
  // ---------------------------------------------------------------------------

  /** The number of commas in `s`. */
  function CommaCount(s: string): nat {
    if s == [] then 0 else (if s[0] == ',' then 1 else 0) + CommaCount(s[1..])
  }

  /**
   * Python's `s.split(',')`: the comma-free segments between the commas, one
   * more than there are commas (so `""` splits into one empty segment).
   */
  function SplitOnComma(s: string): (parts: seq<string>)
    ensures |parts| == CommaCount(s) + 1
  {
    SplitFrom(s, [])
  }

  /** Splits `s` when the characters `current` of the first segment have already been read. */
  function SplitFrom(s: string, current: string): (parts: seq<string>)
    ensures |parts| == CommaCount(s) + 1
  {
    if s == [] then [current]
    else if s[0] == ',' then [current] + SplitFrom(s[1..], [])
    else SplitFrom(s[1..], current + [s[0]])
  }

  /** Python's `','.join(parts)`. */
  function JoinWithComma(parts: seq<string>): string {
    if parts == [] then []
    else if |parts| == 1 then parts[0]
    else parts[0] + "," + JoinWithComma(parts[1..])
  }

  /** No segment holds a comma. */
  lemma SplitCommaFree(s: string)
    ensures forall t :: t in SplitOnComma(s) ==> ',' !in t
  {
    SplitFromCommaFree(s, []);
  }

  lemma {:induction false} SplitFromCommaFree(s: string, current: string)
    requires ',' !in current
    ensures forall t :: t in SplitFrom(s, current) ==> ',' !in t
  {
    if s != [] {
      if s[0] == ',' {
        SplitFromCommaFree(s[1..], []);
      } else {
        SplitFromCommaFree(s[1..], current + [s[0]]);
      }
    }
  }

  /** Joining the segments back with commas gives the string that was split. */
  lemma JoinSplit(s: string)
    ensures JoinWithComma(SplitOnComma(s)) == s
  {
    JoinSplitFrom(s, []);
  }

  lemma {:induction false} JoinSplitFrom(s: string, current: string)
    ensures JoinWithComma(SplitFrom(s, current)) == current + s
  {
    if s != [] {
      if s[0] == ',' {
        var rest := SplitFrom(s[1..], []);
        JoinSplitFrom(s[1..], []);
        assert ([current] + rest)[1..] == rest;
        assert current + s == current + "," + s[1..];
      } else {
        JoinSplitFrom(s[1..], current + [s[0]]);
        assert current + s == current + [s[0]] + s[1..];
      }
    }
  }

  /** The segments of `a + "," + b` are those of `a` followed by those of `b`. */
  lemma SplitConcat(a: string, b: string)
    ensures SplitOnComma(a + "," + b) == SplitOnComma(a) + SplitOnComma(b)
  {
    SplitFromConcat(a, b, []);
  }

  lemma {:induction false} SplitFromConcat(a: string, b: string, current: string)
    ensures SplitFrom(a + "," + b, current) == SplitFrom(a, current) + SplitFrom(b, [])
  {
    if a == [] {
      assert (a + "," + b)[1..] == b;
    } else {
      assert (a + "," + b)[0] == a[0];
      assert (a + "," + b)[1..] == a[1..] + "," + b;
      if a[0] == ',' {
        SplitFromConcat(a[1..], b, []);
      } else {
        SplitFromConcat(a[1..], b, current + [a[0]]);
      }
    }
  }

  /** A string without commas is a single segment. */
  lemma SplitSegment(s: string)
    requires ',' !in s
    ensures SplitOnComma(s) == [s]
  {
    SplitFromSegment(s, []);
    assert [] + s == s;
  }

  lemma {:induction false} SplitFromSegment(s: string, current: string)
    requires ',' !in s
    ensures SplitFrom(s, current) == [current + s]
  {
    if s != [] {
      assert s[0] in s;
      assert ',' !in s[1..] by {
        assert forall k :: 0 <= k < |s[1..]| ==> s[1..][k] == s[k + 1];
      }
      SplitFromSegment(s[1..], current + [s[0]]);
      assert current + [s[0]] + s[1..] == current + s;
    } else {
      assert current + s == current;
    }
  }

  /** Splitting what was joined from comma-free pieces gives the pieces back. */
  lemma {:induction false} SplitJoin(parts: seq<string>)
    requires parts != []
    requires forall i :: 0 <= i < |parts| ==> ',' !in parts[i]
    ensures SplitOnComma(JoinWithComma(parts)) == parts
  {
    SplitSegment(parts[0]);
    if |parts| > 1 {
      SplitJoin(parts[1..]);
      SplitConcat(parts[0], JoinWithComma(parts[1..]));
    }
  }

  /** A tag as the tag list yields it: non-empty, without surrounding whitespace, without a comma. */
  predicate IsTag(t: string) {
    t != [] && Text.Trimmed(t) && ',' !in t
  }

  /** Stripping a comma-free segment keeps it comma-free. */
  lemma StripKeepsCommaFree(s: string)
    requires ',' !in s
    ensures ',' !in Text.Strip(s)
  {
    var r := Text.Strip(s);
    var i, j := Text.StripIsInfix(s);
    forall k | 0 <= k < |r|
      ensures r[k] != ','
    {
      assert r[k] == s[i + k];
    }
  }

  /** What one segment contributes to the tag list: its stripped text, unless that is empty. */
  function CleanSegment(segment: string): (tags: seq<string>)
    ensures |tags| <= 1
  {
    var tag := Text.Strip(segment);
    if tag != [] then [tag] else []
  }

  /** The list comprehension of `tag_list`: the stripped segments, dropping those that strip to nothing. */
  function CleanTags(segments: seq<string>): (tags: seq<string>)
    ensures |tags| <= |segments|
  {
    if segments == [] then []
    else CleanSegment(segments[0]) + CleanTags(segments[1..])
  }

  /** Cleaning comma-free segments yields proper tags: non-empty, trimmed and comma-free. */
  lemma {:induction false} CleanTagsAreTags(segments: seq<string>)
    requires forall t :: t in segments ==> ',' !in t
    ensures forall t :: t in CleanTags(segments) ==> IsTag(t)
  {
    if segments != [] {
      assert segments[0] in segments;
      StripKeepsCommaFree(segments[0]);
      CleanTagsAreTags(segments[1..]);
    }
  }

  /** The comprehension works segment by segment, in order. */
  lemma {:induction false} CleanTagsAppend(a: seq<string>, b: seq<string>)
    ensures CleanTags(a + b) == CleanTags(a) + CleanTags(b)
  {
    if a != [] {
      assert (a + b)[0] == a[0];
      assert (a + b)[1..] == a[1..] + b;
      CleanTagsAppend(a[1..], b);
      assert CleanTags(a + b) == CleanSegment(a[0]) + CleanTags(a[1..] + b);
    } else {
      assert a + b == b;
    }
  }

  /**
   * `Item.tag_list`: the comma-separated tags, stripped, without the blank
   * ones; none at all for an empty tags field.
   */
  function TagList(tags: string): (r: seq<string>)
    ensures tags == [] ==> r == []
    ensures |r| <= CommaCount(tags) + 1
    ensures forall t :: t in r ==> IsTag(t)
  {
    if tags != [] then
      SplitCommaFree(tags);
      CleanTagsAreTags(SplitOnComma(tags));
      CleanTags(SplitOnComma(tags))
    else []
  }

  /** One segment alone contributes what `CleanSegment` says. */
  lemma CleanTagsSingleton(segment: string)
    ensures CleanTags([segment]) == CleanSegment(segment)
  {
    assert [segment][1..] == [];
  }

  /** The guard on the empty field changes nothing: the tag list is always the cleaned split. */
  lemma TagListIsCleanedSplit(tags: string)
    ensures TagList(tags) == CleanTags(SplitOnComma(tags))
  {
    if tags == [] {
      SplitSegment(tags);
      CleanTagsSingleton(tags);
      assert Text.Strip(tags) == [];
    }
  }

  /** Tags keep their left-to-right order: the tags of `a,b` are those of `a` followed by those of `b`. */
  lemma TagListConcat(a: string, b: string)
    ensures TagList(a + "," + b) == TagList(a) + TagList(b)
  {
    TagListIsCleanedSplit(a + "," + b);
    TagListIsCleanedSplit(a);
    TagListIsCleanedSplit(b);
    SplitConcat(a, b);
    CleanTagsAppend(SplitOnComma(a), SplitOnComma(b));
  }

  /** A single segment yields its stripped text, or nothing exactly when it is all whitespace. */
  lemma TagListSegment(s: string)
    requires ',' !in s
    ensures TagList(s) == if Text.AllSpace(s) then [] else [Text.Strip(s)]
  {
    TagListIsCleanedSplit(s);
    SplitSegment(s);
    CleanTagsSingleton(s);
  }

  /** Writing a list of tags out comma-separated and reading it back gives the same list. */
  lemma TagListOfJoin(ts: seq<string>)
    requires forall i :: 0 <= i < |ts| ==> IsTag(ts[i])
    ensures TagList(JoinWithComma(ts)) == ts
  {
    if ts != [] {
      SplitJoin(ts);
      TagListIsCleanedSplit(JoinWithComma(ts));
      CleanTagsOfTags(ts);
    }
  }

  /** Proper tags pass through the comprehension unchanged. */
  lemma {:induction false} CleanTagsOfTags(ts: seq<string>)
    requires forall i :: 0 <= i < |ts| ==> IsTag(ts[i])
    ensures CleanTags(ts) == ts
  {
    if ts != [] {
      Text.StripTrimmed(ts[0]);
      CleanTagsOfTags(ts[1..]);
    }
  }

  // ---------------------------------------------------------------------------
  // Images
  // ---------------------------------------------------------------------------

  /** The delivery URL of an uploaded image, taken as an opaque value. */
  type Url = string

  /** The URL a slot holds, if it holds one. */
  function SlotUrl(slot: Option<Url>): (urls: seq<Url>)
    ensures |urls| <= 1
  {
    if slot.Some? then [slot.value] else []
  }

  /** The URLs of the filled slots, in slot order. */
  function PresentUrls(slots: seq<Option<Url>>): (urls: seq<Url>)
    ensures |urls| <= |slots|
  {
    if slots == [] then [] else SlotUrl(slots[0]) + PresentUrls(slots[1..])
  }

  /** A URL is listed exactly when some slot holds it. */
  lemma {:induction false} PresentUrlsMembers(slots: seq<Option<Url>>, u: Url)
    ensures u in PresentUrls(slots) <==> Some(u) in slots
  {
    if slots != [] {
      PresentUrlsMembers(slots[1..], u);
      assert slots == [slots[0]] + slots[1..];
    }
  }

  /** Slots are listed in order: the URLs of two runs of slots are those of the first followed by those of the second. */
  lemma {:induction false} PresentUrlsAppend(a: seq<Option<Url>>, b: seq<Option<Url>>)
    ensures PresentUrls(a + b) == PresentUrls(a) + PresentUrls(b)
  {
    if a != [] {
      assert (a + b)[0] == a[0];
      assert (a + b)[1..] == a[1..] + b;
      PresentUrlsAppend(a[1..], b);
      assert PresentUrls(a + b) == SlotUrl(a[0]) + PresentUrls(a[1..] + b);
    } else {
      assert a + b == b;
    }
  }

  /** A single slot lists its URL, if it holds one. */
  lemma PresentUrlsOne(slot: Option<Url>)
    ensures PresentUrls([slot]) == SlotUrl(slot)
  {
    assert [slot][1..] == [];
  }

  /** The URLs of four slots are those of each slot in turn. */
  lemma PresentUrlsOfFour(a: Option<Url>, b: Option<Url>, c: Option<Url>, d: Option<Url>)
    ensures PresentUrls([a, b, c, d]) == SlotUrl(a) + SlotUrl(b) + SlotUrl(c) + SlotUrl(d)
  {
    assert [a, b, c, d] == [a] + [b] + [c] + [d];
    PresentUrlsAppend([a] + [b] + [c], [d]);
    PresentUrlsAppend([a] + [b], [c]);
    PresentUrlsAppend([a], [b]);
    PresentUrlsOne(a);
    PresentUrlsOne(b);
    PresentUrlsOne(c);
    PresentUrlsOne(d);
  }

  // ---------------------------------------------------------------------------
  // Points value
  // ---------------------------------------------------------------------------

  /** The condition choices, from the best to the most worn. */
  const Conditions: seq<string> := ["new", "like_new", "gently_used", "worn"]

  /** The points an item is worth by default, looked up by its condition; 50 for any other condition. */
  function DefaultPointsValue(condition: string): (p: nat)
    ensures 25 <= p <= 100
    ensures condition !in Conditions ==> p == 50
  {
    if condition == "new" then 100
    else if condition == "like_new" then 75
    else if condition == "gently_used" then 50
    else if condition == "worn" then 25
    else 50
  }

  /** The condition table: 100, 75, 50 and 25 points; a better condition is worth strictly more points by default. */
  lemma DefaultFallsWithWear(i: nat, j: nat)
    requires i < j < |Conditions|
    ensures DefaultPointsValue(Conditions[0]) == 100 && DefaultPointsValue(Conditions[1]) == 75
    ensures DefaultPointsValue(Conditions[2]) == 50 && DefaultPointsValue(Conditions[3]) == 25
    ensures DefaultPointsValue(Conditions[i]) > DefaultPointsValue(Conditions[j])
  {
  }

  /** The points value `save` stores: a zero value is replaced by the default for the condition, any other is kept. */
  function PointsValueOnSave(current: nat, condition: string): (p: nat)
    ensures p > 0
    ensures current != 0 ==> p == current
    ensures current == 0 ==> p == DefaultPointsValue(condition)
  {
    if current == 0 then DefaultPointsValue(condition) else current
  }

  /** Saving twice stores what saving once does. */
  lemma SaveIsIdempotent(current: nat, condition: string)
    ensures PointsValueOnSave(PointsValueOnSave(current, condition), condition) == PointsValueOnSave(current, condition)
  {
  }

  datatype ItemStatus = Pending | Approved | Rejected | Swapped | Redeemed

  class Item {
    var tags: string
    var condition: string
    var primaryImage: Option<Url>
    var image2: Option<Url>
    var image3: Option<Url>
    var image4: Option<Url>
    var status: ItemStatus
    var isAvailable: bool
    var pointsValue: nat
    var allowRedemption: bool

    /** A new listing: pending approval, available, redeemable, with no points value yet. */
    constructor (tags: string, condition: string, primaryImage: Option<Url>,
                 image2: Option<Url>, image3: Option<Url>, image4: Option<Url>)
      ensures this.tags == tags && this.condition == condition
      ensures this.primaryImage == primaryImage && this.image2 == image2
      ensures this.image3 == image3 && this.image4 == image4
      ensures status == Pending && isAvailable && pointsValue == 0 && allowRedemption
    {
      this.tags, this.condition := tags, condition;
      this.primaryImage, this.image2, this.image3, this.image4 := primaryImage, image2, image3, image4;
      status, isAvailable, pointsValue, allowRedemption := Pending, true, 0, true;
    }

    /** The four image slots in their fixed order. */
    function ImageSlots(): seq<Option<Url>>
      reads this
    {
      [primaryImage, image2, image3, image4]
    }

    /**
     * `image_urls`: the URLs of the filled slots, primary image first, then
     * image 2, 3 and 4, skipping empty slots; at most four.
     */
    method ImageUrls() returns (images: seq<Url>)
      ensures images == PresentUrls(ImageSlots())
      ensures |images| <= 4
      ensures primaryImage.Some? ==> images != [] && images[0] == primaryImage.value
    {
      images := [];
      if primaryImage.Some? {
        images := images + [primaryImage.value];
      }
      assert images == SlotUrl(primaryImage);
      if image2.Some? {
        images := images + [image2.value];
      }
      assert images == SlotUrl(primaryImage) + SlotUrl(image2);
      if image3.Some? {
        images := images + [image3.value];
      }
      assert images == SlotUrl(primaryImage) + SlotUrl(image2) + SlotUrl(image3);
      if image4.Some? {
        images := images + [image4.value];
      }
      PresentUrlsOfFour(primaryImage, image2, image3, image4);
    }

    /** `save`: fills in a zero points value from the condition before the item is stored. */
    method Save()
      modifies this`pointsValue
      ensures pointsValue == PointsValueOnSave(old(pointsValue), condition)
      ensures pointsValue > 0
    {
      if pointsValue == 0 {
        pointsValue := DefaultPointsValue(condition);
      }
    }
  }
}
