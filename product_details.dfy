/**
  The product page's derived values: the image gallery, the discount badge, the
  savings banner and the condition badges. Each is a pure function of the
  product record the page shows.
*/
module ProductDetails {
  import opened Basics
  import opened JsText
  import opened Seqs
  import opened ProductModel

  // ---------------------------------------------------------------- gallery table

  /** Extra gallery pictures per model keyword. */
  const GalleryMap: map<string, seq<string>> := map[
    "17 pro max" := ["/iphones/17promax.jpg", "/iphones/iphone-17-pro-max.png", "/iphones/iphone-17-pro.png", "/iphones/iphone-17.png"],
    "17 pro" := ["/iphones/17pro.jpg", "/iphones/iphone-17-pro.png", "/iphones/iphone-17-pro-max.png", "/iphones/iphone-17.png"],
    "17" := ["/iphones/iphone-17.png", "/iphones/17pro.jpg", "/iphones/iphone-17-pro.png", "/iphones/17air.jpeg"],
    "16 pro max" := ["/iphones/16promax.jpeg", "/iphones/iphone-16-pro-max.png", "/iphones/16promax.jpg", "/iphones/iphone-16-pro.png"],
    "16 pro" := ["/iphones/16pro.jpeg", "/iphones/iphone-16-pro.png", "/iphones/iphone-16-pro-max.png", "/iphones/iphone-16.png"],
    "16" := ["/iphones/16.jpeg", "/iphones/iphone-16.png", "/iphones/iphone-16-pro.png", "/iphones/16pro.jpeg"],
    "15 pro max" := ["/iphones/15promax.jpeg", "/iphones/iphone-15-pro-max.png", "/iphones/iphone-15-pro.png", "/iphones/iphone-15-pro-blue.png"],
    "15 pro" := ["/iphones/15pro.jpg", "/iphones/iphone-15-pro.png", "/iphones/iphone-15-pro-blue.png", "/iphones/iphone-15-pro-max.png"],
    "15 plus" := ["/iphones/15plus.jpeg", "/iphones/iphone-15.png", "/iphones/iphone-15-blue.png", "/iphones/iphone-15-pink.png"],
    "15" := ["/iphones/iphone-15.png", "/iphones/iphone-15-blue.png", "/iphones/iphone-15-pink.png", "/iphones/iphone-15-pro.png"],
    "14 pro max" := ["/iphones/14promax.jpeg", "/iphones/iphone-14.png", "/iphones/14pro.png", "/iphones/14.webp"],
    "14 pro" := ["/iphones/14pro.png", "/iphones/iphone-14.png", "/iphones/14promax.jpeg", "/iphones/14.webp"],
    "14" := ["/iphones/14.webp", "/iphones/iphone-14.png", "/iphones/14pro.png", "/iphones/14promax.jpeg"],
    "13" := ["/iphones/iphone-13.png", "/iphones/iphone-12.png", "/iphones/iphone-14.png", "/iphones/iphone-15.png"],
    "12" := ["/iphones/iphone-12.png", "/iphones/iphone-13.png", "/iphones/iphone-14.png", "/iphones/iphone-15.png"],
    "se" := ["/iphones/se.png", "/iphones/iphone-se.png", "/iphones/iphone-12.png", "/iphones/iphone-13.png"]
  ]

  /**
    `Object.keys(galleryMap)`: the integer-like keys first in ascending order,
    then the other keys in the order they are written.
  */
  const DeclaredKeys: seq<string> := [
    "12", "13", "14", "15", "16", "17",
    "17 pro max", "17 pro", "16 pro max", "16 pro", "15 pro max", "15 pro", "15 plus",
    "14 pro max", "14 pro", "se"]

  /**
    The keys after the stable sort by decreasing length: keys of equal length
    stay in their `Object.keys` order.
  */
  const SortedKeys: seq<string> := [
    "17 pro max", "16 pro max", "15 pro max", "14 pro max",
    "15 plus",
    "17 pro", "16 pro", "15 pro", "14 pro",
    "12", "13", "14", "15", "16", "17", "se"]

  /** `SortedKeys[i]` is `DeclaredKeys[SortOrder[i]]`: where each sorted key came from. */
  const SortOrder: seq<int> := [6, 8, 10, 13, 12, 7, 9, 11, 14, 0, 1, 2, 3, 4, 5, 15]

  /** The keys are sorted by decreasing length. */
  predicate LongestFirst(keys: seq<string>) {
    forall i, j :: 0 <= i < j < |keys| ==> |keys[i]| >= |keys[j]|
  }

  /**
    `sorted` lists `declared[pos[0]]`, `declared[pos[1]]`, ... with every position
    used once, and keys of equal length keep their relative order: the outcome
    of a stable sort by length.
  */
  predicate StablyReordered(sorted: seq<string>, declared: seq<string>, pos: seq<int>) {
    && |pos| == |sorted| == |declared|
    && (forall i :: 0 <= i < |pos| ==> 0 <= pos[i] < |declared| && sorted[i] == declared[pos[i]])
    && (forall i, j :: 0 <= i < j < |pos| ==> pos[i] != pos[j])
    && (forall i, j :: 0 <= i < j < |pos| && |sorted[i]| == |sorted[j]| ==> pos[i] < pos[j])
  }

  /** Every sorted key has a table entry. */
  lemma SortedKeysInTable()
    ensures forall i :: 0 <= i < |SortedKeys| ==> SortedKeys[i] in GalleryMap
  {
  }

  lemma SortOrderPlacesKeys()
    ensures |SortOrder| == |SortedKeys| == |DeclaredKeys|
    ensures forall i :: 0 <= i < |SortOrder| ==> 0 <= SortOrder[i] < |DeclaredKeys| && SortedKeys[i] == DeclaredKeys[SortOrder[i]]
  {
  }

  lemma SortOrderIsInjective()
    ensures forall i, j :: 0 <= i < j < |SortOrder| ==> SortOrder[i] != SortOrder[j]
  {
  }

  lemma SortOrderIsStable()
    ensures forall i, j :: 0 <= i < j < |SortOrder| && |SortedKeys[i]| == |SortedKeys[j]| ==> SortOrder[i] < SortOrder[j]
  {
  }

  lemma SortedKeysLongestFirst()
    ensures LongestFirst(SortedKeys)
  {
  }

  lemma SortedKeysDistinct()
    ensures forall i, j :: 0 <= i < j < |SortedKeys| ==> SortedKeys[i] != SortedKeys[j]
  {
    SortOrderPlacesKeys();
    SortOrderIsInjective();
    assert forall i, j :: 0 <= i < j < |DeclaredKeys| ==> DeclaredKeys[i] != DeclaredKeys[j];
  }

  /**
    The sorted keys are the `Object.keys` list stably sorted longest first, and
    each has a table entry.
  */
  lemma SortedKeysFacts()
    ensures StablyReordered(SortedKeys, DeclaredKeys, SortOrder)
    ensures LongestFirst(SortedKeys)
    ensures forall i, j :: 0 <= i < j < |SortedKeys| ==> SortedKeys[i] != SortedKeys[j]
    ensures forall k :: k in SortedKeys ==> k in GalleryMap
  {
    SortOrderPlacesKeys();
    SortOrderIsInjective();
    SortOrderIsStable();
    SortedKeysInTable();
    SortedKeysLongestFirst();
    SortedKeysDistinct();
  }

  /** Index of the first key that occurs in `text`: the sorted-key loop returns at the first hit. */
  function FirstMatchingKey(text: string, keys: seq<string>): (r: Option<nat>)
    ensures r.Some? ==> r.value < |keys| && Includes(text, keys[r.value])
    ensures r.Some? ==> forall j :: 0 <= j < r.value ==> !Includes(text, keys[j])
    ensures r.None? <==> forall j :: 0 <= j < |keys| ==> !Includes(text, keys[j])
    decreases |keys|
  {
    if keys == [] then None
    else if Includes(text, keys[0]) then Some(0)
    else
      match FirstMatchingKey(text, keys[1..])
      case None => None
      case Some(i) => Some(i + 1)
  }

  /** Over keys sorted longest first, the first key that occurs is a longest key that occurs. */
  lemma ChosenKeyIsLongest(text: string, keys: seq<string>)
    requires LongestFirst(keys)
    ensures var r := FirstMatchingKey(text, keys);
            r.Some? ==> forall k :: k in keys && Includes(text, k) ==> |k| <= |keys[r.value]|
  {
    var r := FirstMatchingKey(text, keys);
    if r.Some? {
      forall k | k in keys && Includes(text, k) ensures |k| <= |keys[r.value]| {
        var j :| 0 <= j < |keys| && keys[j] == k;
        assert j >= r.value;
      }
    }
  }

  // ---------------------------------------------------------------- gallery

  /** The test `img => img !== product.image`. */
  function NotCover(cover: string): string -> bool {
    (img: string) => img != cover
  }

  /** The candidates other than the cover, in order: `candidates.filter(img => img !== cover)`. */
  function Extras(cover: string, candidates: seq<string>): seq<string> {
    Filter(candidates, NotCover(cover))
  }

  /**
    The cover followed by the first candidate pictures other than the cover, at
    most five in all.
  */
  function CoverFirst(cover: string, candidates: seq<string>): (r: seq<string>)
    ensures 1 <= |r| <= 5 && r[0] == cover
    ensures forall i :: 1 <= i < |r| ==> r[i] != cover && r[i] in candidates
    ensures |r| == Min(5, 1 + |Extras(cover, candidates)|)
    ensures r[1..] == Extras(cover, candidates)[..|r| - 1]
  {
    var extras := Extras(cover, candidates);
    var r := Take([cover] + extras, 5);
    assert forall i :: 1 <= i < |r| ==> r[i] == extras[i - 1];
    assert r[1..] == extras[..|r| - 1];
    forall i | 0 <= i < |extras| ensures extras[i] in candidates && extras[i] != cover {
      assert extras[i] in extras;
    }
    r
  }

  /** The pictures after the cover keep the candidates' order. */
  lemma CoverFirstKeepsOrder(cover: string, candidates: seq<string>)
    ensures IsSubsequence(CoverFirst(cover, candidates)[1..], candidates)
  {
    var extras := Extras(cover, candidates);
    var r := CoverFirst(cover, candidates);
    assert r[1..] == extras[..|r| - 1];
    FilterIsSubsequence(candidates, NotCover(cover));
    PrefixIsSubsequence(extras, candidates, |r| - 1);
  }

  /** A prefix of a subsequence is a subsequence. */
  lemma {:induction false} PrefixIsSubsequence(r: seq<string>, s: seq<string>, n: nat)
    requires n <= |r| && IsSubsequence(r, s)
    ensures IsSubsequence(r[..n], s)
    decreases |s|
  {
    if n > 0 {
      assert r != [] && s != [];
      if r[0] == s[0] && IsSubsequence(r[1..], s[1..]) {
        PrefixIsSubsequence(r[1..], s[1..], n - 1);
        assert r[..n][1..] == r[1..][..n - 1];
      } else {
        PrefixIsSubsequence(r, s[1..], n);
      }
    }
  }

  /** `(product.model || product.name || '').toLowerCase()`. */
  function ModelText(p: Product): string {
    Lower(if p.model != "" then p.model else p.name)
  }

  /**
    The keyword text is the model, or the name when the model is empty, with
    every letter lower-cased; lower-casing it again changes nothing.
  */
  lemma ModelTextSpec(p: Product)
    ensures var source := if p.model != "" then p.model else p.name;
            && |ModelText(p)| == |source|
            && (forall i :: 0 <= i < |source| ==> ModelText(p)[i] == LowerChar(source[i]))
            && Lower(ModelText(p)) == ModelText(p)
  {
    LowerIdempotent(if p.model != "" then p.model else p.name);
  }

  /**
    `getGalleryImages`: the record's own pictures when it has more than one;
    otherwise the table entry of the longest keyword in the model text; otherwise
    the cover alone.
  */
  function GalleryImages(p: Product): (r: seq<string>)
    ensures 1 <= |r| <= 5 && r[0] == p.image
    ensures forall i :: 1 <= i < |r| ==> r[i] != p.image
  {
    if p.images.Some? && |p.images.value| > 1 then CoverFirst(p.image, p.images.value)
    else
      SortedKeysInTable();
      FromKeyword(p.image, ModelText(p), SortedKeys, GalleryMap)
  }

  /** The keyword branch over any key list and table: the first key that occurs picks the candidates. */
  function FromKeyword(cover: string, text: string, keys: seq<string>, table: map<string, seq<string>>): seq<string>
    requires forall i :: 0 <= i < |keys| ==> keys[i] in table
  {
    match FirstMatchingKey(text, keys)
    case Some(i) => CoverFirst(cover, table[keys[i]])
    case None => [cover]
  }

  /**
    With more than one own picture the gallery is the cover followed by the first
    own pictures other than the cover, in order, and the cover appears exactly once.
  */
  lemma GalleryFromOwnImages(p: Product)
    requires p.images.Some? && |p.images.value| > 1
    ensures var r := GalleryImages(p);
            var extras := Extras(p.image, p.images.value);
            && IsSubsequence(r[1..], p.images.value)
            && |r| == Min(5, 1 + |extras|)
            && r[1..] == extras[..|r| - 1]
            && multiset(r)[p.image] == 1
  {
    var r := GalleryImages(p);
    assert r == CoverFirst(p.image, p.images.value);
    CoverFirstKeepsOrder(p.image, p.images.value);
    OnceAtFront(r, p.image);
  }

  /** An element at the front and nowhere else occurs once. */
  lemma OnceAtFront(r: seq<string>, x: string)
    requires r != [] && r[0] == x && forall i :: 1 <= i < |r| ==> r[i] != x
    ensures multiset(r)[x] == 1
  {
    var tail := r[1..];
    assert r == [x] + tail;
    assert x !in tail;
  }

  /**
    Without own pictures the gallery is the cover followed by the first pictures
    other than the cover in the table entry of a longest keyword occurring in the
    model text; with no keyword it is the cover alone.
  */
  lemma GalleryFromKeyword(p: Product)
    requires !(p.images.Some? && |p.images.value| > 1)
    ensures var r := GalleryImages(p);
            match FirstMatchingKey(ModelText(p), SortedKeys)
            case Some(i) =>
              var key := SortedKeys[i];
              var extras := Extras(p.image, GalleryMap[key]);
              && key in GalleryMap && Includes(ModelText(p), key)
              && (forall k :: k in SortedKeys && Includes(ModelText(p), k) ==> |k| <= |key|)
              && IsSubsequence(r[1..], GalleryMap[key])
              && |r| == Min(5, 1 + |extras|)
              && r[1..] == extras[..|r| - 1]
            case None =>
              && (forall k :: k in SortedKeys ==> !Includes(ModelText(p), k))
              && r == [p.image]
  {
    SortedKeysInTable();
    SortedKeysLongestFirst();
    FromKeywordSpec(p.image, ModelText(p), SortedKeys, GalleryMap);
  }

  /** The keyword branch over any longest-first key list whose keys all have table entries. */
  lemma FromKeywordSpec(cover: string, text: string, keys: seq<string>, table: map<string, seq<string>>)
    requires LongestFirst(keys) && forall i :: 0 <= i < |keys| ==> keys[i] in table
    ensures var r := FromKeyword(cover, text, keys, table);
            match FirstMatchingKey(text, keys)
            case Some(i) =>
              var key := keys[i];
              var extras := Extras(cover, table[key]);
              && Includes(text, key)
              && (forall k :: k in keys && Includes(text, k) ==> |k| <= |key|)
              && IsSubsequence(r[1..], table[key])
              && |r| == Min(5, 1 + |extras|)
              && r[1..] == extras[..|r| - 1]
            case None =>
              && (forall k :: k in keys ==> !Includes(text, k))
              && r == [cover]
  {
    ChosenKeyIsLongest(text, keys);
    match FirstMatchingKey(text, keys)
    case Some(i) =>
      FromKeywordPicks(cover, text, keys, table, i);
    case None =>
      assert FromKeyword(cover, text, keys, table) == [cover];
  }

  /** When the key at `i` is the first to occur, the gallery is built from its table entry. */
  lemma FromKeywordPicks(cover: string, text: string, keys: seq<string>, table: map<string, seq<string>>, i: nat)
    requires forall j :: 0 <= j < |keys| ==> keys[j] in table
    requires FirstMatchingKey(text, keys) == Some(i)
    ensures i < |keys|
    ensures var r := FromKeyword(cover, text, keys, table);
            var extras := Extras(cover, table[keys[i]]);
            && IsSubsequence(r[1..], table[keys[i]])
            && |r| == Min(5, 1 + |extras|)
            && r[1..] == extras[..|r| - 1]
  {
    assert FromKeyword(cover, text, keys, table) == CoverFirst(cover, table[keys[i]]);
    CoverFirstKeepsOrder(cover, table[keys[i]]);
  }

  /** A needle holding a character the text lacks does not occur in it. */
  lemma MissingCharNotIncluded(hay: string, needle: string, c: char)
    requires c in needle && c !in hay
    ensures !Includes(hay, needle)
  {
    IncludesIffOccurs(hay, needle);
    forall i | 0 <= i ensures !OccursAt(hay, needle, i) {
      if i + |needle| <= |hay| {
        var k :| 0 <= k < |needle| && needle[k] == c;
        assert hay[i..i + |needle|][k] == hay[i + k];
      }
    }
  }

  lemma LowerProMax(name: string)
    requires name == "iPhone 15 Pro Max"
    ensures Lower(name) == "iphone 15 pro max"
  {
    var t := Lower(name);
    assert |t| == 17;
    forall i | 0 <= i < 17 ensures t[i] == "iphone 15 pro max"[i] {
      assert t[i] == LowerChar(name[i]);
    }
  }

  /** "iPhone 15 Pro Max" picks the keyword "15 pro max", not "15 pro" or "15". */
  lemma ProMaxExample(p: Product)
    requires p.model == "iPhone 15 Pro Max"
    ensures FirstMatchingKey(ModelText(p), SortedKeys) == Some(2)
    ensures SortedKeys[2] == "15 pro max"
  {
    LowerProMax(p.model);
    ProMaxKey(ModelText(p));
  }

  lemma ProMaxKey(text: string)
    requires text == "iphone 15 pro max"
    ensures FirstMatchingKey(text, SortedKeys) == Some(2)
  {
    assert '7' !in text && '6' !in text;
    MissingCharNotIncluded(text, SortedKeys[0], '7');
    MissingCharNotIncluded(text, SortedKeys[1], '6');
    assert text[7..17] == SortedKeys[2];
    assert OccursAt(text, SortedKeys[2], 7);
    IncludesIffOccurs(text, SortedKeys[2]);
    assert SortedKeys[1..][1..] == SortedKeys[2..];
    assert FirstMatchingKey(text, SortedKeys[2..]) == Some(0);
    assert FirstMatchingKey(text, SortedKeys[1..]) == Some(1);
  }

  // ---------------------------------------------------------------- pricing

  /** `Math.round(n / d)` for a positive `d`: the nearest integer, halves rounded up. */
  function RoundHalfUp(n: int, d: int): (r: int)
    requires d > 0
    ensures 2 * d * r <= 2 * n + d < 2 * d * (r + 1)
  {
    var q := (2 * n + d) / (2 * d);
    assert 2 * n + d == 2 * d * q + (2 * n + d) % (2 * d);
    q
  }

  /** `Math.round((original - price) / original * 100)`, computed exactly. */
  function DiscountPercent(price: int, original: int): (r: int)
    requires original != 0
  {
    if original > 0 then RoundHalfUp(100 * (original - price), original)
    else RoundHalfUp(100 * (price - original), -original)
  }

  /**
    The percentage is within one half of the exact discount rate, and lies
    between 0 and 100 whenever the price is between 0 and the original price.
  */
  lemma DiscountPercentSpec(price: int, original: int)
    requires original != 0
    ensures var r := DiscountPercent(price, original);
            var a := if original > 0 then original else -original;
            var n := if original > 0 then 100 * (original - price) else 100 * (price - original);
            2 * a * r <= 2 * n + a < 2 * a * (r + 1)
    ensures 0 <= price <= original ==> 0 <= DiscountPercent(price, original) <= 100
  {
    var r := DiscountPercent(price, original);
    if 0 <= price <= original {
      var o := original;
      assert 2 * o * r <= 200 * (o - price) + o <= 201 * o;
      assert 2 * o * r < 2 * o * 101;
      MulLtCancel(2 * o, r, 101);
      assert 2 * o * 0 < 2 * o * (r + 1);
      MulLtCancel(2 * o, 0, r + 1);
    }
  }

  lemma MulLtCancel(a: int, x: int, y: int)
    requires a > 0 && a * x < a * y
    ensures x < y
  {
    assert a * y - a * x == a * (y - x);
  }

  /** The sample "iPhone 15 Pro Max" at 134900 instead of 159900 shows 16% off. */
  lemma DiscountExample()
    ensures DiscountPercent(134900, 159900) == 16
  {
  }

  /** The discount badge: shown only when the original price is truthy. */
  function DiscountBadge(p: Product): (r: Option<int>)
    ensures r.Some? <==> NumberTruthy(p.originalPrice)
    ensures r.Some? ==> r.value == DiscountPercent(p.price, p.originalPrice.value)
  {
    if NumberTruthy(p.originalPrice) then Some(DiscountPercent(p.price, p.originalPrice.value)) else None
  }

  /** The savings banner: `originalPrice - price`, shown under the same condition. */
  function Savings(p: Product): (r: Option<int>)
    ensures r.Some? <==> NumberTruthy(p.originalPrice)
    ensures r.Some? ==> r.value + p.price == p.originalPrice.value
  {
    if NumberTruthy(p.originalPrice) then Some(p.originalPrice.value - p.price) else None
  }

  /** The badge and the banner appear together, and no saving means no discount. */
  lemma BadgeAndSavingsAgree(p: Product)
    ensures DiscountBadge(p).Some? <==> Savings(p).Some?
    ensures Savings(p) == Some(0) ==> DiscountBadge(p) == Some(0)
  {
  }

  // ---------------------------------------------------------------- condition

  /** `product.condition !== 'New'`: a missing condition shows the (empty) badge too. */
  predicate ShowsConditionBadge(p: Product) {
    p.condition != Some("New")
  }

  /** The category badge's text: `product.condition || 'New'`. */
  function ConditionLabel(p: Product): (r: string)
    ensures r != ""
    ensures TextTruthy(p.condition) ==> r == p.condition.value
    ensures !TextTruthy(p.condition) ==> r == "New"
  {
    if TextTruthy(p.condition) then p.condition.value else "New"
  }

  /**
    Where the condition badge is hidden the label reads "New"; a record without
    a condition shows the badge (with no text) while its label also reads "New".
  */
  lemma ConditionBadgeAndLabel(p: Product)
    ensures !ShowsConditionBadge(p) ==> ConditionLabel(p) == "New"
    ensures p.condition.None? ==> ShowsConditionBadge(p) && ConditionLabel(p) == "New"
    ensures ShowsConditionBadge(p) && TextTruthy(p.condition) ==> ConditionLabel(p) != "New"
  {
  }

  /**
    The category badge's class: `category-badge ` followed by the lower-cased
    condition with its first space turned into a hyphen, or `undefined` when the
    condition is missing.
  */
  function CategoryClass(p: Product): (r: string)
    ensures |r| >= 15 && r[..15] == "category-badge "
    ensures p.condition.Some? ==> r[15..] == Slug(p.condition.value)
    ensures p.condition.None? ==> r[15..] == "undefined"
  {
    "category-badge " + (if p.condition.Some? then Slug(p.condition.value) else "undefined")
  }

  /** `condition.toLowerCase().replace(' ', '-')`. */
  function Slug(condition: string): (r: string)
    ensures |r| == |condition|
  {
    ReplaceFirst(Lower(condition), ' ', '-')
  }

  /**
    The slug is the lower-cased condition with its first space, if any, turned
    into a hyphen; later spaces stay.
  */
  lemma SlugSpec(c: string)
    ensures ' ' !in c ==> Slug(c) == Lower(c)
    ensures forall i :: 0 <= i < |c| && c[i] == ' ' && ' ' !in c[..i] ==>
      Slug(c) == Lower(c)[..i] + "-" + Lower(c)[i + 1..]
  {
    var l := Lower(c);
    assert forall k :: 0 <= k < |c| ==> (l[k] == ' ' <==> c[k] == ' ');
    forall i | 0 <= i < |c| && c[i] == ' ' && ' ' !in c[..i]
      ensures Slug(c) == l[..i] + "-" + l[i + 1..]
    {
      assert ' ' !in l[..i] by {
        assert forall k :: 0 <= k < i ==> l[..i][k] == l[k] && c[..i][k] == c[k];
      }
      ReplaceFirstAt(l, ' ', '-', i);
    }
    if ' ' !in c {
      assert ' ' !in l by {
        assert forall k :: 0 <= k < |c| ==> c[k] in c;
      }
    }
  }

  /** A condition with one space becomes its lower-cased words joined by a hyphen: "Like New" gives "like-new". */
  lemma SlugExample(c: string)
    requires c == "Like New"
    ensures Slug(c) == "like-new"
  {
    LowerLikeNew(c);
    HyphenateLikeNew(Lower(c));
  }

  /** The category class of a "Like New" record. */
  lemma CategoryClassExample(p: Product, c: string)
    requires p.condition == Some(c) && c == "Like New"
    ensures CategoryClass(p) == "category-badge like-new"
  {
    SlugExample(c);
  }

  lemma HyphenateLikeNew(l: string)
    requires l == "like new"
    ensures ReplaceFirst(l, ' ', '-') == "like-new"
  {
    assert ' ' !in l[..4] by {
      assert l[..4] == "like";
    }
    ReplaceFirstAt(l, ' ', '-', 4);
    assert l[..4] + ['-'] + l[5..] == "like-new";
  }

  lemma LowerLikeNew(c: string)
    requires c == "Like New"
    ensures Lower(c) == "like new"
  {
    var t := Lower(c);
    assert |t| == 8;
    forall i | 0 <= i < 8 ensures t[i] == "like new"[i] {
      assert t[i] == LowerChar(c[i]);
    }
  }
}
