/**
  The product service of the storefront. With the hosted backend unconfigured,
  every operation works on one product sequence kept in a browser storage slot
  and seeded from a built-in sample catalog; that local mode is modelled here
  in full. Of the hosted mode only the rule that picks the featured products is
  kept, as a function over the table's rows in newest-first order.
*/
module ProductService {
  import opened Basics
  import opened JsText
  import opened Seqs
  import opened ProductModel

  /** The one error the local mode raises: "Product not found". */
  datatype ServiceError = NotFound

  // ---------------------------------------------------------------- ids

  /** The id a caller passes: a number, or a string such as a URL parameter. */
  datatype IdRef = NumId(n: int) | TextId(text: string)

  /**
    `p.id === parseInt(id) || p.id === id` for a stored numeric id. A number is
    never `===` a string, so a string id matches only through `parseInt`.
  */
  predicate IdMatches(stored: int, ref: IdRef) {
    match ref
    case NumId(n) => stored == n
    case TextId(t) => ParseInt(t) == Some(stored)
  }

  /** An id written out in decimal matches exactly the records the number itself matches. */
  lemma DecimalIdMatchesLikeNumber(stored: int, n: int)
    ensures IdMatches(stored, TextId(DecimalString(n))) <==> IdMatches(stored, NumId(n))
  {
    ParseDecimalString(n);
  }

  /**
    A route id such as `"7-iphone"` or `" 7"` matches exactly record 7:
    `parseInt` reads the leading number and ignores the rest.
  */
  lemma TextIdReadsLeadingNumber(m: nat, ws: string, tail: string)
    requires forall i :: 0 <= i < |ws| ==> IsJsSpace(ws[i])
    requires tail == [] || !('0' <= tail[0] <= '9' || tail[0] == 'x' || tail[0] == 'X')
    ensures forall stored :: IdMatches(stored, TextId(ws + NatDigits(m) + tail)) <==> stored == m
  {
    ParseIntReadsNumber(ws, "", m, tail);
    assert ws + "" == ws;
  }

  // ---------------------------------------------------------------- listing

  /** The options `getProducts` reads; any other key of the filters object is ignored. */
  datatype Filters = Filters(
    model: Option<string>,
    condition: Option<string>,
    minPrice: Option<int>,
    maxPrice: Option<int>,
    search: Option<string>)

  const NoFilters := Filters(None, None, None, None, None)

  /** `filters.model && filters.model !== 'all'` (and the same for the condition). */
  predicate SelectorActive(v: Option<string>) {
    v.Some? && v.value != "" && v.value != "all"
  }

  /** `filters.minPrice` (and `maxPrice`) is truthy: present and not 0. */
  predicate BoundActive(v: Option<int>) {
    v.Some? && v.value != 0
  }

  /** `filters.search` is truthy: present and not empty. */
  predicate SearchActive(v: Option<string>) {
    v.Some? && v.value != ""
  }

  /** The lower-cased search text occurs in the lower-cased name, model or color. */
  predicate SearchHit(p: Product, searchLower: string) {
    || Includes(Lower(p.name), searchLower)
    || Includes(Lower(p.model), searchLower)
    || Includes(Lower(p.color), searchLower)
  }

  /** `getProducts` in local mode: one `filter` per active option, in the source's order. */
  function ListProducts(all: seq<Product>, f: Filters): (r: seq<Product>)
    ensures |r| <= |all|
    ensures forall p :: p in r <==> p in all && Matches(p, f)
  {
    var byModel :=
      if SelectorActive(f.model) then Filter(all, (p: Product) => p.model == f.model.value) else all;
    var byCondition :=
      if SelectorActive(f.condition) then Filter(byModel, (p: Product) => p.condition == Some(f.condition.value))
      else byModel;
    var byMin :=
      if BoundActive(f.minPrice) then Filter(byCondition, (p: Product) => p.price >= f.minPrice.value)
      else byCondition;
    var byMax :=
      if BoundActive(f.maxPrice) then Filter(byMin, (p: Product) => p.price <= f.maxPrice.value) else byMin;
    if SearchActive(f.search) then Filter(byMax, (p: Product) => SearchHit(p, Lower(f.search.value)))
    else byMax
  }

  predicate ModelOk(p: Product, f: Filters) {
    SelectorActive(f.model) ==> p.model == f.model.value
  }

  predicate ConditionOk(p: Product, f: Filters) {
    SelectorActive(f.condition) ==> p.condition == Some(f.condition.value)
  }

  predicate MinOk(p: Product, f: Filters) {
    BoundActive(f.minPrice) ==> p.price >= f.minPrice.value
  }

  predicate MaxOk(p: Product, f: Filters) {
    BoundActive(f.maxPrice) ==> p.price <= f.maxPrice.value
  }

  predicate SearchOk(p: Product, f: Filters) {
    SearchActive(f.search) ==> SearchHit(p, Lower(f.search.value))
  }

  /** A record passes every active option; an inactive option imposes nothing. */
  predicate Matches(p: Product, f: Filters) {
    ModelOk(p, f) && ConditionOk(p, f) && MinOk(p, f) && MaxOk(p, f) && SearchOk(p, f)
  }

  /** One step of the chain: filtering by `test` when it is active adds `test` to the conjunction. */
  lemma NarrowStep(all: seq<Product>, test: Product -> bool, before: Product -> bool, after: Product -> bool)
    requires forall p :: after(p) == (before(p) && test(p))
    ensures Filter(Filter(all, before), test) == Filter(all, after)
  {
    FilterThenFilter(all, before, test, after);
  }

  /** The chain of filters is one filter by the conjunction of the active options. */
  lemma ListProductsIsOneFilter(all: seq<Product>, f: Filters)
    ensures ListProducts(all, f) == Filter(all, (p: Product) => Matches(p, f))
  {
    var k1 := (p: Product) => ModelOk(p, f);
    var k2 := (p: Product) => ModelOk(p, f) && ConditionOk(p, f);
    var k3 := (p: Product) => ModelOk(p, f) && ConditionOk(p, f) && MinOk(p, f);
    var k4 := (p: Product) => ModelOk(p, f) && ConditionOk(p, f) && MinOk(p, f) && MaxOk(p, f);
    var k5 := (p: Product) => Matches(p, f);

    var s1 := if SelectorActive(f.model) then Filter(all, (p: Product) => p.model == f.model.value) else all;
    if SelectorActive(f.model) {
      FilterSameTest(all, (p: Product) => p.model == f.model.value, k1);
    } else {
      FilterKeepsAll(all, k1);
    }
    assert s1 == Filter(all, k1);

    var s2 := if SelectorActive(f.condition) then Filter(s1, (p: Product) => p.condition == Some(f.condition.value)) else s1;
    if SelectorActive(f.condition) {
      NarrowStep(all, (p: Product) => p.condition == Some(f.condition.value), k1, k2);
    } else {
      FilterSameTest(all, k1, k2);
    }
    assert s2 == Filter(all, k2);

    var s3 := if BoundActive(f.minPrice) then Filter(s2, (p: Product) => p.price >= f.minPrice.value) else s2;
    if BoundActive(f.minPrice) {
      NarrowStep(all, (p: Product) => p.price >= f.minPrice.value, k2, k3);
    } else {
      FilterSameTest(all, k2, k3);
    }
    assert s3 == Filter(all, k3);

    var s4 := if BoundActive(f.maxPrice) then Filter(s3, (p: Product) => p.price <= f.maxPrice.value) else s3;
    if BoundActive(f.maxPrice) {
      NarrowStep(all, (p: Product) => p.price <= f.maxPrice.value, k3, k4);
    } else {
      FilterSameTest(all, k3, k4);
    }
    assert s4 == Filter(all, k4);

    var s5 := if SearchActive(f.search) then Filter(s4, (p: Product) => SearchHit(p, Lower(f.search.value))) else s4;
    if SearchActive(f.search) {
      NarrowStep(all, (p: Product) => SearchHit(p, Lower(f.search.value)), k4, k5);
    } else {
      FilterSameTest(all, k4, k5);
    }
    assert s5 == Filter(all, k5);
  }

  /**
    The listing keeps the stored order, holds exactly the records that pass
    every active option, and holds each of them as often as the catalog does.
  */
  lemma ListProductsSpec(all: seq<Product>, f: Filters)
    ensures IsSubsequence(ListProducts(all, f), all)
    ensures forall p :: p in ListProducts(all, f) <==> p in all && Matches(p, f)
    ensures forall p :: multiset(ListProducts(all, f))[p] == if Matches(p, f) then multiset(all)[p] else 0
  {
    ListProductsIsOneFilter(all, f);
    FilterIsSubsequence(all, (p: Product) => Matches(p, f));
    FilterCounts(all, (p: Product) => Matches(p, f));
  }

  /** Without any active option the listing is the whole catalog, in order. */
  lemma ListWithoutFiltersIsAll(all: seq<Product>, f: Filters)
    requires !SelectorActive(f.model) && !SelectorActive(f.condition)
    requires !BoundActive(f.minPrice) && !BoundActive(f.maxPrice) && !SearchActive(f.search)
    ensures ListProducts(all, f) == all
    ensures ListProducts(all, NoFilters) == all
  {
  }

  /** Filtering by model and condition together gives the records both single filters keep. */
  lemma ModelAndConditionIntersect(all: seq<Product>, m: string, c: string)
    ensures forall p ::
      p in ListProducts(all, Filters(Some(m), Some(c), None, None, None)) <==>
      p in ListProducts(all, Filters(Some(m), None, None, None, None)) &&
      p in ListProducts(all, Filters(None, Some(c), None, None, None))
  {
    ListProductsSpec(all, Filters(Some(m), Some(c), None, None, None));
    ListProductsSpec(all, Filters(Some(m), None, None, None, None));
    ListProductsSpec(all, Filters(None, Some(c), None, None, None));
  }

  /** Searching for a text or for its lower-cased form lists the same records. */
  lemma SearchIgnoresCase(all: seq<Product>, f: Filters, search: string)
    ensures ListProducts(all, f.(search := Some(search))) == ListProducts(all, f.(search := Some(Lower(search))))
  {
    var f1 := f.(search := Some(search));
    var f2 := f.(search := Some(Lower(search)));
    LowerIdempotent(search);
    ListProductsIsOneFilter(all, f1);
    ListProductsIsOneFilter(all, f2);
    FilterSameTest(all, (p: Product) => Matches(p, f1), (p: Product) => Matches(p, f2));
  }

  // ---------------------------------------------------------------- lookup

  /** `Array.prototype.findIndex` with the id test; `None` stands for -1. */
  function FindIndex(all: seq<Product>, ref: IdRef): (r: Option<nat>)
    ensures r.Some? ==> r.value < |all| && IdMatches(all[r.value].id, ref)
    ensures r.Some? ==> forall j :: 0 <= j < r.value ==> !IdMatches(all[j].id, ref)
    ensures r.None? <==> forall j :: 0 <= j < |all| ==> !IdMatches(all[j].id, ref)
    decreases |all|
  {
    if all == [] then None
    else if IdMatches(all[0].id, ref) then Some(0)
    else
      var rest := FindIndex(all[1..], ref);
      assert forall j :: 1 <= j < |all| ==> all[j] == all[1..][j - 1];
      match rest
      case None => None
      case Some(i) => Some(i + 1)
  }

  /** `getProductById` in local mode: the first record whose id matches, or "Product not found". */
  function GetProductById(all: seq<Product>, ref: IdRef): (r: Result<Product, ServiceError>)
    ensures r.Ok? ==> r.value in all && IdMatches(r.value.id, ref)
    ensures r.Ok? ==> exists i :: 0 <= i < |all| && all[i] == r.value && forall j :: 0 <= j < i ==> !IdMatches(all[j].id, ref)
    ensures r.Err? <==> forall p :: p in all ==> !IdMatches(p.id, ref)
    ensures r.Err? ==> r.error == NotFound
  {
    match FindIndex(all, ref)
    case None => Err(NotFound)
    case Some(i) => Ok(all[i])
  }

  // ---------------------------------------------------------------- update

  /** The properties an update object carries; `None` means the property is absent. */
  datatype Patch = Patch(
    id: Option<int>,
    name: Option<string>,
    model: Option<string>,
    storage: Option<string>,
    color: Option<string>,
    batteryHealth: Option<Option<string>>,
    price: Option<int>,
    originalPrice: Option<Option<int>>,
    condition: Option<Option<string>>,
    image: Option<string>,
    images: Option<Option<seq<string>>>,
    description: Option<Option<string>>,
    specs: Option<Option<seq<string>>>,
    inStock: Option<Option<bool>>,
    isFeatured: Option<Option<bool>>,
    createdAt: Option<Option<string>>)

  const EmptyPatch := Patch(None, None, None, None, None, None, None, None, None, None, None, None, None, None, None, None)

  /** One property of a spread: the later object's value wins when it has the property. */
  function Over<T>(earlier: T, later: Option<T>): T {
    match later
    case Some(v) => v
    case None => earlier
  }

  /** `{ ...p, ...patch }`. */
  function Merge(p: Product, patch: Patch): Product {
    Product(
      Over(p.id, patch.id), Over(p.name, patch.name), Over(p.model, patch.model),
      Over(p.storage, patch.storage), Over(p.color, patch.color),
      Over(p.batteryHealth, patch.batteryHealth), Over(p.price, patch.price),
      Over(p.originalPrice, patch.originalPrice), Over(p.condition, patch.condition),
      Over(p.image, patch.image), Over(p.images, patch.images),
      Over(p.description, patch.description), Over(p.specs, patch.specs),
      Over(p.inStock, patch.inStock), Over(p.isFeatured, patch.isFeatured),
      Over(p.createdAt, patch.createdAt))
  }

  /** One property of `{ ...a, ...b }` for two update objects. */
  function Either<T>(a: Option<T>, b: Option<T>): Option<T> {
    if b.Some? then b else a
  }

  /** `{ ...a, ...b }` for two update objects. */
  function Combine(a: Patch, b: Patch): Patch {
    Patch(
      Either(a.id, b.id), Either(a.name, b.name), Either(a.model, b.model),
      Either(a.storage, b.storage), Either(a.color, b.color),
      Either(a.batteryHealth, b.batteryHealth), Either(a.price, b.price),
      Either(a.originalPrice, b.originalPrice), Either(a.condition, b.condition),
      Either(a.image, b.image), Either(a.images, b.images),
      Either(a.description, b.description), Either(a.specs, b.specs),
      Either(a.inStock, b.inStock), Either(a.isFeatured, b.isFeatured),
      Either(a.createdAt, b.createdAt))
  }

  /**
    Merging nothing changes nothing; merging the same object twice is merging
    it once; two updates in a row are one update where the later one wins.
  */
  lemma MergeLaws(p: Product, a: Patch, b: Patch)
    ensures Merge(p, EmptyPatch) == p
    ensures Merge(Merge(p, a), a) == Merge(p, a)
    ensures Merge(Merge(p, a), b) == Merge(p, Combine(a, b))
  {
  }

  /** An updated record still answers to its id unless the update object replaces the id. */
  lemma {:induction false} UpdatedRecordIsFound(all: seq<Product>, ref: IdRef, patch: Patch)
    requires FindIndex(all, ref).Some? && patch.id.None?
    ensures var i := FindIndex(all, ref).value;
            GetProductById(all[i := Merge(all[i], patch)], ref) == Ok(Merge(all[i], patch))
  {
    var i := FindIndex(all, ref).value;
    var after := all[i := Merge(all[i], patch)];
    assert IdMatches(after[i].id, ref);
    var j := FindIndex(after, ref);
    assert j.Some?;
    assert forall k :: 0 <= k < i ==> after[k] == all[k];
  }

  // ---------------------------------------------------------------- delete

  /** `allProducts.filter(p => p.id !== parseInt(id) && p.id !== id)`. */
  function RemoveMatching(all: seq<Product>, ref: IdRef): (r: seq<Product>)
    ensures |r| <= |all|
    ensures forall p :: p in r <==> p in all && !IdMatches(p.id, ref)
  {
    Filter(all, (p: Product) => !IdMatches(p.id, ref))
  }

  /**
    Deleting removes every record with the id and keeps the others in order;
    afterwards the id is not found, and deleting it again changes nothing.
  */
  lemma RemoveMatchingSpec(all: seq<Product>, ref: IdRef)
    ensures IsSubsequence(RemoveMatching(all, ref), all)
    ensures forall p :: p in RemoveMatching(all, ref) <==> p in all && !IdMatches(p.id, ref)
    ensures GetProductById(RemoveMatching(all, ref), ref) == Err(NotFound)
    ensures RemoveMatching(RemoveMatching(all, ref), ref) == RemoveMatching(all, ref)
  {
    FilterIsSubsequence(all, (p: Product) => !IdMatches(p.id, ref));
    FilterIdempotent(all, (p: Product) => !IdMatches(p.id, ref));
  }

  // ---------------------------------------------------------------- featured

  /** `getFeaturedProducts` in local mode: the first three stored records. */
  function LocalFeatured(all: seq<Product>): (r: seq<Product>)
    ensures |r| == Min(3, |all|) && r == all[..|r|]
  {
    Take(all, 3)
  }

  predicate IsFeaturedRow(row: Row) {
    row.is_featured == Some(true)
  }

  /**
    `getFeaturedProducts` against the hosted table, given its rows newest first:
    up to six featured rows; when that query fails or finds none, the three
    newest rows of any kind (nothing when that query fails as well).
  */
  function RemoteFeatured(newestFirst: seq<Row>, featuredQueryOk: bool, fallbackQueryOk: bool): seq<Product> {
    var featured := Take(Filter(newestFirst, IsFeaturedRow), 6);
    if featuredQueryOk && featured != [] then FromDbAll(featured)
    else if fallbackQueryOk then FromDbAll(Take(newestFirst, 3))
    else []
  }

  /** At most six products, and never more than the table holds. */
  lemma RemoteFeaturedBound(newestFirst: seq<Row>, featuredQueryOk: bool, fallbackQueryOk: bool)
    ensures |RemoteFeatured(newestFirst, featuredQueryOk, fallbackQueryOk)| <= Min(6, |newestFirst|)
  {
  }

  /** With featured rows, the newest six of them in table order, each flagged. */
  lemma RemoteFeaturedWhenFlagged(newestFirst: seq<Row>, fallbackQueryOk: bool, row: Row)
    requires row in newestFirst && IsFeaturedRow(row)
    ensures var r := RemoteFeatured(newestFirst, true, fallbackQueryOk);
            var flagged := Filter(newestFirst, IsFeaturedRow);
            && IsSubsequence(flagged, newestFirst)
            && |r| == Min(6, |flagged|)
            && forall i :: 0 <= i < |r| ==> r[i] == FromDb(flagged[i]) && r[i].isFeatured == Some(true)
  {
    var flagged := Filter(newestFirst, IsFeaturedRow);
    FilterIsSubsequence(newestFirst, IsFeaturedRow);
    assert row in flagged;
    assert forall i :: 0 <= i < |flagged| ==> IsFeaturedRow(flagged[i]);
  }

  /** With no featured row, or a failed featured query, the three newest rows of any kind. */
  lemma RemoteFeaturedFallback(newestFirst: seq<Row>, featuredQueryOk: bool)
    requires !featuredQueryOk || forall row :: row in newestFirst ==> !IsFeaturedRow(row)
    ensures var r := RemoteFeatured(newestFirst, featuredQueryOk, true);
            |r| == Min(3, |newestFirst|) && forall i :: 0 <= i < |r| ==> r[i] == FromDb(newestFirst[i])
  {
    if featuredQueryOk {
      FilterKeepsNone(newestFirst, IsFeaturedRow);
    }
  }

  // ---------------------------------------------------------------- models

  /** `allProducts.map(p => p.model)`. */
  function ModelsOf(all: seq<Product>): (ms: seq<string>)
    ensures |ms| == |all| && forall i :: 0 <= i < |all| ==> ms[i] == all[i].model
  {
    seq(|all|, i requires 0 <= i < |all| => all[i].model)
  }

  /** `getProductModels` in local mode: `[...new Set(models)]`. */
  function ProductModels(all: seq<Product>): seq<string> {
    Distinct(ModelsOf(all))
  }

  /** Every stored model once, nothing else, in the order the models first appear. */
  lemma ProductModelsSpec(all: seq<Product>)
    ensures forall m :: m in ProductModels(all) <==> exists p :: p in all && p.model == m
    ensures forall i, j :: 0 <= i < j < |ProductModels(all)| ==> ProductModels(all)[i] != ProductModels(all)[j]
    ensures forall i, j :: 0 <= i < j < |ProductModels(all)| ==>
      FirstIndex(ModelsOf(all), ProductModels(all)[i]) < FirstIndex(ModelsOf(all), ProductModels(all)[j])
  {
    var ms := ModelsOf(all);
    DistinctInFirstOccurrenceOrder(ms);
    forall m ensures m in ms <==> exists p :: p in all && p.model == m {
      if m in ms {
        var i :| 0 <= i < |ms| && ms[i] == m;
        assert all[i] in all;
      }
      if exists p :: p in all && p.model == m {
        var p :| p in all && p.model == m;
        var i :| 0 <= i < |all| && all[i] == p;
        assert ms[i] == m;
      }
    }
  }

  // ---------------------------------------------------------------- store

  /**
    The local store. `saved` is the persisted slot (`None` while nothing
    readable is stored); `sample` is the module-level sample array, which
    `getStoreProducts` hands out itself while nothing is saved.
  */
  class LocalCatalog {
    var saved: Option<seq<Product>>
    var sample: seq<Product>

    /** `getStoreProducts`: the saved catalog, or the sample array while nothing is saved. */
    function Products(): seq<Product>
      reads this
    {
      match saved
      case Some(ps) => ps
      case None => sample
    }

    /** A fresh store: nothing saved, so the catalog is the sample catalog. */
    constructor ()
      ensures saved == None && sample == SampleProducts
      ensures Products() == SampleProducts
    {
      saved := None;
      sample := SampleProducts;
    }

    /**
      `createProduct` in local mode: the caller's fields with the clock's value
      as id and `inStock` forced to true, put in front of the catalog.
    */
    method CreateProduct(fields: Product, now: int) returns (created: Product)
      modifies this
      ensures created == fields.(id := now, inStock := Some(true))
      ensures saved == Some([created] + old(Products()))
      ensures sample == old(sample)
      ensures GetProductById(Products(), NumId(now)) == Ok(created)
      ensures GetProductById(Products(), TextId(DecimalString(now))) == Ok(created)
    {
      var all := Products();
      created := fields.(id := now, inStock := Some(true));
      saved := Some([created] + all);
      DecimalIdMatchesLikeNumber(now, now);
    }

    /**
      `updateProduct` in local mode: merge the update object over the first
      record with the id and save; with no such record, fail and save nothing.
      While nothing is saved the record is replaced inside the sample array too.
    */
    method UpdateProduct(ref: IdRef, patch: Patch) returns (r: Result<Product, ServiceError>)
      modifies this
      ensures FindIndex(old(Products()), ref).None? ==>
        r == Err(NotFound) && saved == old(saved) && sample == old(sample)
      ensures FindIndex(old(Products()), ref).Some? ==>
        var i := FindIndex(old(Products()), ref).value;
        && r == Ok(Merge(old(Products())[i], patch))
        && saved == Some(old(Products())[i := r.value])
        && sample == (if old(saved).None? then old(sample)[i := r.value] else old(sample))
      ensures |Products()| == |old(Products())|
      ensures forall j :: 0 <= j < |Products()| && j != FindIndex(old(Products()), ref).GetOr(|Products()|) ==>
        Products()[j] == old(Products())[j]
    {
      var all := Products();
      var index := FindIndex(all, ref);
      if index.None? {
        return Err(NotFound);
      }
      var i := index.value;
      var updated := Merge(all[i], patch);
      all := all[i := updated];
      if saved.None? {
        sample := sample[i := updated];
      }
      saved := Some(all);
      r := Ok(updated);
    }

    /**
      `deleteProduct` in local mode: drop every record with the id and save the
      rest; it reports success whether or not anything matched.
    */
    method DeleteProduct(ref: IdRef) returns (deleted: bool)
      modifies this
      ensures deleted
      ensures saved == Some(RemoveMatching(old(Products()), ref))
      ensures sample == old(sample)
      ensures GetProductById(Products(), ref) == Err(NotFound)
    {
      var all := Products();
      saved := Some(RemoveMatching(all, ref));
      RemoveMatchingSpec(all, ref);
      deleted := true;
    }
  }

  // ---------------------------------------------------------------- sample catalog

  /** A sample record; none has gallery images, a featured flag or a creation time. */
  function Sample(id: int, name: string, storage: string, color: string, battery: string,
                  price: int, originalPrice: Option<int>, condition: string, image: string,
                  description: string, specs: seq<string>): Product
  {
    Product(id, name, name, storage, color, Some(battery), price, originalPrice, Some(condition),
            image, None, Some(description), Some(specs), Some(true), None, None)
  }

  /** The eight records the local store starts from; every sample's model equals its name. */
  const SampleProducts: seq<Product> := [
    Sample(7, "iPhone 17 Pro", "256GB", "Deep Purple", "100%", 154900, Some(179900), "New",
           "/iphones/iphone-17.png",
           "The future of mobile technology with advanced AI features and unparalleled performance.",
           ["6.7\" Super Retina XDR", "A18 Bionic Chip", "48MP Triple Camera", "AI Integration"]),
    Sample(8, "iPhone 16 Pro", "128GB", "Gold", "100%", 139900, Some(159900), "New",
           "/iphones/iphone-16.png",
           "Elegance meets power. Experience the next level of Pro performance.",
           ["6.3\" Pro Display", "A18 Pro Chip", "48MP Camera", "Action Button"]),
    Sample(1, "iPhone 15 Pro Max", "256GB", "Natural Titanium", "100%", 134900, Some(159900), "New",
           "/iphones/iphone-15-pro-max.png",
           "The ultimate iPhone with titanium design, A17 Pro chip, and ProMotion display.",
           ["6.7\" Super Retina XDR", "A17 Pro Chip", "48MP Main Camera", "5G"]),
    Sample(2, "iPhone 15 Pro", "128GB", "Blue Titanium", "100%", 124900, None, "New",
           "/iphones/iphone-15-pro-blue.png",
           "Pro performance with titanium design and advanced camera system.",
           ["6.1\" Super Retina XDR", "A17 Pro Chip", "48MP Main Camera", "5G"]),
    Sample(3, "iPhone 15", "128GB", "Pink", "100%", 79900, None, "New",
           "/iphones/iphone-15-pink.png",
           "Dynamic Island. 48MP Main camera. All-day battery life.",
           ["6.1\" Super Retina XDR", "A16 Bionic Chip", "48MP Camera", "5G"]),
    Sample(4, "iPhone 14", "128GB", "Midnight", "95%", 89900, Some(109900), "Like New",
           "/iphones/iphone-14.png",
           "Dependable performance with a great camera system.",
           ["6.1\" Super Retina XDR", "A15 Bionic", "48MP Camera", "All-day battery"]),
    Sample(5, "iPhone 13", "128GB", "Green", "92%", 54900, Some(69900), "Like New",
           "/iphones/iphone-13.png",
           "The iconic iPhone with a powerful A15 chip.",
           ["6.1\" Super Retina XDR", "A15 Bionic", "Dual Camera", "5G"]),
    Sample(6, "iPhone 12", "64GB", "Product RED", "89%", 44900, Some(59900), "Refurbished",
           "/iphones/iphone-12.png",
           "A great entry into the iPhone ecosystem.",
           ["6.1\" OLED Display", "A14 Bionic", "Dual Camera", "Night Mode"])
  ]

  /**
    The sample ids are distinct; the local featured list is its first three
    records; every sample's original price is at least its price.
  */
  lemma SampleCatalogFacts()
    ensures |SampleProducts| == 8
    ensures forall i, j :: 0 <= i < j < 8 ==> SampleProducts[i].id != SampleProducts[j].id
    ensures forall p :: p in SampleProducts && p.originalPrice.Some? ==> p.originalPrice.value >= p.price
    ensures LocalFeatured(SampleProducts) == SampleProducts[..3]
    ensures ProductModels(SampleProducts) == ModelsOf(SampleProducts)
  {
    var ms := ModelsOf(SampleProducts);
    var r := ProductModels(SampleProducts);
    assert forall i, j :: 0 <= i < j < 8 ==> ms[i] != ms[j];
    assert Distinct(ms) == ms by {
      DistinctOfDistinct(ms);
    }
  }

  /** A sequence without repeated elements is its own distinct list. */
  lemma {:induction false} DistinctOfDistinct(s: seq<string>)
    requires forall i, j :: 0 <= i < j < |s| ==> s[i] != s[j]
    ensures Distinct(s) == s
    decreases |s|
  {
    if s != [] {
      var init := s[..|s| - 1];
      DistinctOfDistinct(init);
      assert s[|s| - 1] !in init;
      assert init + [s[|s| - 1]] == s;
    }
  }

  /** "pro" occurs in the lower-cased text where "p" followed by "r" and "o" in either case does. */
  lemma {:induction false} ProFoundAt(text: string, i: nat)
    requires i + 3 <= |text|
    requires LowerChar(text[i]) == 'p' && LowerChar(text[i + 1]) == 'r' && LowerChar(text[i + 2]) == 'o'
    ensures Includes(Lower(text), "pro")
  {
    var hay := Lower(text);
    assert hay[i..i + 3] == "pro";
    assert OccursAt(hay, "pro", i);
    IncludesIffOccurs(hay, "pro");
  }

  /** "pro" does not occur in the lower-cased text when no "p" is followed by an "r" in either case. */
  lemma {:induction false} ProAbsent(text: string)
    requires forall i :: 0 <= i < |text| - 1 && LowerChar(text[i]) == 'p' ==> LowerChar(text[i + 1]) != 'r'
    ensures !Includes(Lower(text), "pro")
  {
    var hay := Lower(text);
    forall i | 0 <= i ensures !OccursAt(hay, "pro", i) {
      if i + 3 <= |hay| {
        assert hay[i..i + 3][0] == hay[i] && hay[i..i + 3][1] == hay[i + 1];
      }
    }
    IncludesIffOccurs(hay, "pro");
  }

  /** Searching for "pro" finds "iPhone 15 Pro" through its name. */
  lemma SearchFindsByName(p: Product)
    requires p == SampleProducts[3]
    ensures p.name == "iPhone 15 Pro" && SearchHit(p, "pro")
  {
    ProFoundAt(p.name, 10);
  }

  /** Searching for "pro" finds "iPhone 12" through its color "Product RED". */
  lemma SearchFindsByColor(p: Product)
    requires p == SampleProducts[7]
    ensures p.name == "iPhone 12" && p.color == "Product RED" && SearchHit(p, "pro")
  {
    ProFoundAt(p.color, 0);
  }

  /** Searching for "pro" does not find the pink "iPhone 15". */
  lemma SearchSkipsOthers(p: Product)
    requires p == SampleProducts[4]
    ensures p.name == "iPhone 15" && p.color == "Pink" && !SearchHit(p, "pro")
  {
    var name, color := p.name, p.color;
    assert name == "iPhone 15" && color == "Pink";
    forall i | 0 <= i < |name| - 1 && LowerChar(name[i]) == 'p' ensures LowerChar(name[i + 1]) != 'r' {
      assert i == 1;
    }
    forall i | 0 <= i < |color| - 1 && LowerChar(color[i]) == 'p' ensures LowerChar(color[i + 1]) != 'r' {
      assert i == 0;
    }
    ProAbsent(name);
    ProAbsent(color);
  }
}
