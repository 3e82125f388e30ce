# iPhone store catalog: a Dafny model

This project models the catalog core of a small iPhone storefront written in
JavaScript and React. It covers two parts.

- **The product service** (`src/services/productService.js`). The model covers its local mode, used when no hosted
  database is configured.
  - The catalog is one product list kept in a browser storage slot. While that slot is empty, the list is
    the built-in sample list of eight phones.
  - Listing is a chain of filters: model, condition, minimum price, maximum price, then a case-insensitive
    text search.
  - Lookup, update and delete match ids as `p.id === parseInt(id) || p.id === id`.
  - Creating a record puts it in front of the list.
  - The featured list is the first three records.
  - The model list holds the distinct models in order of first occurrence.
  - From the hosted mode the model keeps the two record mappers between the application's camelCase
    objects and the table's snake_case rows. It also keeps the rule that picks the featured products.
- **The product page** (`src/pages/ProductDetails.jsx`).
  - The image gallery: the cover first, then the record's own pictures or the pictures filed under the
    longest model keyword, five at most.
  - The discount badge and the savings banner.
  - The condition badge and the category class.

Layout, one module per file:

- `basics.dfy`, module `Basics`: `Option`, `Result` and `Min`.
- `js_text.dfy`, module `JsText`: the JavaScript string built-ins the code relies on.
  - `toLowerCase`, limited to ASCII.
  - `includes`.
  - `replace` with one-character strings.
  - `parseInt` without a radix.
  - `String(n)` for integers.
- `sequences.dfy`, module `Seqs`: the array built-ins `filter`, `slice(0, n)` and `[...new Set(xs)]`.
- `product_model.dfy`, module `ProductModel`: the record, the table row and the two mappers.
- `product_service.dfy`, module `ProductService`:
  - the queries, as functions over the catalog;
  - the store, as the class `LocalCatalog`, whose methods change the stored list;
  - the sample catalog.
- `product_details.dfy`, module `ProductDetails`: the gallery, the discount and the badges.

How the source's values are represented:

- An optional field is an `Option`. JavaScript's `undefined` and `null` are both `None`.
- Ids are integers.
- An id a caller passes is an `IdRef`: a number, or a string such as a route parameter.
  - A string matches a stored id only through `parseInt`.
  - A string that reads as a number matches exactly what that number matches (`DecimalIdMatchesLikeNumber`).
- Errors the code throws are `Err(NotFound)`.

The code mutates a list in place in one place, and the model keeps it. The list `getStoreProducts` returns
while nothing is saved is the sample array itself. So `updateProduct` rewrites that sample array before it
saves (`LocalCatalog.UpdateProduct` updates `sample` in that case).

## Model

| member | source | states |
|---|---|---|
| JsText.Lower | src/services/productService.js:324-329 | lower-casing keeps the length, maps every character by the ASCII case rule and leaves no upper-case letter |
| JsText.LowerIdempotent | src/services/productService.js:324-329 | lower-casing an already lower-cased text changes nothing |
| JsText.IncludesIffOccurs | src/services/productService.js:327-329 | the left-to-right `includes` scan answers true exactly when the needle occurs at some position |
| JsText.ReplaceFirst | src/pages/ProductDetails.jsx:178 | `replace(' ', '-')` keeps the length, and a text without a space comes back unchanged |
| JsText.ReplaceFirstAt | src/pages/ProductDetails.jsx:178 | `replace(' ', '-')` turns exactly the first space into a hyphen and keeps every other character |
| JsText.ParseInt | src/services/productService.js:356 | `parseInt` yields a number only when the text holds a digit character; otherwise it is NaN |
| JsText.ParseIntReadsNumber | src/services/productService.js:356 | `parseInt` skips leading white space, reads an optional sign and the decimal digits, and ignores what follows them: `" 7-iphone"` reads 7 and `"-12px"` reads -12 |
| JsText.ParseIntNoDigit | src/services/productService.js:356 | with no decimal digit after the white space and optional sign, as in `"abc"` or `"-"`, `parseInt` is NaN |
| JsText.DecimalString | src/services/productService.js:356 | `String(n)` is a minus sign exactly for negative numbers, then decimal digits with no leading zero |
| JsText.ParseDecimalString | src/services/productService.js:356 | `parseInt(String(n)) === n`: a numeric id written into a URL reads back as the same id |
| Seqs.Filter | src/services/productService.js:308-330 | `filter` keeps exactly the elements that pass and never more elements than the input has |
| Seqs.FilterCounts | src/services/productService.js:308-330 | `filter` keeps each passing element as often as the input holds it, and no failing one |
| Seqs.FilterIsSubsequence | src/services/productService.js:308-330 | `filter` keeps the original order |
| Seqs.FilterThenFilter | src/services/productService.js:307-330 | two filters in a row equal one filter by the conjunction of their tests |
| Seqs.Take | src/services/productService.js:495 | `slice(0, n)` is the first n elements, or all of them when there are fewer |
| Seqs.Distinct | src/services/productService.js:519 | `[...new Set(xs)]` holds every element of `xs`, nothing else, each once |
| Seqs.DistinctInFirstOccurrenceOrder | src/services/productService.js:519 | the distinct elements come out in the order of their first occurrences |
| ProductModel.FromDb | src/services/productService.js:207-224 | `mapProductFromDB` keeps id, creation time and flags, and turns missing `images`/`specs` into `[]` |
| ProductModel.FromDbAll | src/services/productService.js:491 | mapping a row list maps each row in place |
| ProductModel.ToDb | src/services/productService.js:227-242 | `mapProductToDB` defaults: battery `100%` and condition `New` when falsy, `in_stock` unless exactly false, `is_featured` only when true, `original_price` null when falsy |
| ProductModel.ReadThenWrite | src/services/productService.js:207-242 | a row with every column filled survives being read and written back unchanged |
| ProductModel.WriteThenRead | src/services/productService.js:207-242 | a written product reads back as the product with its defaults filled, and writing that again writes the same columns |
| ProductService.DecimalIdMatchesLikeNumber | src/services/productService.js:356 | a string id that spells a number matches exactly the records that number matches |
| ProductService.TextIdReadsLeadingNumber | src/services/productService.js:356 | a route id such as `"7-iphone"` or `" 7"` matches exactly the records with id 7 |
| ProductService.ListProducts | src/services/productService.js:304-332 | the listing is never longer than the catalog and holds exactly the stored records passing every active option |
| ProductService.ListProductsIsOneFilter | src/services/productService.js:304-332 | the local filter chain equals one filter by the conjunction of the active options |
| ProductService.ListProductsSpec | src/services/productService.js:304-332 | the listing keeps the stored order and holds exactly the records passing every active option, as often as the catalog does |
| ProductService.ListWithoutFiltersIsAll | src/services/productService.js:307-321 | with model and condition empty or `all`, price bounds absent or 0 and no search (in particular an empty filters object), the listing is the whole catalog |
| ProductService.ModelAndConditionIntersect | src/services/productService.js:307-313 | filtering by model and condition together keeps the records both single filters keep |
| ProductService.SearchIgnoresCase | src/services/productService.js:323-330 | searching for a text or for its lower-cased form lists the same records |
| ProductService.SearchFindsByName | src/services/productService.js:323-330 | searching "pro" finds the sample "iPhone 15 Pro" through its name |
| ProductService.SearchFindsByColor | src/services/productService.js:323-330 | searching "pro" finds the sample "iPhone 12" through its color "Product RED" |
| ProductService.SearchSkipsOthers | src/services/productService.js:323-330 | searching "pro" does not find the pink "iPhone 15" |
| ProductService.FindIndex | src/services/productService.js:418 | `findIndex` gives the first matching position, or -1 exactly when no record matches |
| ProductService.GetProductById | src/services/productService.js:355-358 | lookup returns the first record with the id, and fails with "Product not found" exactly when none has it |
| ProductService.MergeLaws | src/services/productService.js:421 | the spread merge: an empty update changes nothing, repeating an update changes nothing more, and of two updates the later value wins |
| ProductService.UpdatedRecordIsFound | src/services/productService.js:417-424 | after an update that does not replace the id, looking the id up returns the merged record |
| ProductService.RemoveMatching | src/services/productService.js:450 | the filtered list is never longer and holds exactly the stored records whose id does not match |
| ProductService.RemoveMatchingSpec | src/services/productService.js:449-452 | delete keeps exactly the records without the id, in order; the id is then not found, and a second delete changes nothing |
| ProductService.LocalFeatured | src/services/productService.js:495 | the local featured list is the first three records |
| ProductService.RemoteFeaturedBound | src/services/productService.js:460-491 | the hosted featured list has at most six entries and never more than the table has rows |
| ProductService.RemoteFeaturedWhenFlagged | src/services/productService.js:460-491 | with featured rows, the list is the newest six of them in table order, each flagged |
| ProductService.RemoteFeaturedFallback | src/services/productService.js:468-489 | on a failed featured query or no featured row, the list is the three newest rows |
| ProductService.ModelsOf | src/services/productService.js:519 | the model column, one entry per record in order |
| ProductService.ProductModelsSpec | src/services/productService.js:518-520 | the model list holds each stored model once, nothing else, in order of first occurrence |
| ProductService.LocalCatalog.constructor | src/services/productService.js:245-255 | with nothing saved the catalog is the sample catalog |
| ProductService.LocalCatalog.CreateProduct | src/services/productService.js:383-391 | the new record is the caller's fields with the clock value as id and `inStock` true; the saved list is it followed by the old list; it is found by that id as number and as string |
| ProductService.LocalCatalog.UpdateProduct | src/services/productService.js:417-424 | an unknown id fails and changes nothing; otherwise only the first matching position changes, to the merged record, and the length stays the same |
| ProductService.LocalCatalog.DeleteProduct | src/services/productService.js:449-452 | delete always reports true, saves the records without the id, and the id is then not found |
| ProductService.SampleCatalogFacts | src/services/productService.js:85-204 | the sample ids are distinct, the local featured list is its first three records, every original price is at least the price, and the model list is all eight models in order |
| ProductDetails.SortedKeysFacts | src/pages/ProductDetails.jsx:77-105 | the keyword order is the `Object.keys` order stably sorted longest first, and every keyword has a table entry |
| ProductDetails.FirstMatchingKey | src/pages/ProductDetails.jsx:106-111 | the loop returns the first keyword that occurs in the model text, or nothing exactly when none occurs |
| ProductDetails.ChosenKeyIsLongest | src/pages/ProductDetails.jsx:104-107 | over keywords sorted longest first, the first occurring keyword is a longest occurring keyword |
| ProductDetails.CoverFirst | src/pages/ProductDetails.jsx:100-101 | one to five entries: the cover, then the first candidates other than the cover, in order, as many as fit |
| ProductDetails.CoverFirstKeepsOrder | src/pages/ProductDetails.jsx:100-101 | the entries after the cover keep the candidates' order |
| ProductDetails.GalleryImages | src/pages/ProductDetails.jsx:97-113 | the gallery has one to five entries, starts with the cover and repeats it nowhere else |
| ProductDetails.GalleryFromOwnImages | src/pages/ProductDetails.jsx:98-101 | with more than one own picture, the gallery is the cover followed by the first own pictures other than the cover, in order, up to five entries, and holds the cover exactly once |
| ProductDetails.GalleryFromKeyword | src/pages/ProductDetails.jsx:103-112 | otherwise the gallery is the cover followed by the first pictures other than the cover from the entry of a longest keyword occurring in the model text, up to five entries; with no keyword it is the cover alone |
| ProductDetails.FromKeywordSpec | src/pages/ProductDetails.jsx:104-112 | over any longest-first key list with table entries, the first occurring key is a longest occurring key and the gallery is the cover followed by the first pictures of its entry other than the cover; with no key it is the cover alone |
| ProductDetails.ModelTextSpec | src/pages/ProductDetails.jsx:103 | the keyword text is the model, or the name when the model is empty, lower-cased character by character, and lower-casing it again changes nothing |
| ProductDetails.ProMaxExample | src/pages/ProductDetails.jsx:103-107 | "iPhone 15 Pro Max" selects `15 pro max`, not `15 pro` or `15` |
| ProductDetails.RoundHalfUp | src/pages/ProductDetails.jsx:190 | `Math.round` of a quotient is the integer nearest to it, halves rounded up |
| ProductDetails.DiscountPercentSpec | src/pages/ProductDetails.jsx:190 | the percentage is within one half of the exact discount rate, and between 0 and 100 when the price is between 0 and the original price |
| ProductDetails.DiscountExample | src/pages/ProductDetails.jsx:190 | 134900 instead of 159900 shows 16% off |
| ProductDetails.DiscountBadge | src/pages/ProductDetails.jsx:186-193 | the badge appears exactly when the original price is truthy and shows the rounded percentage |
| ProductDetails.Savings | src/pages/ProductDetails.jsx:197-202 | the banner appears under the same condition and the saving plus the price is the original price |
| ProductDetails.BadgeAndSavingsAgree | src/pages/ProductDetails.jsx:186-202 | badge and banner appear together, and a zero saving shows 0% |
| ProductDetails.ConditionLabel | src/pages/ProductDetails.jsx:179 | the label is the condition when it is non-empty, and `New` otherwise |
| ProductDetails.ConditionBadgeAndLabel | src/pages/ProductDetails.jsx:145-179 | a hidden condition badge goes with the label `New`; a missing condition shows an empty badge and the label `New` |
| ProductDetails.SlugSpec | src/pages/ProductDetails.jsx:178 | the slug is the lower-cased condition with its first space, and only that one, turned into a hyphen |
| ProductDetails.CategoryClass | src/pages/ProductDetails.jsx:178 | the class is `category-badge ` followed by the hyphenated lower-cased condition, or `undefined` without a condition |
| ProductDetails.SlugExample | src/pages/ProductDetails.jsx:178 | "Like New" becomes "like-new" |
| ProductDetails.CategoryClassExample | src/pages/ProductDetails.jsx:178 | a "Like New" record gets the class `category-badge like-new` |

## Left out

- The hosted-database branches of every service function are left out: query building, inserts, updates, deletes, `.single()` and error objects. They are calls into a foreign library. Only the featured-selection rule is kept, as `RemoteFeatured`. Its input is the table's rows, newest first, plus two flags saying whether each query succeeded.
- Image upload and the storage-bucket check are left out. They are file encoding, random file names and network uploads.
- The artificial `setTimeout` delays are not modelled; they only wait.
- Browser storage and JSON encoding are not modelled. The slot is the field `LocalCatalog.saved`. A missing, empty or unparsable slot is `None`.
- The configured/not-configured switch is not modelled: the model is the local mode throughout.
- `formatPrice` (`Intl.NumberFormat`), the gallery scroll and dot handlers, and the page's loading state are presentation only.
- The rendering components and the diagnostic script are left out.
- RoundHalfUp: the source divides in floating point before `Math.round`. The model computes the exact quotient, so a rate within a rounding error of a half may round differently.
- JsText.Lower: only the ASCII letters are case-mapped. Full Unicode case mapping is not modelled.
- JsText.ParseInt: numbers beyond double precision are not rounded as JavaScript does. `String(n)` is exact only below 10^21, where JavaScript switches to exponent notation.
- ProductService.IdMatches: ids are integers. Fractional numeric ids and stored string ids are not modelled.
- ProductService.LocalCatalog.CreateProduct: the caller's fields arrive as a full `Product`. Extra properties outside the record are not modelled.
- ProductService.Patch: an update object is limited to the record's own properties.
- ProductService.Filters: prices and price bounds are integers. Prices given as numeric strings, as a form may send them, are not modelled.
- ProductService.RemoteFeatured: the featured query uses the service-role client while both fallback queries use the anon-key client. Under row-level security the two clients may see different rows. The model feeds all three queries from one newest-first row list, so it does not capture that difference.
- JsText.ParseIntReadsNumber: states the decimal reading only. The `0x` prefix branch is modelled in `ParseMagnitude`, but no lemma states the value it reads.
- The hosted `getProductModels` is left out. It orders by model in the database and then deduplicates as the local mode does.
- Delete of an unknown id succeeds without error, as the code does. The code also keeps the stored order rather than sorting. The model follows the code on both points.
