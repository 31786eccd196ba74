# Storefront listing and order-summary logic, in Dafny

This project models the pure logic of a storefront front-end written in
TypeScript/React, and proves properties of it:

- **Order summary helpers** (`src/utils/order.ts`). An order's `orderInfo`
  (absent, one line, or an array of lines) is normalised into a list of lines.
  One status label is derived from the lines' statuses by a fixed priority
  chain and mapped to a badge class. The total, the tracking number and the
  customer's display name are chosen by fallback rules.
- **Home-page product feeds** (`dynamicProductFilter` and its helpers in
  `src/redux/featured/product/productApi.ts`). A fetched product array is
  turned into at most ten products. The "discount" feed keeps products whose
  sale price is below the price. The "deal" feed keeps today's products,
  newest first, or the newest overall when there are none. The "reviews" feed
  sorts by rating, or shuffles when no product has a rating.
- **Catalogue filtering** (`src/components/ProductList/ProductList.tsx`),
  taken out of the React component. It covers label capitalisation, stable
  category ids, the sale-price mapping, the five price buckets, the category
  lookup table, the facet filter, and the handlers that change the filter and
  page state.

Files and modules:

| file | module | what |
|---|---|---|
| `wrappers.dfy` | `Wrappers` | `Option`, with `GetOr` as the `??` operator |
| `js.dfy` | `Js` | JavaScript numbers (finite reals, NaN, ±Infinity), values, `typeof`, truthiness, `Number.isFinite`, `<` |
| `text.dfy` | `Text` | `trim` with ECMAScript's white-space set, ASCII case mapping |
| `seqs.dfy` | `Seqs` | `filter`, `slice(0, n)`, stable descending sort by key, subsequence and multiset lemmas |
| `orders.dfy` | `Orders` | `src/utils/order.ts` |
| `product_feed.dfy` | `ProductFeed` | `src/redux/featured/product/productApi.ts` helpers |
| `catalogue.dfy` | `Catalogue` | pure functions of `ProductList.tsx` |
| `listing.dfy` | `Listing` | the listing page's filter/page state transitions |

Modelling choices:

- The clock, randomness and parsing are parameters.
  - Today's bounds are the inputs `startMs`/`endMs`.
  - A product has the four date fields `getCreatedAtMs` consults
    (`createdAt`, `created_at`, `createdOn`, `date`). Each is `None` when
    null or missing. Otherwise it is a `Stamp`: the parsed millisecond time,
    or `Invalid` for a falsy value or one `Date` cannot parse.
  - `Math.random()` values are a sequence `draws` of reals in [0, 1).
- JavaScript numbers are `Js.Number`. Finite values are exact reals, so
  floating-point rounding is not modelled. NaN and the infinities are explicit,
  so the comparisons and `Number.isFinite` keep their edge cases.
- The array operations work on immutable sequences. So the source's copies
  (`[...products]`, `[...array]`) and "the input is not mutated" hold by
  construction.
- React state setters become pure functions from one `ListingState` to the
  next.

## Model

| member | source | states |
|---|---|---|
| Js.IsNumber | src/redux/featured/product/productApi.ts:24-25 | `typeof v === "number" && Number.isFinite(v)` holds exactly when the value is a finite number (not NaN, not ±Infinity, not a non-number) |
| Orders.ToOrderLines | src/utils/order.ts:10-13 | absent `orderInfo` gives no lines, a single line gives a one-element list, an array is returned as is |
| Orders.ItemsCount | src/utils/order.ts:38-39 | the item count is 0 for no info, 1 for a single line object, and the array length otherwise |
| Orders.TrackingNumber | src/utils/order.ts:47-48 | absent when there are no lines; otherwise exactly the first line's tracking number, whatever the shape of `orderInfo` |
| Orders.TrackingNumberNeedsItem | src/utils/order.ts:38-48 | an order with a tracking number has an item count of at least 1, and the number comes from its first line |
| Orders.Statuses | src/utils/order.ts:26 | the filtered statuses are exactly the non-empty strings that some line carries as its status |
| Orders.StatusLabel | src/utils/order.ts:24-36 | the label is one of six values. "Delivered" iff some line is completed and every set status is "completed". "Cancelled" iff some line is cancelled. "Out for delivery", "Processing" and "At local facility" each iff that status occurs and no higher-priority one does. "Pending" otherwise, including when no status is set |
| Orders.StatusBadgeClass | src/utils/order.ts:58-74 | the class is always one of the six badge classes. Green iff the lower-cased label is "delivered" or "completed". Blue, red, amber and purple each iff it is "processing", "cancelled", "out for delivery" or "at local facility". Gray iff it is none of these six |
| Orders.BadgeIgnoresCase | src/utils/order.ts:59 | labels equal after lower-casing get the same badge |
| Orders.BadgeDeliveredIsCompleted | src/utils/order.ts:60-62 | the "Delivered" label and the raw "completed" status share the green class |
| Orders.StatusLabelBadge | src/utils/order.ts:58-73 | every label `statusLabel` produces has a non-default badge, except "Pending", which gets the gray default |
| Orders.OrderTotal | src/utils/order.ts:41-45 | a numeric `totalAmount` is returned itself. A totals record gives its `total` when present. No `totalAmount`, or a record without `total`, gives 0 |
| Orders.FullNameEmptyIff | src/utils/order.ts:20 | the trimmed `"first last"` is empty exactly when both parts are blank |
| Orders.DisplayCustomer | src/utils/order.ts:15-22 | the name is never empty. A non-blank string is shown trimmed. A blank string or no customer gives "Customer". A record with a non-blank first or last name shows the trimmed full name; otherwise its non-empty e-mail, else "Customer" |
| ProductFeed.CreatedAtMs | src/redux/featured/product/productApi.ts:28-33 | the first present field of `createdAt`, `created_at`, `createdOn`, `date` decides. Its parsed time is returned, or 0 when it is falsy or does not parse. No present field gives 0 |
| ProductFeed.CreatedAtFromField | src/redux/featured/product/productApi.ts:28-33 | a non-zero creation time is the parsed time held by one of the four date fields |
| ProductFeed.InvalidCreatedAtHidesLater | src/redux/featured/product/productApi.ts:29-32 | a present `createdAt` that does not parse gives 0, even when a later field holds a valid date: `??` skips only null and undefined |
| ProductFeed.RatingKey | src/redux/featured/product/productApi.ts:80 | a falsy rating (missing, 0 or NaN) sorts as 0. A finite rating sorts as itself. +Infinity is the greatest key and -Infinity the least |
| ProductFeed.FloorIndex | src/redux/featured/product/productApi.ts:18 | `Math.floor(r * (i + 1))` for `r` in [0, 1) is an index in 0..i |
| ProductFeed.Shuffle | src/redux/featured/product/productApi.ts:15-22 | the Fisher-Yates shuffle returns a permutation of its input: same length, same multiset |
| ProductFeed.DiscountFeed | src/redux/featured/product/productApi.ts:51-57 | at most ten products, a subsequence of the input, all with finite sale price below finite price. They are the first min(10, k) of the k discounted products, in input order |
| ProductFeed.CreatedToday | src/redux/featured/product/productApi.ts:62-65 | a subsequence of the input that keeps every product created within [startMs, endMs], as often as it occurs, and no other; empty exactly when no product is from today |
| ProductFeed.NewestFirst | src/redux/featured/product/productApi.ts:72-74 | the min(10, n) products with the latest creation times, newest first, drawn from the input; no product left out is newer than one kept. Among products with the same creation time, the earliest in the input are kept, in input order |
| ProductFeed.DealFeed | src/redux/featured/product/productApi.ts:58-75 | if some product is from today: the min(10, n) newest of today's products, newest first. Otherwise: the min(10, n) newest products overall, newest first. No product left out is newer than one kept. Ties keep input order, and the earliest tied products are the ones kept |
| ProductFeed.ReviewsFeed | src/redux/featured/product/productApi.ts:76-84 | min(10, n) products drawn from the input. When some rating is numeric, they are the highest-rated, highest first (missing rating = 0); equal ratings keep input order, earliest kept |
| ProductFeed.DynamicProductFilter | src/redux/featured/product/productApi.ts:45-88 | for every query type the result has at most ten products, all from the input. Each known query type yields its feed, ties in the "reviews" feed in input order; any other type yields the first ten products in input order |
| Seqs.SortDesc | src/redux/featured/product/productApi.ts:68 | the comparator sort returns a permutation of its input ordered by descending key. It is stable: for every key, the elements with that key appear in the same order as in the input |
| Catalogue.Capitalize | src/components/ProductList/ProductList.tsx:179-183 | "" exactly when the input is empty or blank. Otherwise the trimmed text with its first character upper-cased and the rest lower-cased, of the same length |
| Catalogue.CapitalizeIdempotent | src/components/ProductList/ProductList.tsx:179-183 | capitalising twice equals capitalising once |
| Catalogue.FirstStringProp | src/components/ProductList/ProductList.tsx:231-235 | the value of the first listed property that is a non-empty string, "" when there is none |
| Catalogue.StableCatId | src/components/ProductList/ProductList.tsx:228-236 | "" for non-objects. For an object: the first non-empty string among `slug`, `_id`, `id`, `name`, in that priority, or "" when none is |
| Catalogue.SlugFirst | src/components/ProductList/ProductList.tsx:231 | a non-empty string slug wins over every other field |
| Catalogue.ProductCategory | src/components/ProductList/ProductList.tsx:297-300 | the listed product's category is the stable id of its first category entry; "" when the list is missing or empty |
| Catalogue.ProductCategoryIsCategoryId | src/components/ProductList/ProductList.tsx:297-326 | a product whose first category has a non-empty slug gets the same id that the category list gives the category with that slug |
| Catalogue.MapPrice | src/components/ProductList/ProductList.tsx:277-280 | a positive sale price is shown, with the regular price as the original. Otherwise the regular price is shown, with no original. A missing price reads as 0 |
| Catalogue.SaleShownBelowOriginal | src/components/ProductList/ProductList.tsx:277-280 | a positive sale price below the regular price is shown, with the regular price as the original, above the shown price |
| Catalogue.GetRange | src/components/ProductList/ProductList.tsx:355-371 | `getRange` returns the label of the bucket counted by how many of 500/1000/2000/5000 the price reaches (lower bounds inclusive), and no other label. A non-finite price is in the first bucket |
| Catalogue.BucketMonotone | src/components/ProductList/ProductList.tsx:363-370 | a higher finite price never falls in a lower bucket |
| Catalogue.CategoryId | src/components/ProductList/ProductList.tsx:326 | the first present field of `slug`, `_id`, `id`, `name` is the id, even when it is empty. With none present the id is "" |
| Catalogue.AddCategory | src/components/ProductList/ProductList.tsx:326-329 | one category adds its non-empty label and id as keys, both mapping to its id; other keys are unchanged |
| Catalogue.CategoryMap | src/components/ProductList/ProductList.tsx:322-332 | the table's keys are exactly the non-empty labels and ids of the categories. Each key maps to the id of the last category that names it |
| Catalogue.CategoryNameToId | src/components/ProductList/ProductList.tsx:322-332 | empty before the categories load. Once loaded, its keys are exactly the non-empty labels and ids of the categories, each mapped to the id of the last category that names it. It never holds the empty key |
| Catalogue.LastWriterWins | src/components/ProductList/ProductList.tsx:325-329 | a key maps to the id of the last category in the list that writes it |
| Catalogue.LastCategoryWins | src/components/ProductList/ProductList.tsx:327-329 | the last category's label and id both map to its id |
| Catalogue.CategoryCandidates | src/components/ProductList/ProductList.tsx:464-467 | the candidates are the product's category and its mapped id, each only when non-empty |
| Catalogue.FilteredProducts | src/components/ProductList/ProductList.tsx:460-494 | the filtered list is a subsequence of the source. It keeps each matching product as often as it occurs and drops the rest |
| Catalogue.NoSelectionKeepsAll | src/components/ProductList/ProductList.tsx:460-494 | with every facet empty the filter is the identity |
| Catalogue.FacetSemantics | src/components/ProductList/ProductList.tsx:463-491 | states the meaning of `Matches`, the model of the `filteredProducts` callback, one facet at a time: an empty facet imposes nothing. Brand: membership. Price: the product's bucket label is selected. Size and colour: any overlap. Category: a selected non-empty id equals the product's category or its mapped id |
| Catalogue.MatchesEveryFacet | src/components/ProductList/ProductList.tsx:460-494 | `Matches`, the callback's predicate, holds for a product iff it holds for each facet's selection alone |
| Catalogue.CategoryLabelMatchesId | src/components/ProductList/ProductList.tsx:463-472 | a product filed under a label is found by selecting the id of the last category in the list that writes that label |
| Catalogue.EarlierIdMisses | src/components/ProductList/ProductList.tsx:463-472 | when a later category is the last to write a product's label, selecting only the id of an earlier category misses the product, unless that id is the label itself or equals the later category's id |
| Listing.HandleFilterChange | src/components/ProductList/ProductList.tsx:402-416 | ticking appends the value, duplicates allowed. Unticking removes every occurrence and keeps every other value's count and order. Other facets and the search are unchanged. The page resets to 1 |
| Listing.CheckThenUncheck | src/components/ProductList/ProductList.tsx:407-412 | ticking a value that was not selected and then unticking it restores all facets exactly |
| Listing.HandleSearch | src/components/ProductList/ProductList.tsx:418-421 | the query is stored and the page resets to 1; filters are unchanged |
| Listing.ClearAll | src/components/ProductList/ProductList.tsx:423-426 | every facet is empty and the page is 1; the search is kept |
| Listing.HandleLoadMore | src/components/ProductList/ProductList.tsx:239-243 | the page goes up by one exactly when there is a next page and no fetch is in flight; nothing else changes |
| Listing.IsAnyFilterActive | src/components/ProductList/ProductList.tsx:383-389 | the total selection count is positive exactly when some facet has a selection |
| Listing.InactiveListsAll | src/components/ProductList/ProductList.tsx:383-389 | when no filter is active the filtered list is the whole source |
| Listing.CheckingWidens | src/components/ProductList/ProductList.tsx:469-491 | ticking another value in a facet that already has a selection only adds products to the list |
| Listing.CheckingEmptyFacetNarrows | src/components/ProductList/ProductList.tsx:463-491 | ticking a value in an empty facet only removes products from the list |
| Listing.RunKeepsPageInRange | src/components/ProductList/ProductList.tsx:239-243 | over any sequence of user actions from a page of 1 or more, the page stays at least 1 and grows at most by the number of actions |

## Left out

- The cart, coupon evaluation, pricing totals, order-payload building and checkout step machine are not part of this model. Their source (the cart slice, the checkout logic) is not among the files modelled here, so they are not reconstructed.
- All JSX rendering is left out. So are the presentation-only parts of `ProductList.tsx`: section toggles, the mobile drawer and body-scroll lock, add-to-cart and the "added" badge, the debug logging, and the sidebar's option lists (`categoryFilterItems`, lines 309-319; the brand/colour sets, lines 341-351 and 374-375).
- The RTK Query endpoints, cache tags and network calls in `productApi.ts` (lines 91-188) are left out. So is the fallback to the built-in demo product list when the API returns nothing (line 247).
- Of the remote-product mapping (lines 249-305), only the price choice and the category id (`stableCatId` of the first category) are modelled. Brand extraction and colours from `specifications` are not.
- `ymd` and `getTodayBounds`, and the `Date` parsing in `getCreatedAtMs`, are left out. Each present date field is already parsed into a `Stamp`, and today's bounds are parameters.
- `formatPrice` (`toLocaleString`) is left out: it is display formatting.
- Floating-point rounding is not modelled; finite numbers are exact reals.
- `Number(...)` applied to non-numbers (a string rating or price) is not modelled. Ratings and prices are optional numbers. `String(...)` of a non-string is not modelled for `capitalize`: its input is an optional string.
- Object-key quirks of a plain JavaScript record (keys such as `__proto__` or `constructor`) are not modelled for `categoryNameToId`. The table is a `map`.
- Catalogue.Capitalize: the case mapping is ASCII only. Full Unicode `toUpperCase`/`toLowerCase`, which can change a string's length, is not modelled.
- Catalogue.CapitalizeIdempotent: holds only for the ASCII case mapping of the model. JavaScript's full mapping breaks it: `capitalize("ßa")` is "SSa", because `toUpperCase` turns ß into SS, and `capitalize("SSa")` is "Ssa".
- Orders.StatusBadgeClass: `toLowerCase` is ASCII only, as above. All labels it is compared with are ASCII.
- ProductFeed.Shuffle: the contract states only that the result is a permutation. Uniformity of the shuffle is a property of `Math.random` and is not stated.
- ProductFeed.ReviewsFeed: when no rating is numeric, the contract says only that the result is min(10, n) products drawn from the input; their order comes from `Math.random`.
