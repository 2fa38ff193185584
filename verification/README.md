# Candle storefront: client state and catalog logic in Dafny

This project models the logic of a small storefront for handcrafted candles: the
part that keeps state and processes product lists. The page markup is not modelled.
It covers:

- **Wishlist reducer.** An ordered list of products with set semantics keyed by product id, plus a cached `itemCount`.
- **Recently-viewed list.** Most recent first, de-duplicated by id, capped at eight entries. Views are ignored until the provider has mounted.
- **Static catalog and its lookups.** Lookup by id, by category, featured products, and all products.
- **Storefront grid filters.** Search, category, scent, size and price range, plus the wishlist toggle and the add-to-cart intent.
- **"You Might Also Like" selection.**
- **"Recently Viewed" section.** Its normaliser for loosely typed stored records, its wishlist toggle, and its display rules.
- **Candle document schema.** Required fields, enumerations, defaults and the unique id.
- **Review carousel and image gallery.** Index and flag state machines with wrap-around arithmetic.
- **Contact form.** Its state machine.
- **Order-number formatter.**
- **Catalog HTTP handlers.** The status/body mapping of the list, create, search and featured handlers.

Everything is written as immutable datatypes and pure functions over `seq`. Lemmas state the invariants and round trips. Conventions:

- Prices are integer cents. For example, 28.99 is `2899`, and the grid's default price range of 0 to 50 dollars is `0..5000`.
- `toLowerCase` is ASCII lower-casing.
- JavaScript's truncating `%` is written out as `WrapIndex.JsRem`.
- The clock, timers, browser storage and the data-access service are parameters or explicit events.

Files and modules:

| file | module | models |
|---|---|---|
| wrappers.dfy | `Wrappers` | optional values and results |
| seqs.dfy | `Seqs` | `filter`, `slice(0, k)`, subsequence |
| text.dfy | `Text` | `toLowerCase`, `includes` |
| products.dfy | `Products` | the product record, its enumerations, id-keyed list helpers |
| catalog.dfy | `Catalog` | the static catalog and its lookups |
| wishlist.dfy | `Wishlist` | the wishlist reducer and the grid's heart toggle |
| recently_viewed.dfy | `RecentlyViewed` | the recently-viewed provider |
| recent_panel.dfy | `RecentPanel` | the "Recently Viewed" section |
| cart_intents.dfy | `CartIntents` | the cart actions pages dispatch |
| product_filters.dfy | `ProductFilters` | the grid's filters |
| related.dfy | `Related` | the related-products selection |
| candle_schema.dfy | `CandleSchema` | the stored-document schema |
| candle_routes.dfy | `CandleRoutes` | the catalog HTTP handlers |
| wrap_index.dfy | `WrapIndex` | next/previous index with wrap-around |
| carousel.dfy | `Carousel` | the review carousel |
| gallery.dfy | `Gallery` | the product image gallery |
| contact_form.dfy | `ContactForm` | the contact form |
| order_number.dfy | `OrderNumber` | the `LUM-` order number |

## Model

| member | source | states |
|---|---|---|
| Products.ParseCategory | lib/products.ts:8 | a string names a category exactly when it is one of the three category names, and then the category's name is that string |
| Products.ParseScent | lib/products.ts:9 | a string names a scent type exactly when it is one of the six scent names |
| Products.ParseSize | lib/products.ts:10 | a string names a size exactly when it is small, medium or large |
| Products.CategoryRoundTrip | lib/products.ts:8 | every category reads back as itself from its name |
| Products.ScentRoundTrip | lib/products.ts:9 | every scent type reads back as itself from its name |
| Products.SizeRoundTrip | lib/products.ts:10 | every size reads back as itself from its name |
| Products.IndexOfId | lib/wishlist-context.tsx:21 | `find` by id stops at the first item carrying the id, and finds none exactly when no item carries it |
| Products.WithoutId | lib/wishlist-context.tsx:31 | filtering out an id keeps exactly the items with other ids, as a subsequence; with the id absent, the list is unchanged |
| Products.WithoutIdCounts | lib/wishlist-context.tsx:31 | the filter keeps every item with another id exactly as often as it occurs, and no item with the id |
| Products.WithoutIdDropsId | lib/wishlist-context.tsx:31 | after the filter no item has the id, and distinct ids stay distinct |
| Products.WithoutIdLength | lib/recently-viewed-context.tsx:33 | in a list with distinct ids, filtering out a present id removes exactly one item |
| Catalog.EntryIds | lib/products.ts:16-134 | the catalog holds eight products with ids angel, birthday, five-flower, lotus, packed-candles, teddy-bear, two-flower, three-teddy-bears, in that order |
| Catalog.WellFormed | lib/products.ts:16-134 | catalog ids are pairwise distinct, every entry has an image, and every original price exceeds the sale price |
| Catalog.GetProductById | lib/products.ts:136-138 | yields the first catalog product with the id, and nothing exactly when no catalog product has it |
| Catalog.GetProductsByCategory | lib/products.ts:140-142 | yields exactly the catalog products of that category, in catalog order; an unknown category string yields nothing |
| Catalog.GetFeaturedProducts | lib/products.ts:144-146 | yields exactly the catalog products with featured set to true (absent counts as not featured), in catalog order |
| Catalog.GetAllProducts | lib/products.ts:148-150 | yields the catalog itself |
| Catalog.EveryProductFound | lib/products.ts:136-150 | every product of the full list is found again by its id and listed under its category |
| Text.Lower | app/products/page.tsx:62-65 | `toLowerCase` keeps the length and lower-cases each ASCII letter in place |
| Text.Includes | app/products/page.tsx:62-65 | the empty string is always included, and nothing longer than the text is |
| Text.IncludesIsSubstring | app/products/page.tsx:62-65 | the left-to-right `includes` scan succeeds exactly when the needle occurs at some position of the text |
| Wishlist.Reduce | lib/wishlist-context.tsx:18-52 | ADD of a saved id returns the same state. ADD of a new id appends it after the unchanged earlier items. REMOVE keeps exactly the items with other ids, each as often as before, in order. CLEAR empties. LOAD replaces. Every transition except ADD-of-a-saved-id sets the count to the list length |
| Wishlist.ReduceKeepsDistinctIds | lib/wishlist-context.tsx:18-41 | ADD, REMOVE and CLEAR keep ids distinct |
| Wishlist.LoadKeepsDuplicates | lib/wishlist-context.tsx:43-47 | LOAD does no de-duplication: a list with a repeated id is adopted as it is |
| Wishlist.AddIdempotent | lib/wishlist-context.tsx:20-28 | adding the same product twice equals adding it once |
| Wishlist.IsInWishlist | lib/wishlist-context.tsx:98-100 | `isInWishlist` holds iff some saved item carries the id, which is also exactly when ADD's `find` reports the product as saved |
| Wishlist.MembershipAfterAddAndRemove | lib/wishlist-context.tsx:98-100 | `isInWishlist` holds for the product just added and fails for the id just removed |
| Wishlist.ReplayKeepsInvariant | lib/wishlist-context.tsx:18-52 | any run of ADD/REMOVE/CLEAR from a state whose count matches and whose ids are distinct keeps both properties |
| Wishlist.ReplayFromEmpty | lib/wishlist-context.tsx:18-52 | from the empty wishlist the provider starts with, any run of ADD/REMOVE/CLEAR keeps the count equal to the length and the ids distinct |
| Wishlist.Toggle | app/products/page.tsx:88-96 | the heart button flips membership of the product's id and of no other id |
| Wishlist.ToggleTwice | app/products/page.tsx:88-96 | two toggles restore membership of every id; starting unsaved, they restore the list itself |
| RecentlyViewed.Mount | lib/recently-viewed-context.tsx:19-25 | mounting sets the flag and adopts the stored list as it is, if there is one |
| RecentlyViewed.Push | lib/recently-viewed-context.tsx:31-37 | the viewed product comes first and its id nowhere else. The length is min(8, entries with other ids + 1). Behind it come the first of the earlier entries with other ids, most recent first, so the cut drops the oldest. Distinct ids stay distinct |
| RecentlyViewed.Add | lib/recently-viewed-context.tsx:27-41 | before mount a view changes nothing; after mount the list is exactly `Push` of the earlier list (the product first, then the earlier entries with other ids in order, cut to eight) |
| RecentlyViewed.AddKeepsHistory | lib/recently-viewed-context.tsx:27-41 | after mount, viewing a product whose id is not listed, with fewer than eight entries, puts it in front of the whole earlier list |
| RecentlyViewed.Clear | lib/recently-viewed-context.tsx:43-46 | clearing empties the list |
| RecentlyViewed.PushIdempotent | lib/recently-viewed-context.tsx:31-37 | viewing the same product twice in a row equals viewing it once |
| RecentlyViewed.NinthViewDropsOldest | lib/recently-viewed-context.tsx:33-35 | a new product viewed on a full list of eight distinct entries goes first, and the oldest entry disappears |
| RecentlyViewed.ReviewMovesToFront | lib/recently-viewed-context.tsx:33-35 | re-viewing a listed product moves it to the front without changing the length |
| RecentlyViewed.AddKeepsInvariant | lib/recently-viewed-context.tsx:27-41 | a list within the cap with distinct ids stays so after a view |
| RecentlyViewed.ReplayKeepsInvariant | lib/recently-viewed-context.tsx:27-46 | any run of views and clears keeps a list within the cap and with distinct ids |
| RecentlyViewed.MountThenReplay | lib/recently-viewed-context.tsx:19-46 | mounting with nothing stored, or with a stored list within the cap and with distinct ids, then any views and clears, keeps both properties |
| RecentlyViewed.StoredDuplicatesSurvive | lib/recently-viewed-context.tsx:19-37 | the stored list is adopted unchecked: a repeated id in it survives the next view of another product |
| CartIntents.AddOne | app/products/page.tsx:84-86 | add-to-cart dispatches ADD_ITEM for that product with quantity 1 |
| CartIntents.AddEnabled | app/products/page.tsx:378-383 | an Add button is enabled iff the product is in stock, except on the wishlist page, where it is always enabled |
| CartIntents.PressAdd | components/quick-view-modal.tsx:24-27 | a click dispatches ADD_ITEM of that product with quantity 1 exactly when the button is enabled, and nothing otherwise |
| CartIntents.OutOfStockOnlyFromWishlist | app/wishlist/page.tsx:17-19 | an out-of-stock product reaches the cart only from the wishlist page; an in-stock product from every button |
| RecentPanel.Loosen | components/recently-viewed.tsx:24-37 | a typed product seen as the section's loose record keeps its id, scent presence and size name |
| RecentPanel.Normalise | components/recently-viewed.tsx:49-57 | the scent type is kept iff it is one of the six values, otherwise absent. The size is kept iff it is one of the three values, otherwise (missing or empty included) "small". No other field changes |
| RecentPanel.NormaliseLoosen | components/recently-viewed.tsx:49-57 | a well-typed product passes through the mapping unchanged |
| RecentPanel.NormaliseIdempotent | components/recently-viewed.tsx:75-83 | normalising twice equals normalising once |
| RecentPanel.AddToCart | components/recently-viewed.tsx:39-59 | the Add button dispatches exactly ADD_ITEM of the normalised record (valid scent kept, size parsed or "small") with quantity 1 |
| RecentPanel.PressAddToCart | components/recently-viewed.tsx:147-151 | a click dispatches that action exactly when the entry is in stock, which is the shared card button's behaviour on the normalised product |
| RecentPanel.ToggleWishlist | components/recently-viewed.tsx:70-86 | a saved id is removed; otherwise the normalised product is appended and becomes saved |
| RecentPanel.ToggleMatchesCartPath | components/recently-viewed.tsx:39-86 | the section's wishlist toggle is the grid's toggle applied to the same normalised product the cart receives |
| RecentPanel.Render | components/recently-viewed.tsx:102 | an empty list renders nothing (lines 18-20). Otherwise the first min(4, N) entries are shown, and "Showing 4 of N" appears iff N > 4 (lines 162-164) |
| ProductFilters.SearchMatch | app/products/page.tsx:60-65 | a product matches the query iff the query is empty or its lower-cased text is included in the lower-cased name, description, scent type (when present) or category |
| ProductFilters.Matches | app/products/page.tsx:59-72 | a product passes iff it matches the search, each select other than "all" parses to the product's own category, scent type or size, and the price lies within both bounds |
| ProductFilters.FilteredProducts | app/products/page.tsx:58-74 | the grid shows exactly the loaded products passing all five tests, each as often as it was loaded, as a subsequence of the loaded order |
| ProductFilters.SearchMatchIsSubstring | app/products/page.tsx:60-65 | a non-empty query matches iff its lower-cased text occurs in the lower-cased name, description, scent type (when present) or category |
| ProductFilters.UnscentedFailsScentFilter | app/products/page.tsx:68 | a product without a scent type fails every specific scent selection |
| ProductFilters.ClearFilters | app/products/page.tsx:76-82 | clearing restores the empty query, "all" for the three selects, and the range 0 to 50 dollars |
| ProductFilters.ClearedFiltersOnlyLimitPrice | app/products/page.tsx:58-82 | with cleared filters a product is shown iff its price lies in the default range, so an empty query matches everything |
| ProductFilters.PriceBoundsInclusive | app/products/page.tsx:70 | a price equal to either bound passes the price test |
| Related.RelatedProducts | components/related-products.tsx:21-27 | the result has at most four products and never the current id. Each shares the category or the scent type (two absent scent types count as equal). The result is the first min(4, qualifying) qualifying products, in order |
| Related.FewCandidatesAllShown | components/related-products.tsx:21-27 | when at most four products qualify, every qualifying product is shown |
| Related.Section | components/related-products.tsx:29-31 | the section renders nothing exactly when no product qualifies |
| CandleSchema.Validate | lib/models/Candle.ts:20-77 | a document validates iff id, name, description, price, category, size and burnTime are present, category and size are in their enumerations, and scentType, if given, is one of the six. A valid document gets inStock true and featured false when those are absent. An invalid one reports at least one error, naming a missing id and an unknown size |
| CandleSchema.ValidateToDoc | lib/models/Candle.ts:20-77 | every typed product is a valid document and reads back as itself, with absent featured filled in as false |
| CandleSchema.DefaultsApplied | lib/models/Candle.ts:65-74 | a valid document without inStock and featured gets true and false |
| CandleSchema.Insert | lib/models/Candle.ts:21-25 | a document is stored iff it validates and its id is new. A duplicate id is refused. A collection with distinct ids keeps them |
| CandleRoutes.Search | app/api/candles/search/route.ts:4-25 | a missing or empty q gives 400 "Search query is required" whatever the service would do. Otherwise a returned list gives 200 with that list, and a thrown error gives 500 "Failed to search candles". No other status occurs |
| CandleRoutes.WhitespaceQueryIsSearched | app/api/candles/search/route.ts:9-16 | a whitespace-only query is not refused |
| CandleRoutes.List | app/api/candles/route.ts:4-15 | 200 with the returned list, or 500 "Failed to fetch candles" when the service throws |
| CandleRoutes.Create | app/api/candles/route.ts:17-29 | 201 with the record the service returned iff the body parsed and the service did not throw. Every other case gives 500 "Failed to create candle"; there is no 400 or 409 |
| CandleRoutes.Featured | app/api/candles/featured/route.ts:4-15 | 200 with the returned list unmodified, or 500 "Failed to fetch featured candles"; no other status |
| CandleRoutes.ErrorsAreFixedMessages | app/api/candles/route.ts:8-14 | across the four handlers an error status always carries an error body with one of the fixed messages (also search/route.ts:18-24 and featured/route.ts:8-14) |
| WrapIndex.JsRem | components/customer-reviews.tsx:59 | JavaScript's remainder agrees with the mathematical one on non-negative operands and lies in (-n, 0] on negative ones |
| WrapIndex.Next | components/customer-reviews.tsx:71 | from an in-range index, next stays in range and wraps the last index to 0 |
| WrapIndex.Prev | components/customer-reviews.tsx:66 | from an in-range index, previous stays in range and wraps 0 to the last index |
| WrapIndex.PrevNextInverse | components/customer-reviews.tsx:65-73 | previous undoes next and next undoes previous |
| WrapIndex.SingleItemStays | components/product-image-gallery.tsx:17-23 | with one item, both arrows stay on index 0 |
| WrapIndex.FullCycle | components/customer-reviews.tsx:58-60 | n steps of next return to the start index |
| Carousel.Step | components/customer-reviews.tsx:55-78 | a tick advances only while autoplay is on. Every button turns autoplay off. A dot sets the index. The arrows move by one with wrap-around and keep the index on a review |
| Carousel.RunKeepsIndexInRange | components/customer-reviews.tsx:52-78 | any run of clicks and ticks keeps the index on a review, and once autoplay is off it stays off |
| Carousel.RunFromInitial | components/customer-reviews.tsx:52-78 | from the first review with autoplay on, every run of clicks and ticks stays on one of the five reviews |
| Carousel.AutoplayCycles | components/customer-reviews.tsx:55-63 | five autoplay ticks return to the review they started on |
| Gallery.NextImage | components/product-image-gallery.tsx:17-19 | the right arrow selects the next image, wrapping from the last to the first, and leaves zoom alone |
| Gallery.PrevImage | components/product-image-gallery.tsx:21-23 | the left arrow selects the previous image, wrapping from the first to the last, and leaves zoom alone |
| Gallery.ArrowsFromInitial | components/product-image-gallery.tsx:14-23 | from the first image, unzoomed, the right arrow shows the second image and the left arrow the last |
| Gallery.ArrowsInverse | components/product-image-gallery.tsx:17-23 | the two arrows undo each other |
| Gallery.SingleImageStays | components/product-image-gallery.tsx:17-23 | with one image both arrows keep the selection at 0 |
| Gallery.SelectThumbnail | components/product-image-gallery.tsx:80 | a thumbnail click selects that image |
| Gallery.ToggleZoom | components/product-image-gallery.tsx:36 | a click on the main image flips zoom and keeps the selection |
| Gallery.ToggleZoomTwice | components/product-image-gallery.tsx:36 | two clicks restore the zoom level |
| Gallery.View | components/product-image-gallery.tsx:30-75 | arrows, counter and thumbnails appear iff there are at least two images. The counter reads selection + 1 over the image count. A missing or empty entry shows the placeholder image |
| ContactForm.InputChange | app/contact/page.tsx:24-26 | typing sets that field and leaves the other three fields and both flags unchanged |
| ContactForm.ValidEmail | app/contact/page.tsx:112-118 | an address the email input accepts has an `@` with a non-empty part on each side |
| ContactForm.MissingDomainInvalid | app/contact/page.tsx:112-118 | an address ending at the `@` is rejected |
| ContactForm.PlaceholderEmailValid | app/contact/page.tsx:112-118 | the placeholder address `your@email.com` is accepted |
| ContactForm.Submit | app/contact/page.tsx:28-31 | a press sets isSubmitting exactly when name, message and a valid email are filled in (or a send is already in flight); a form the browser blocks is unchanged; the fields are kept |
| ContactForm.InitialNotSent | app/contact/page.tsx:100-140 | the empty form the page opens with is not sent, and its button stays enabled |
| ContactForm.SubmitEnabled | app/contact/page.tsx:145 | the submit button is enabled iff no send is in flight |
| ContactForm.SubmitDisabledWhileSending | app/contact/page.tsx:145 | after a submit of a valid form the button is disabled, whatever is typed, until the send completes |
| ContactForm.TimerDone | app/contact/page.tsx:33-37 | completion clears isSubmitting, sets isSubmitted and empties all four fields |
| ContactForm.SendAnother | app/contact/page.tsx:93 | "Send Another Message" clears isSubmitted and changes nothing else |
| ContactForm.SendCycleReturnsToInitial | app/contact/page.tsx:28-37 | for any valid form, submit, completion and "Send Another Message" lead back to an empty, enabled form |
| OrderNumber.Decimal | app/order-confirmation/page.tsx:8 | `toString()` of the clock reading is a non-empty string of decimal digits |
| OrderNumber.LastSix | app/order-confirmation/page.tsx:8 | `slice(-6)` is the whole string up to six characters, and otherwise its last six, with the rest in front |
| OrderNumber.DecimalRoundTrip | app/order-confirmation/page.tsx:8 | the decimal rendering of the timestamp reads back as the timestamp |
| OrderNumber.DecimalLength | app/order-confirmation/page.tsx:8 | the rendering has more than k digits iff the timestamp reaches 10^k |
| OrderNumber.FormatOrderNumber | app/order-confirmation/page.tsx:8 | the order number starts with "LUM-", followed by one to six digits |
| OrderNumber.OrderSuffix | app/order-confirmation/page.tsx:8 | from 100000 on, the suffix has exactly six digits (leading zeros kept) and denotes t mod 1000000. Below that, it is the whole rendering |

## Left out

- The cart reducer (ADD_ITEM merging, UPDATE_QUANTITY, totals): lib/cart-context is not part of this model. Only the intents the pages dispatch are modelled. The cart page's decrement button disabled at quantity 1 (app/cart/page.tsx:87) is not modelled.
- The product detail page (app/products/[id]/page.tsx) is not modelled. Its "Add to Cart" dispatches the quantity chosen on the page, so `CartIntents.PressAdd` covers only the five one-unit buttons.
- Money display: the cart page's tax and totals are floating-point with `toFixed` formatting. Prices here are integer cents.
- lib/candle-service.ts is not part of this model; it holds the MongoDB connection and driver calls. Each handler takes the service's outcome as `Returned(value)` or `Threw`.
  - The service's regular-expression search is driver behaviour and is not modelled.
  - The service writes through the native driver rather than the `Candle` schema. So `CandleSchema` models the constraints the schema declares, and the handlers do not pass through it.
- app/api/candles/[id]/route.ts (GET/PUT/DELETE by id) is not part of this model.
- scripts/seed-db.ts is database I/O only.
- Browser storage and JSON parsing: saving to and removing from `localStorage` are not modelled.
  - The stored recently-viewed list is an `Option` parameter of `RecentlyViewed.Mount`.
  - A parse failure, which that provider does not catch, is not modelled.
  - The wishlist's load effect is the LOAD action itself.
- The grid's product fetch effect, loading and error flags, and the quick-view modal state are not modelled. The grid's memoised list lists its dependencies without the product list, so a cached result can outlive a fetch; caching is not modelled.
- Timers are explicit events: the carousel's four-second interval is `Tick`, and the contact form's 1.5-second timeout is `TimerDone`.
- `toLowerCase` is ASCII-only; Unicode case mapping is not modelled.
- The wishlist reducer's `default` branch cannot be reached with the closed action datatype.
- Presentational files are not modelled: app/page.tsx, app/about/page.tsx, app/layout.tsx and components/navigation.tsx. They hold markup, copy and provider wiring.
- components/quick-view-modal.tsx and app/wishlist/page.tsx are modelled only through their Add buttons (`CartIntents.PressAdd`, with the quick-view button gated on stock and the wishlist page's not) and the wishlist actions the page dispatches (`Wishlist.Reduce`). The dialog's own image index and the pages' markup are not modelled.
- ContactForm.ValidEmail: the browser trims leading and trailing whitespace and line breaks from an email input's value before the check; the model takes the field value as already trimmed.
- CandleSchema.Validate: a field counts as present whenever it is given. The schema library's further rule that an empty string fails `required` lives in the library, not in the schema file, and is not modelled. Per-element `required` on `images` is not modelled either. Validation errors for `createdAt`/`updatedAt` timestamps are not modelled.
- OrderNumber.FormatOrderNumber: the clock reading is a natural number; a clock before 1970 (negative milliseconds, rendered with a sign) is not modelled.
- Related.RelatedProducts: takes the product list as a parameter; the component passes `getAllProducts()`, which is `Catalog.Entries`.
- Carousel.Step: a dot passes its own position, so slide indices are in range in every reachable run. An out-of-range `GoToSlide` is modelled as given, but the in-range property is stated only for in-range dots.
