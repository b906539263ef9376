# MBAPrototype shop core, modelled in Dafny

MBAPrototype is an Android shop app that recommends products. This project
models its core logic and proves properties of that model:

- **Catalog loader (`DataSource`).** It reads the product file, splits each
  line at the commas outside double quotes and skips the header. It interns
  category names as `cat1`, `cat2`, ... in order of first appearance, parses
  the `/`-separated ingredients, seeds two demo purchases and answers id
  lookups.
- **Shop state holder (`SharedViewModel`).** It holds these state cells:
  - the catalog;
  - the search query and the selected tab;
  - the basket and the favourites;
  - the purchase history and the clicked ids;
  - three recommendation lists.

  Its operations are:
  - the derived, categorised product list;
  - the basket operations (load, add, decrease, remove, set quantity);
  - checkout, toggling favourites and click tracking;
  - the three recommendation refreshes;
  - the search and tab setters and the lookups.
- **Category colours (`CategoryColorUtil`).** A memoised round-robin over six
  colour pairs.
- **Product list adapter.** The card label, the row view types and the list
  diff identity.
- **Product detail screen.** The image label, the ingredients text and the
  quantity controls.
- **Interaction logger.** It sanitises ids and builds CSV rows. The user
  number is fixed once.

The model follows the source's own shape:

- State that the app updates in place is a `class` whose fields the methods
  reassign: `SharedViewModel`, `DataSource`, `CategoryColorUtil` and
  `Logger`.
- The loops of `loadBasket` and of the CSV loader are `while`/`for` loops.
  They are proved against specification functions (`Reconcile`,
  `LoadedProducts`/`LoadedCategories`).
- Expression-only code is a function. It comes with lemmas that state its
  meaning: membership both ways, order, round trips and invariants kept.

Remote outcomes, clocks and UUIDs are parameters:

- `ok: bool` is a call that only succeeds or fails.
- `Option<seq<Int32>>` is a fetch. `None` stands for a non-success response
  or an exception.
- A fresh UUID, the current time and the formatted timestamp are plain
  arguments.

A `productId.toInt()` that throws is caught in the source and changes
nothing. The model writes this as `Text.ToInt(id) == None`.

The modules are:

| module | models |
|---|---|
| `Options`, `Text`, `Seqs` | `Option`; Kotlin's string helpers over ASCII (`trim`, `split`, `take`, `uppercase`, `toInt`, `toString`, `contains(ignoreCase)`); `distinct`, `indexOf` |
| `Model` | `Product`, `Category`, `BasketItem`, `PurchaseHistory`, `FavoriteItem`, and the `find { it.id == ... }` lookups |
| `Basket` | the basket transformations and `loadBasket`'s counting loops |
| `Recommend` | recommendation id → product resolution |
| `ProductList` | `ProductListItem` and `categorizedProductList` |
| `ViewModel` | class `SharedViewModel` |
| `Csv`, `Catalog` | the product-file format, the loader loop (`loadProductsAndCategoriesFromCsv` takes the four tokens as they are; blank fields are not replaced), the seeded history, class `DataSource` |
| `ColorUtils` | class `CategoryColorUtil` |
| `ProductAdapter`, `ProductDetail` | the two screens' pure logic |
| `InteractionLogger` | sanitising, the row format, class `Logger` |

All source paths below are under `app/src/main/java/com/example/mbaprototype/`.

## Model

| member | source | states |
|---|---|---|
| Model.FindProduct | app/src/main/java/com/example/mbaprototype/ui/SharedViewModel.kt:482 | `find` returns the first product with the id, and `None` exactly when no product has it |
| Model.FindCategory | app/src/main/java/com/example/mbaprototype/ui/SharedViewModel.kt:485 | the first category with the id, `None` exactly when none has it |
| Model.FindCategoryByName | app/src/main/java/com/example/mbaprototype/ui/SharedViewModel.kt:403 | the first category whose name equals the text ignoring case; a null text matches none |
| Model.FindPurchase | app/src/main/java/com/example/mbaprototype/ui/SharedViewModel.kt:488 | the first purchase with the id, `None` exactly when none has it |
| Text.ToIntOfDecimalString | app/src/main/java/com/example/mbaprototype/ui/SharedViewModel.kt:144 | `n.toString().toInt() == n` for every 32-bit `n`, so an id built from a remote number parses back to it |
| Text.DecimalStringInjective | app/src/main/java/com/example/mbaprototype/ui/SharedViewModel.kt:199 | different numbers have different decimal strings, so a remote number names at most one product id |
| Text.SplitOnJoin | app/src/main/java/com/example/mbaprototype/data/DataSource.kt:94 | `split(c)` of pieces joined by `c` (none containing `c`) gives the pieces back |
| Text.JoinSplitOn | app/src/main/java/com/example/mbaprototype/data/DataSource.kt:94 | joining the pieces of `split(c)` with `c` gives the text back |
| Text.TrimSpec | app/src/main/java/com/example/mbaprototype/data/DataSource.kt:50 | `trim()` is empty exactly for a blank text; a non-empty result starts and ends with non-whitespace |
| Recommend.ResolveKeepsOrder | app/src/main/java/com/example/mbaprototype/ui/SharedViewModel.kt:166-168 | `mapNotNull` keeps one product per id that a catalog product carries, in response order, each the first match |
| Recommend.ResolveFromCatalog | app/src/main/java/com/example/mbaprototype/ui/SharedViewModel.kt:166-168 | every recommended product is a catalog product |
| Recommend.AllKnownResolve | app/src/main/java/com/example/mbaprototype/ui/SharedViewModel.kt:166-168 | when every id is known nothing is dropped: the i-th product answers the i-th id |
| Recommend.KnownIds | app/src/main/java/com/example/mbaprototype/ui/SharedViewModel.kt:166-168 | the kept ids are exactly the response ids that some catalog product carries |
| Recommend.Refresh | app/src/main/java/com/example/mbaprototype/ui/SharedViewModel.kt:159-175 | failure, exception or empty catalog give the empty list; otherwise the known ids' products, in order |
| Recommend.ResolveExample | app/src/main/java/com/example/mbaprototype/ui/SharedViewModel.kt:335-337 | ids 5, 7, 99 against products "5", "7" give those two, in order |
| Basket.QuantityPositiveIffInBasket | app/src/main/java/com/example/mbaprototype/ui/SharedViewModel.kt:497 | in a well-formed basket a product is present exactly when its quantity is positive |
| Basket.AddSpec | app/src/main/java/com/example/mbaprototype/ui/SharedViewModel.kt:218-228 | the product's quantity grows by n and no other quantity changes; a present product keeps its place, a new item is appended; n ≥ 1 keeps the basket well formed |
| Basket.DecreaseSpec | app/src/main/java/com/example/mbaprototype/ui/SharedViewModel.kt:241-256 | an absent product changes nothing; more than n units lose exactly n, with the rest untouched; otherwise the item goes only on a confirmed delete; well-formedness is kept |
| Basket.RemoveSpec | app/src/main/java/com/example/mbaprototype/ui/SharedViewModel.kt:271-273 | `filterNot` removes the product's one item, keeps the others in order with their quantities, and keeps the basket well formed |
| Basket.SetQuantitySpec | app/src/main/java/com/example/mbaprototype/ui/SharedViewModel.kt:459-471 | a positive quantity is set in place, ≤ 0 removes the item, an absent product changes nothing; well-formedness is kept |
| Basket.CountRows | app/src/main/java/com/example/mbaprototype/ui/SharedViewModel.kt:191-195 | the count table lists each `product_no` once, in first-occurrence order, with its number of rows |
| Basket.ResolveCounts | app/src/main/java/com/example/mbaprototype/ui/SharedViewModel.kt:197-203 | one item per counted key found in the catalog, in key order |
| Basket.Aggregate | app/src/main/java/com/example/mbaprototype/ui/SharedViewModel.kt:191-203 | the two loops compute the reconciled basket |
| Basket.ReconcileSpec | app/src/main/java/com/example/mbaprototype/ui/SharedViewModel.kt:186-204 | the loaded basket is well formed and holds only catalog products; N rows for a catalog id give quantity N; ids not in the catalog are absent |
| Basket.ReconcileOrder | app/src/main/java/com/example/mbaprototype/ui/SharedViewModel.kt:191-203 | for any response, one item per distinct row that names a catalog product, in the order the rows first name them; unknown ids are skipped |
| Basket.ReconcileAllKnown | app/src/main/java/com/example/mbaprototype/ui/SharedViewModel.kt:198-203 | when every row is known there is one item per distinct row, in first-occurrence order |
| ProductList.CategoryFilterView | app/src/main/java/com/example/mbaprototype/ui/SharedViewModel.kt:52-56 | a query equal to a category's id lists exactly that category's products, in catalog order, under only its header, with no selector and "showing all" flags |
| ProductList.CategoryFilterList | app/src/main/java/com/example/mbaprototype/ui/SharedViewModel.kt:52-56 | the id match wins over text matching: the list is that category's full section |
| ProductList.TextSearchView | app/src/main/java/com/example/mbaprototype/ui/SharedViewModel.kt:58-63 | any other non-blank query lists only catalog products whose name or category name contains it ignoring case, and all those with a known category; the headers are exactly the categories with a match, in catalog order |
| ProductList.BrowseView | app/src/main/java/com/example/mbaprototype/ui/SharedViewModel.kt:65-87 | no query: one selector of all categories and the tab first, exactly when there are categories; headers for exactly the non-empty categories; `isShowingAll` iff at most four products |
| ProductList.SectionContents | app/src/main/java/com/example/mbaprototype/ui/SharedViewModel.kt:69-81 | a category section is its header, then all its products in detail view or the first four in catalog order otherwise; an empty category has no section |
| ProductList.SectionsListSound | app/src/main/java/com/example/mbaprototype/ui/SharedViewModel.kt:69-82 | every listed product is a displayed product of a considered category |
| ProductList.SectionsListComplete | app/src/main/java/com/example/mbaprototype/ui/SharedViewModel.kt:69-82 | in detail view every displayed product of a considered category is listed |
| ProductList.CategoriesInMatchedIds | app/src/main/java/com/example/mbaprototype/ui/SharedViewModel.kt:62-63 | filtering categories by the matched products' distinct ids keeps exactly the categories with a match |
| ProductList.NonEmptyCategoriesIdempotent | app/src/main/java/com/example/mbaprototype/ui/SharedViewModel.kt:69-71 | dropping empty categories twice is dropping them once |
| ProductList.InCategoryIdempotent | app/src/main/java/com/example/mbaprototype/ui/SharedViewModel.kt:55 | filtering by a category twice is filtering once |
| ProductList.Preview | app/src/main/java/com/example/mbaprototype/ui/SharedViewModel.kt:76 | `take(4)`: the first min(4, n) products |
| ViewModel.FavoriteIdsSpec | app/src/main/java/com/example/mbaprototype/ui/SharedViewModel.kt:143-144 | every remote row's number is a favourite id, and every favourite id parses back to a row's number |
| ViewModel.ToggledFavoritesSpec | app/src/main/java/com/example/mbaprototype/ui/SharedViewModel.kt:354-375 | a favourite leaves the set exactly when the remote delete is confirmed; a non-favourite joins exactly when it names a catalog product; no other id changes |
| ViewModel.ToggleTwice | app/src/main/java/com/example/mbaprototype/ui/SharedViewModel.kt:354-375 | toggling a numeric catalog id twice with successful calls restores the favourites |
| ViewModel.TakeLast | app/src/main/java/com/example/mbaprototype/ui/SharedViewModel.kt:394 | `takeLast(n)` is the last min(n, size) elements |
| ViewModel.TrackClickSpec | app/src/main/java/com/example/mbaprototype/ui/SharedViewModel.kt:393-395 | the clicked ids stay distinct and at most 20; a known id changes nothing; a new one is appended, dropping the oldest when full |
| ViewModel.DetailRecommendations | app/src/main/java/com/example/mbaprototype/ui/SharedViewModel.kt:428-455 | no id or an id that does not parse gives nothing; otherwise the refresh of the response |
| ViewModel.SharedViewModel.constructor | app/src/main/java/com/example/mbaprototype/ui/SharedViewModel.kt:129-134 | the catalog and history come from the loader; the query, tab, basket, favourites, clicks and recommendations start empty |
| ViewModel.SharedViewModel.LoadFavorites | app/src/main/java/com/example/mbaprototype/ui/SharedViewModel.kt:138-152 | success replaces the favourites by the rows' ids; failure keeps them |
| ViewModel.SharedViewModel.ToggleFavorite | app/src/main/java/com/example/mbaprototype/ui/SharedViewModel.kt:352-376 | the favourites become the toggled set |
| ViewModel.SharedViewModel.LoadBasket | app/src/main/java/com/example/mbaprototype/ui/SharedViewModel.kt:182-210 | success with a loaded catalog replaces the basket by the reconciled one; failure or an empty catalog keeps it; the invariant is kept |
| ViewModel.SharedViewModel.AddProductToBasket | app/src/main/java/com/example/mbaprototype/ui/SharedViewModel.kt:213-237 | a confirmed call adds the quantity; otherwise nothing changes; a positive amount keeps the invariant |
| ViewModel.SharedViewModel.DecreaseBasketQuantity | app/src/main/java/com/example/mbaprototype/ui/SharedViewModel.kt:239-264 | the basket becomes the decreased one, the delete confirmed only by a parsed id and a successful call; the invariant is kept |
| ViewModel.SharedViewModel.RemoveProductFromBasket | app/src/main/java/com/example/mbaprototype/ui/SharedViewModel.kt:266-281 | a confirmed delete removes the item; otherwise nothing changes |
| ViewModel.SharedViewModel.UpdateBasketItemQuantity | app/src/main/java/com/example/mbaprototype/ui/SharedViewModel.kt:457-474 | the basket becomes the set-quantity one; the invariant is kept |
| ViewModel.SharedViewModel.CompletePurchase | app/src/main/java/com/example/mbaprototype/ui/SharedViewModel.kt:283-297 | returns false and changes nothing on an empty basket; otherwise returns true and puts a record of the current basket in front of the unchanged older records |
| ViewModel.SharedViewModel.TrackProductClick | app/src/main/java/com/example/mbaprototype/ui/SharedViewModel.kt:393-395 | the clicked ids become the tracked ones and contain the id |
| ViewModel.SharedViewModel.UpdateForYouRecommendations | app/src/main/java/com/example/mbaprototype/ui/SharedViewModel.kt:154-180 | the list becomes the refresh of the response |
| ViewModel.SharedViewModel.UpdateBasketRecommendations | app/src/main/java/com/example/mbaprototype/ui/SharedViewModel.kt:324-347 | the list becomes the refresh of the response |
| ViewModel.SharedViewModel.UpdateProductDetailRecommendations | app/src/main/java/com/example/mbaprototype/ui/SharedViewModel.kt:428-455 | the list becomes the detail recommendations for the id |
| ViewModel.SharedViewModel.SearchProductsOrFilterByCategory | app/src/main/java/com/example/mbaprototype/ui/SharedViewModel.kt:402-413 | a category name (ignoring case) sets query and tab to its id, which names a catalog category; other text becomes the query, and a null or blank one clears the tab |
| ViewModel.SharedViewModel.FilterByCategoryFromTab | app/src/main/java/com/example/mbaprototype/ui/SharedViewModel.kt:415-421 | query and tab become the id; a catalog category's id then lists exactly that category |
| ViewModel.SharedViewModel.ClearSearchOrFilter | app/src/main/java/com/example/mbaprototype/ui/SharedViewModel.kt:423-426 | query and tab are cleared |
| ViewModel.SharedViewModel.GetProductById | app/src/main/java/com/example/mbaprototype/ui/SharedViewModel.kt:477-483 | the catalog product with the id, `None` exactly when there is none |
| ViewModel.SharedViewModel.GetCategoryById | app/src/main/java/com/example/mbaprototype/ui/SharedViewModel.kt:484-486 | the category with the id, `None` exactly when there is none |
| ViewModel.SharedViewModel.GetPurchaseById | app/src/main/java/com/example/mbaprototype/ui/SharedViewModel.kt:487-495 | the purchase with the id, `None` exactly when there is none |
| ViewModel.SharedViewModel.IsInBasket | app/src/main/java/com/example/mbaprototype/ui/SharedViewModel.kt:497 | under the invariant, true exactly for products with a positive quantity |
| Csv.JoinTokens | app/src/main/java/com/example/mbaprototype/data/DataSource.kt:49 | the quote-aware split loses nothing: its tokens joined with commas give the line back |
| Csv.TokensWithoutQuotes | app/src/main/java/com/example/mbaprototype/data/DataSource.kt:49 | on a line without quotes, every comma splits |
| Csv.TokensCons | app/src/main/java/com/example/mbaprototype/data/DataSource.kt:49 | a piece whose commas are all inside quotes, then a comma followed by balanced quotes, splits off as the first token |
| Csv.TokensJoin | app/src/main/java/com/example/mbaprototype/data/DataSource.kt:49 | comma-joined fields with quoted commas and balanced quotes split back into exactly those fields |
| Csv.ParseQuotedLine | app/src/main/java/com/example/mbaprototype/data/DataSource.kt:49-50 | a line of quoted, quote-free fields parses back into exactly those fields, commas inside them included |
| Csv.QuoteCleans | app/src/main/java/com/example/mbaprototype/data/DataSource.kt:50 | cleaning a quote-wrapped token gives back exactly the text inside the quotes |
| Csv.QuotedField | app/src/main/java/com/example/mbaprototype/data/DataSource.kt:49-50 | a quoted quote-free text is split as one token, and cleaning it gives the text back |
| Csv.ParseIngredientsSpec | app/src/main/java/com/example/mbaprototype/data/DataSource.kt:93-95 | every ingredient is non-empty, trimmed and free of `/` |
| Csv.IngredientsRoundTrip | app/src/main/java/com/example/mbaprototype/data/DataSource.kt:93-95 | non-empty trimmed ingredients without `/`, joined by `/`, parse back into themselves |
| Catalog.LoadLine | app/src/main/java/com/example/mbaprototype/data/DataSource.kt:49-70 | one line's step keeps the loop invariant: products of the accepted rows so far, names interned in first-seen order, counter = names + 1 |
| Catalog.LoadProductsAndCategoriesFromCsv | app/src/main/java/com/example/mbaprototype/data/DataSource.kt:37-83 | the loop's products and categories are exactly the loaded products and interned categories of the file, and empty after an I/O error |
| Catalog.InterningSpec | app/src/main/java/com/example/mbaprototype/data/DataSource.kt:58-83 | the k-th category is the k-th distinct name with id `cat(k+1)`; names and ids are all different; none after an I/O error |
| Catalog.NamesFirstAppearance | app/src/main/java/com/example/mbaprototype/data/DataSource.kt:58-60 | the interned names are exactly the rows' category names, in order of first appearance |
| Catalog.LoadedProductsSpec | app/src/main/java/com/example/mbaprototype/data/DataSource.kt:52-70 | one product per accepted row, in file order, with its id and name; two products share a category id iff their rows share a category name; each id finds its category |
| Catalog.LoadedResolve | app/src/main/java/com/example/mbaprototype/data/DataSource.kt:58-83 | every loaded product's category id is the id of a loaded category |
| Catalog.CategoryIdInjective | app/src/main/java/com/example/mbaprototype/data/DataSource.kt:59 | different counter values give different ids |
| Catalog.HeaderSkipped | app/src/main/java/com/example/mbaprototype/data/DataSource.kt:46 | the first line never affects the result |
| Catalog.SeededHistorySpec | app/src/main/java/com/example/mbaprototype/data/DataSource.kt:97-118 | two records exactly when there are two products: exactly [p0×2, p1×1] a week before the first clock read, then [p2×5] or nothing two days before the second, so at least five days later when the clock does not go back |
| Catalog.GroupMembers | app/src/main/java/com/example/mbaprototype/data/DataSource.kt:131-136 | each group is non-empty and holds exactly the products of its category |
| Catalog.GroupKeysDistinct | app/src/main/java/com/example/mbaprototype/data/DataSource.kt:133-135 | the group keys are distinct categories |
| Catalog.GroupCovers | app/src/main/java/com/example/mbaprototype/data/DataSource.kt:133-135 | every product is in a group |
| Catalog.DataSource.constructor | app/src/main/java/com/example/mbaprototype/data/DataSource.kt:15-25 | nothing is loaded yet |
| Catalog.DataSource.Init | app/src/main/java/com/example/mbaprototype/data/DataSource.kt:28-35 | the first call loads the file and seeds the history; later calls keep everything |
| Catalog.DataSource.GetProductById | app/src/main/java/com/example/mbaprototype/data/DataSource.kt:121-124 | `None` before loading or when no product has the id; otherwise the first product with the id |
| Catalog.DataSource.GetCategoryById | app/src/main/java/com/example/mbaprototype/data/DataSource.kt:126-129 | `None` before loading or when no category has the id; otherwise the first category with the id |
| Catalog.DataSource.GetProductsByCategory | app/src/main/java/com/example/mbaprototype/data/DataSource.kt:131-136 | empty before loading; otherwise each group holds exactly its category's products |
| ColorUtils.PairForSpec | app/src/main/java/com/example/mbaprototype/utils/ColorUtils.kt:10-26 | the default pair is never handed out; pairs cycle with period six; six consecutive requests get different pairs |
| ColorUtils.AssignNew | app/src/main/java/com/example/mbaprototype/utils/ColorUtils.kt:25-28 | a new id extends the memo table with the pair at the counter, keeping the table's invariant |
| ColorUtils.CategoryColorUtil.constructor | app/src/main/java/com/example/mbaprototype/utils/ColorUtils.kt:21-22 | an empty table and a zero counter |
| ColorUtils.CategoryColorUtil.GetColorsForCategory | app/src/main/java/com/example/mbaprototype/utils/ColorUtils.kt:24-30 | a known id gets its stored pair and nothing changes; a new id gets the pair at the counter, which grows by one; the k-th distinct id gets `colorPairs[k mod 6]`; the table size equals the counter |
| ColorUtils.SharedColors | app/src/main/java/com/example/mbaprototype/utils/ColorUtils.kt:10-26 | two requested categories share a pair exactly when their request positions agree mod 6, so the 7th reuses the 1st's |
| ProductAdapter.ViewType | app/src/main/java/com/example/mbaprototype/ui/products/ProductAdapter.kt:27-45 | 0 exactly for a selector, 1 exactly for a header, 2 exactly for a product |
| ProductAdapter.CardLabel | app/src/main/java/com/example/mbaprototype/ui/products/ProductAdapter.kt:157-174 | the shown label is the card text upper-cased, at most 15 characters |
| ProductAdapter.CardTextSpec | app/src/main/java/com/example/mbaprototype/ui/products/ProductAdapter.kt:157-171 | the card text is a prefix of the name; a number then a word gives the first 15 characters of both words; otherwise at most 10 characters with no space |
| ProductAdapter.CardTextOneWord | app/src/main/java/com/example/mbaprototype/ui/products/ProductAdapter.kt:166-170 | a name with no space (number or not) shows its first 10 characters |
| ProductAdapter.CardTextLeadingSpace | app/src/main/java/com/example/mbaprototype/ui/products/ProductAdapter.kt:169-170 | an empty name, or one starting with a space, shows "" |
| ProductAdapter.CardLabelExample | app/src/main/java/com/example/mbaprototype/ui/products/ProductAdapter.kt:163-174 | "500 g Milk" is labelled "500 G" |
| ProductAdapter.ItemsTheSameIsEquivalence | app/src/main/java/com/example/mbaprototype/ui/products/ProductAdapter.kt:191-206 | the diff identity is reflexive, symmetric and transitive; it only matches rows of one view type; equal contents imply the same item |
| ProductAdapter.ProductRowsSame | app/src/main/java/com/example/mbaprototype/ui/products/ProductAdapter.kt:197-198 | two product rows match exactly when the product ids are equal |
| ProductDetail.DetailLabel | app/src/main/java/com/example/mbaprototype/ui/products/ProductDetailActivity.kt:91-106 | the image label is the text upper-cased, at most 20 characters |
| ProductDetail.DetailTextSpec | app/src/main/java/com/example/mbaprototype/ui/products/ProductDetailActivity.kt:91-105 | a number then a word gives `w0\nw1` when that fits in 20, else the first 20 of `w0 w1`; otherwise at most 12 characters with no space; always the name's beginning, possibly with its first space shown as a line break |
| ProductDetail.DetailTextOneWord | app/src/main/java/com/example/mbaprototype/ui/products/ProductDetailActivity.kt:99-103 | a name with no space (number or not) shows its first 12 characters |
| ProductDetail.IngredientsText | app/src/main/java/com/example/mbaprototype/ui/products/ProductDetailActivity.kt:109-116 | the "no ingredients" state exactly for null or empty ingredients |
| ProductDetail.IngredientsTextRoundTrip | app/src/main/java/com/example/mbaprototype/ui/products/ProductDetailActivity.kt:113 | the `", "`-joined text splits at its commas and trims back into the ingredients, in order |
| ProductDetail.QuantityUI | app/src/main/java/com/example/mbaprototype/ui/products/ProductDetailActivity.kt:201-212 | selector and decrease button exactly for a positive quantity, add button exactly otherwise; the number is shown only with the selector |
| ProductDetail.DetailQuantityControls | app/src/main/java/com/example/mbaprototype/ui/products/ProductDetailActivity.kt:172-212 | the selector shows exactly when the product is in the basket, and its text reads back as the basket quantity |
| InteractionLogger.RemoveChar | app/src/main/java/com/example/mbaprototype/utils/InteractionLogger.kt:72 | `replace(",", "")` leaves no comma |
| InteractionLogger.Sanitize | app/src/main/java/com/example/mbaprototype/utils/InteractionLogger.kt:72 | the sanitised id has no comma and no line feed; a null id gives "" |
| InteractionLogger.SanitizeIsCleaned | app/src/main/java/com/example/mbaprototype/utils/InteractionLogger.kt:72 | the two replaces equal a one-pass cleaning: commas vanish, line feeds become spaces, all else (`\r` included) stays |
| InteractionLogger.SanitizeIdempotent | app/src/main/java/com/example/mbaprototype/utils/InteractionLogger.kt:72 | sanitising twice is sanitising once |
| InteractionLogger.CsvRow | app/src/main/java/com/example/mbaprototype/utils/InteractionLogger.kt:74 | a row ends with a line feed |
| InteractionLogger.CsvRowFields | app/src/main/java/com/example/mbaprototype/utils/InteractionLogger.kt:72-74 | with comma- and newline-free fields, the row's only line feed is the last character, and it splits at commas into exactly user number, type, sanitised id and timestamp |
| InteractionLogger.Logger.constructor | app/src/main/java/com/example/mbaprototype/utils/InteractionLogger.kt:21 | no user number in memory yet |
| InteractionLogger.Logger.Initialize | app/src/main/java/com/example/mbaprototype/utils/InteractionLogger.kt:26-53 | a set user number never changes; otherwise the stored one, or a fresh one that is also stored; afterwards there is always one; the header is written only for a missing file |
| InteractionLogger.Logger.LogInteraction | app/src/main/java/com/example/mbaprototype/utils/InteractionLogger.kt:55-86 | initialises when needed, then appends exactly the row (after the header for a new file) when the write succeeds |

## Left out

- Networking: each `apiService` call is a parameter (`ok`, or an `Option` of the ids the response carries); Retrofit and the request/response types are not part of this model.
- Coroutines and `StateFlow`: each `viewModelScope.launch` body runs as one atomic step, so the stale-read races between concurrent launches are not modelled; the follow-up refreshes an operation triggers are separate method calls, and `categorizedProductList` is the function `ProductListNow` of the current state rather than a flow.
- Floating point: `price`, `basketTotalCost` and the purchase totals are left out; the loader always stores a null price and no modelled logic reads it. `imageUrl` is never set and is left out too.
- Clocks, UUIDs and the date formatter: the current time, each fresh UUID and the formatted timestamp are parameters; the purchase date is an integer timestamp.
- File and asset I/O: the product file is given as its list of lines (`None` for an `IOException`); the log file is a list of appended chunks, each write's success a parameter, and `SharedPreferences` one optional string.
- Android UI: view binding, `RecyclerView`/`DiffUtil` plumbing, colour drawables, snackbars and navigation; only the values the screens compute are modelled (labels, view types, diff identity, visibility decisions).
- Text: Kotlin's `isWhitespace`, `isDigit`, `uppercase` and `equals/contains(ignoreCase)` are modelled on ASCII (whitespace is space, 9-13 and 28-31); non-ASCII letters, digits and spaces are treated as ordinary characters.
- The logging calls inside `SharedViewModel` (`logInteraction(product, ...)`, `logBulkBoughtInteraction`) do not match the logger's own signature and are treated as abstract events with no effect; `Log.*` calls are left out.
- The fallbacks to the global `DataSource` in `getProductById`, `getCategoryById` and `getPurchaseById` are left out; the lookups answer from the ViewModel's own lists. `getProductById` falls back while its list is empty, the other two on every miss. The ViewModel's lists are copies of `DataSource`'s (`SharedViewModel.kt:132-134`), and history entries are only ever prepended, so a fallback never finds anything the own lists lack.
- The `forYouLoading` flag, the favourite-button state and the recommendation list visibility on the detail screen are left out: they only mirror other state.
- `ForYouFragment`'s shuffled display is nondeterministic and out.
- ViewModel.SharedViewModel.IsFavorite: a plain membership read of the favourites, with no contract of its own worth stating.
- ViewModel.SharedViewModel.AddProductToBasket: Kotlin `Int` overflow of quantities is not modelled (quantities are unbounded integers), and the invariant is promised only for a positive amount, since the source does not guard against others.
- ColorUtils.CategoryColorUtil.GetColorsForCategory: the overflow of `nextColorIndex` after 2^31 requests is not modelled. Colours are the unsigned ARGB values of the palette literals, whereas `Color.parseColor` returns them as signed `Int`s; the pairs are compared only for equality, so this changes nothing.
- ProductDetail.DetailQuantityControls: requires a quantity below 2^31, as Kotlin's `Int` guarantees, so that its decimal text reads back.
- ProductAdapter.AreContentsTheSame is structural equality of the rows, as the source's `==` on data classes; the `words.isNotEmpty()` guard of both label computations always holds because `split` never returns an empty list, so it is not modelled as a branch.
- InteractionLogger.Logger.LogInteraction: the early return for a user number still missing after the retry cannot happen, because `initialize` always leaves one; the model keeps the branch, and the postcondition of `Initialize` shows it is never taken.
- The interaction-type constants and the CSV header are modelled as constants; the file name and preference keys are not.
