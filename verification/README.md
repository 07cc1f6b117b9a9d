# Inventory dashboard — a Dafny model of its list logic

The dashboard keeps a list of products (id, name, category, price, stock) in
a React context. Its components filter, search, sort, page and select rows of
that list. They also count it for summary cards and a per-category chart,
validate the add/edit and add-category forms, and look single products up
for a detail sheet. This project restates that logic as pure Dafny functions
over immutable values and proves what the components promise of it.

One module per source file:

- `MockData`: the product record, the seven categories and the 24 seed products.
- `ProductContext`: the store, with add, update and delete, and the chart data effect.
- `FilterPanel`: the category and stock filter, the category toggle, the reset and the badge counts.
- `SearchBar`: term normalisation, the three-way match, the search and the clear.
- `ProductTable`: the column sort, paging, the header toggle and the Previous/Next buttons.
  It also covers the row and page selection and the two delete confirmations.
- `StatsCards`: inventory value, product count, low-stock and out-of-stock counts.
- `ProductDetail`: the lookup, stock status and colour, stock value, short id and SKU.
- `ProductForm`: the form state, the four rules, the submit dispatch and per-field error clearing.
- `CategoryForm`: the trimmed-name check and error clearing.
- `CategoryChart`: the bars sorted by count, largest first.
- `SeedFacts`: facts about the seed data.

Three generic modules support them:

- `Collections`: filter, count, subsequence and toggle.
- `Text`: JavaScript-style `trim`, ASCII case mapping, `includes`, number rendering and string order.
- `Sorting`: a stable insertion sort, proved a permutation, sorted and stable for any total preorder.

Modelling choices:

- Prices are whole cents (`1299.99` is `129999`).
- The form's stock is a `real`, so the "not an integer" rule has something to reject.
- Every React effect is a pure recomputation.
- Every event handler is a function from the old state to the new state.
- `Math.random` in `addProduct` becomes a `newId` parameter. Freshness of that id is a hypothesis of
  the "ids stay unique" property, not a precondition, because the code does not check it.
- `localeCompare` becomes code-point (Unicode scalar value) lexicographic order (`Text.StrLe`). The sort lemmas hold for any
  total preorder, so they do not depend on that choice.
- `toLowerCase`/`toUpperCase` map ASCII letters only.
- `price.toString()` becomes `Text.PriceString` on cents: the shortest decimal form with at most two
  decimals, which is what JavaScript prints for such numbers.
- `Array.prototype.sort` is stable (ECMA-262, section 23.1.3.30). It is modelled by `Sorting.SortBy`.

Behaviour of the code worth knowing:

- `deleteProducts` sets the selection to `[]` after every deletion, so selected ids that were not
  deleted are deselected as well (`ProductContext.tsx:60`).
- The category/stock filter and the search each overwrite `filteredProducts` from the full list, so
  whichever ran last decides what the table shows (`FilterPanel.tsx:22,34`, `SearchBar.tsx:18,23,29`).
  The model keeps them as two separate functions and proves that the last search wins.
- A product whose id is the empty string cannot be updated: `product && formData.id` fails, so
  saving adds a copy instead (`ProductForm.SaveWithEmptyIdAdds`).
- A negative stock shows as "Low Stock" (`ProductDetail.tsx:35-39`). Only the form rejects negative stock.
- Text that does not parse in the stock box becomes 0, which the stock rule accepts (`ProductForm.UnparsedNumbers`).
- `categories[0]` of an empty category list is `undefined`. It is modelled as `""`, which the category rule rejects.

## Model

| member | source | states |
|---|---|---|
| SeedFacts.SeedIdsAreNumerals | src/data/mockData.ts:20-45 | there are 24 seed products and product `i` has id `i + 1` written in decimal |
| SeedFacts.SeedIdsUnique | src/data/mockData.ts:21-44 | the seed ids are pairwise distinct, because distinct numbers have distinct numerals |
| SeedFacts.SeedCategoriesKnown | src/data/mockData.ts:10-44 | `categories` has no duplicates and every seed product's category is in it |
| SeedFacts.SeedProductsValid | src/data/mockData.ts:21-44 | every seed product passes all four product-form rules |
| SeedFacts.SeedAllInStock | src/data/mockData.ts:21-44 | every seed product has stock above 0 |
| SeedFacts.SeedElectronics | src/data/mockData.ts:21-44 | ticking "Electronics" shows ids 1, 2, 3, 17, 24, with or without "in stock only" |
| SeedFacts.SeedStats | src/data/mockData.ts:21-44 | on the seed: 24 products, 5 low on stock (ids 1, 7, 11, 14, 19), none out of stock |
| SearchBar.SearchFor99KeepsAll | src/components/SearchBar.tsx:23-27 | when every price is non-negative and ends in 99 cents, the search for "99" keeps every product, in order |
| SeedFacts.SeedSearch99 | src/components/SearchBar.tsx:23-27 | every seed price ends in .99, so searching "99" shows the whole seed list |
| ProductContext.Ids | src/components/ProductTable.tsx:80-86 | the page's id list has one entry per product, in order |
| ProductContext.IdsMembers | src/components/ProductTable.tsx:80-86 | an id is listed iff some product carries it |
| ProductContext.CategoryData | src/context/ProductContext.tsx:28-34 | one entry per category, in order, whose count is the number of products filed under exactly that name |
| ProductContext.CategoryDataPartitions | src/context/ProductContext.tsx:28-34 | with distinct names, the counts add up to the number of products in any listed category, so no product is counted twice |
| ProductContext.CategoryDataCountsEveryProduct | src/context/ProductContext.tsx:28-34 | when every product's category is listed, the counts add up to the product count |
| ProductContext.AddProduct | src/context/ProductContext.tsx:37-43 | one more product; earlier products unchanged and in order; the last one has the fields and the new id; a fresh id keeps ids unique |
| ProductContext.Replace | src/context/ProductContext.tsx:49-52 | each element whose id matches becomes the argument, every other is unchanged |
| ProductContext.UpdateProduct | src/context/ProductContext.tsx:48-52 | same length; matching ids replaced, others unchanged; an unknown id changes nothing; the id list is unchanged |
| ProductContext.UpdateIdempotent | src/context/ProductContext.tsx:48-52 | updating twice with the same record equals updating once |
| ProductContext.UpdateKeepsIdsUnique | src/context/ProductContext.tsx:48-52 | updating preserves unique ids |
| ProductContext.DeleteProducts | src/context/ProductContext.tsx:58-62 | no listed id survives, every unlisted product survives, and the whole selection is emptied |
| ProductContext.DeleteKeepsOrder | src/context/ProductContext.tsx:59 | the result is an order-preserving subsequence holding exactly the products whose id is not listed |
| ProductContext.DeleteIdempotent | src/context/ProductContext.tsx:59 | deleting the same ids twice equals deleting them once |
| ProductContext.DeleteKeepsIdsUnique | src/context/ProductContext.tsx:59 | deleting preserves unique ids |
| FilterPanel.ApplyFilters | src/components/FilterPanel.tsx:21-35 | no longer than the input; every kept product has a ticked category (if any is ticked) and stock (if the switch is on); with no filters, every product |
| FilterPanel.ApplyFiltersIsOneFilter | src/components/FilterPanel.tsx:25-32 | the two passes equal one filter by the conjunction of the active predicates |
| FilterPanel.ApplyFiltersExact | src/components/FilterPanel.tsx:22-34 | an order-preserving subsequence, a sub-multiset, and a product is kept iff it is in the input and meets both active predicates |
| FilterPanel.ApplyFiltersIdempotent | src/components/FilterPanel.tsx:25-32 | filtering the filtered list again changes nothing |
| FilterPanel.ToggleCategory | src/components/FilterPanel.tsx:38-46 | the category becomes ticked iff it was not; every other category keeps its state; no duplicates are created |
| FilterPanel.ToggleTwiceRestores | src/components/FilterPanel.tsx:38-46 | toggling twice restores which categories are ticked |
| FilterPanel.ClearFilters | src/components/FilterPanel.tsx:49-52 | no category ticked, switch off, and the filter then shows every product of any list |
| FilterPanel.ClearCategories | src/components/FilterPanel.tsx:88-93 | the category "Clear" link unticks every category and keeps the in-stock switch |
| FilterPanel.ClearCategoriesShowsMore | src/components/FilterPanel.tsx:88-93 | after it, a product is shown iff it passes the stock switch alone, so nothing shown before disappears |
| FilterPanel.CategoryBadge | src/components/FilterPanel.tsx:55-57 | the badge is at most the product count, and 0 iff no product is filed under that category |
| FilterPanel.BadgeMatchesChart | src/components/FilterPanel.tsx:55-57 | a category's badge equals its chart count: the number of products filed under exactly that name |
| SearchBar.NormalizeTerm | src/components/SearchBar.tsx:14 | the term is the lower-cased input with exactly its surrounding whitespace removed: a stretch of it, only whitespace around it, and empty or with non-whitespace ends |
| SearchBar.NormalizedIsLowerCase | src/components/SearchBar.tsx:14 | the normalised term is no longer than the input and has no upper-case ASCII letter |
| SearchBar.Search | src/components/SearchBar.tsx:12-30 | no longer than the products; every result matches the normalised term; a blank term gives every product |
| SearchBar.SearchIsFilter | src/components/SearchBar.tsx:16-27 | the blank-term shortcut agrees with the general filter, so the result is always the filter by the normalised term |
| SearchBar.SearchExact | src/components/SearchBar.tsx:23-27 | an order-preserving subsequence; a product is kept iff its lower-cased name or category, or its price string, contains the term |
| SearchBar.SearchIdempotent | src/components/SearchBar.tsx:23-27 | searching the result again with the same term changes nothing |
| SearchBar.SearchIgnoresCase | src/components/SearchBar.tsx:14 | upper- and lower-cased terms give the same result as the term itself |
| SearchBar.SearchByNameFindsIt | src/components/SearchBar.tsx:24 | typing a product's name finds that product |
| SearchBar.SearchByCategoryFindsIt | src/components/SearchBar.tsx:25 | typing a product's category finds that product |
| SearchBar.HandleSearch | src/components/SearchBar.tsx:10-29 | the shown list is a subsequence of the full product list holding exactly its matching products, whatever was shown before |
| SearchBar.LastSearchWins | src/components/SearchBar.tsx:23 | after a second search the list equals that search's own result from any earlier state |
| SearchBar.HandleClear | src/components/SearchBar.tsx:32-35 | the box is empty and the list is what an empty search shows: every product |
| ProductTable.ProductLeIsTotalPreorder | src/components/ProductTable.tsx:31-43 | each column and direction gives a total, transitive comparator |
| ProductTable.SortProducts | src/components/ProductTable.tsx:31-43 | the sort keeps the row count |
| ProductTable.SortProductsOrdered | src/components/ProductTable.tsx:31-43 | the rows are a permutation of the filtered list; keys never decrease for "asc" and never increase for "desc" |
| ProductTable.SortProductsStable | src/components/ProductTable.tsx:31-43 | rows with equal keys keep their filtered-list order, in both directions |
| ProductTable.ResortSameColumn | src/components/ProductTable.tsx:31 | sorting a sorted copy again by the same column gives the sort of the original list |
| ProductTable.HandleSort | src/components/ProductTable.tsx:57-64 | the clicked column becomes the sort column; the same column flips the direction; a new column starts ascending |
| ProductTable.HandleSortTwice | src/components/ProductTable.tsx:57-64 | two clicks on the current column restore the state; two on a new one leave it descending |
| ProductTable.JsSlice | src/components/ProductTable.tsx:46-49 | a slice is never longer than its list |
| ProductTable.TotalPages | src/components/ProductTable.tsx:28 | the page count is 0 iff there are no rows, and otherwise the least count of 7-row pages holding every row |
| ProductTable.Page | src/components/ProductTable.tsx:46-49 | at most 7 rows; for pages from 1 on, rows `(p-1)*7` to `p*7` clamped to the list; page 0 is empty |
| ProductTable.RowOnItsPage | src/components/ProductTable.tsx:46-49 | row `i` is on page `i/7 + 1` at position `i%7` |
| ProductTable.PageEmptyIffOutOfRange | src/components/ProductTable.tsx:28-49 | a page is empty iff it is 0 or past the page count |
| ProductTable.FirstPagesArePrefix | src/components/ProductTable.tsx:46-49 | pages 1 to k together are the first `7k` rows |
| ProductTable.PagesCoverAll | src/components/ProductTable.tsx:28-49 | pages 1 to the page count together are exactly the sorted rows |
| ProductTable.CurrentProducts | src/components/ProductTable.tsx:31-49 | the visible rows are at most 7 |
| ProductTable.NoRowsIffNoProducts | src/components/ProductTable.tsx:46-49 | on a page in range, no rows are shown iff the filtered list is empty |
| ProductTable.PreviousClick | src/components/ProductTable.tsx:231-232 | the page is never below 1; above page 1 it goes one page back; on page 1 (or below) it lands on 1 |
| ProductTable.NextClick | src/components/ProductTable.tsx:239-240 | with no pages nothing changes; before the last page it goes one page on; on or past the last page it lands on the last |
| ProductTable.NavigationKeepsPageInRange | src/components/ProductTable.tsx:231-240 | both buttons keep an in-range page in range |
| ProductTable.NextThenPrevious | src/components/ProductTable.tsx:231-240 | Next then Previous returns to the page when Next was enabled |
| ProductTable.PreviousThenNext | src/components/ProductTable.tsx:231-240 | Previous then Next returns to the page when Previous was enabled |
| ProductTable.ResetPage | src/components/ProductTable.tsx:52-54 | a new filtered list puts the table back on page 1, which is in range, keeping the sort |
| ProductTable.SelectRow | src/components/ProductTable.tsx:67-75 | the clicked row's checkbox flips; every row with another id keeps its state; no duplicate ids enter the selection |
| ProductTable.SelectRowTwice | src/components/ProductTable.tsx:67-75 | clicking a row twice restores the selection's contents |
| ProductTable.SelectAll | src/components/ProductTable.tsx:78-89 | checking selects exactly the old selection plus the page; unchecking exactly the old selection minus the page; off-page ids keep their order |
| ProductTable.SelectAllNoDuplicates | src/components/ProductTable.tsx:78-89 | both directions keep the selection duplicate-free, and checking puts the page's ids at the end once each |
| ProductTable.AreAllSelected | src/components/ProductTable.tsx:92-93 | the header box is ticked iff the page has rows and every id on the page is selected |
| ProductTable.ClearSelection | src/components/ProductTable.tsx:325-330 | "Clear Selection" keeps the products and leaves no row checked |
| ProductTable.SelectAllTicksHeader | src/components/ProductTable.tsx:92-93 | on a non-empty page, checking ticks the header box and unchecking clears it |
| ProductTable.HandleDeleteConfirm | src/components/ProductTable.tsx:96-102 | a pending non-empty id is deleted and the dialog closes; otherwise nothing changes |
| ProductTable.HandleBatchDeleteConfirm | src/components/ProductTable.tsx:105-110 | a non-empty selection is deleted, which empties it, and the dialog closes; otherwise nothing changes |
| ProductTable.ShowsLowStockBell | src/components/ProductTable.tsx:183 | the bell marks exactly the products the low-stock card counts, and exactly those whose detail sheet does not say "In Stock" |
| StatsCards.InventoryValue | src/components/StatsCards.tsx:10-13 | a list whose stocks are all 0 is worth 0; a single product is worth its price times its stock |
| StatsCards.InventoryValueAppend | src/components/StatsCards.tsx:10-13 | the value of a concatenation is the sum of the values |
| StatsCards.InventoryValueFirst | src/components/StatsCards.tsx:10-13 | the left fold equals the sum taken from the first product |
| StatsCards.InventoryValueNonNegative | src/components/StatsCards.tsx:10-13 | with no negative prices or stocks the value is not negative |
| StatsCards.ComputeStats | src/components/StatsCards.tsx:10-22 | the product count is the length, and out-of-stock ≤ low-stock ≤ product count |
| StatsCards.CountsAreExact | src/components/StatsCards.tsx:16-19 | low stock is exactly stock below 10, including 0; out of stock is exactly stock 0 |
| StatsCards.AddEmptyProductStats | src/components/StatsCards.tsx:10-22 | adding a product with no stock adds one to each count and leaves the value unchanged |
| StatsCards.DeleteLowersCounts | src/components/StatsCards.tsx:16-19 | deleting never raises either count |
| ProductDetail.FindProduct | src/components/ProductDetail.tsx:23 | nothing is found iff no product has the id; a found product has that id and no earlier product does |
| ProductDetail.FindProductUnique | src/components/ProductDetail.tsx:23 | with unique ids the lookup returns the one product with the id |
| ProductDetail.StatusOf | src/components/ProductDetail.tsx:35-39 | out of stock iff stock is 0; low iff non-zero and below 10; in stock iff 10 or more |
| ProductDetail.LabelAndClassDetermineStatus | src/components/ProductDetail.tsx:35-45 | label and colour class each match the status one to one |
| ProductDetail.StatusesAgreeWithCards | src/components/ProductDetail.tsx:35-39 | the sheets shown as out of stock are the out-of-stock card's count, and out-of-stock plus low are the low-stock card's count |
| ProductDetail.Prefix | src/components/ProductDetail.tsx:63 | `substring(0, n)` gives the first min(n, length) characters |
| ProductDetail.Sku | src/components/ProductDetail.tsx:96 | "SKU-" followed by the upper-cased first min(6, length) characters of the id |
| ProductDetail.SkuHasNoLowerCase | src/components/ProductDetail.tsx:96 | the SKU has no lower-case ASCII letter |
| ProductDetail.SkuIgnoresCase | src/components/ProductDetail.tsx:96 | ids differing only in letter case share the SKU |
| ProductDetail.SkuExtendsShortId | src/components/ProductDetail.tsx:63-96 | the SKU's code is the upper-cased start of the shortened id |
| ProductDetail.DetailView | src/components/ProductDetail.tsx:23-96 | nothing for an unknown id; otherwise the name, category, price and stock of the first product with that id, its 8-character short id and SKU, agreeing label, colour and status, and a stock value of price times stock |
| ProductDetail.StockValuesSumToInventoryValue | src/components/ProductDetail.tsx:91 | the stock values of all products add up to the inventory value card |
| ProductForm.ValidateForm | src/components/ProductForm.tsx:47-62 | an error for each field iff its rule fails (blank name, empty category, price ≤ 0, stock negative or fractional), each with its message |
| ProductForm.ValidateAgreesWithValidProduct | src/components/ProductForm.tsx:47-62 | a stored product's values pass iff the product is valid |
| ProductForm.OpenForm | src/components/ProductForm.tsx:27-45 | opening clears the errors and loads the edited product, or a blank form on the first category |
| ProductForm.BlankFormRejected | src/components/ProductForm.tsx:37-60 | a blank form fails the name and price rules but not the stock rule |
| ProductForm.HandleSubmit | src/components/ProductForm.tsx:64-89 | with errors: stored, nothing dispatched, dialog open; otherwise closed; an update carries the same non-empty id and the fields; an add carries the fields and makes a valid product |
| ProductForm.SaveUnchangedIsNoOp | src/components/ProductForm.tsx:72-79 | saving a valid product unchanged leaves the list as it was |
| ProductForm.SaveWithEmptyIdAdds | src/components/ProductForm.tsx:72-87 | a product with an empty id is added again instead of updated |
| ProductForm.ApplyEdit | src/components/ProductForm.tsx:91-126 | the edited field takes the typed text, the chosen category or the parsed number (0 when unparsed); no other field changes; only its error can disappear, and only a non-empty one |
| ProductForm.EditClearsOnlyItsError | src/components/ProductForm.tsx:105-125 | after a rejected submit an edit leaves exactly the other broken rules' errors |
| ProductForm.UnparsedNumbers | src/components/ProductForm.tsx:97-100 | unparsable price text becomes 0 and is rejected; unparsable stock text becomes 0 and is accepted |
| CategoryForm.HandleSubmit | src/components/CategoryForm.tsx:18-27 | a blank name sets the error and neither adds nor closes; otherwise the trimmed name is added, the input emptied and the dialog closed |
| CategoryForm.AddedNameIsTrimmed | src/components/CategoryForm.tsx:24 | the added name is non-blank, its own trim, and the typed text without surrounding whitespace |
| CategoryForm.WhitespaceNameRejected | src/components/CategoryForm.tsx:20-23 | a whitespace-only name is rejected with "Category name is required" |
| CategoryForm.TypeName | src/components/CategoryForm.tsx:41-44 | typing stores the text and leaves no error |
| CategoryForm.TypingClearsRejection | src/components/CategoryForm.tsx:41-44 | a rejection shows an error, and typing afterwards clears it |
| CategoryForm.HandleSubmitAsWritten | src/components/CategoryForm.tsx:14-27 | against a context without `addCategory`: a visible name throws and leaves the state as it was; nothing is ever added or closed |
| CategoryForm.AsWrittenLosesTheCategory | src/components/CategoryForm.tsx:24-26 | for " Garden " the intended submit adds "Garden" and closes, while the code as written throws |
| CategoryChart.ByCountDescendingIsTotalPreorder | src/components/CategoryChart.tsx:16 | the count comparator is a total preorder |
| CategoryChart.SortedData | src/components/CategoryChart.tsx:16 | the bars are as many as the entries |
| CategoryChart.SortedDataOrdered | src/components/CategoryChart.tsx:16 | the bars are a permutation of the chart data with counts never increasing |
| CategoryChart.SortedDataStable | src/components/CategoryChart.tsx:16 | categories with equal counts keep their chart-data order |
| CategoryChart.SortedDataIdempotent | src/components/CategoryChart.tsx:16 | sorting the bars again changes nothing |
| CategoryChart.ChartBarsCountProducts | src/components/CategoryChart.tsx:16 | every bar is a known category showing its product count |
| Sorting.SortByPermutes | src/components/ProductTable.tsx:31 | sorting a copy yields a permutation of it |
| Sorting.SortBySorted | src/components/ProductTable.tsx:31 | the copy is sorted for any total preorder |
| Sorting.SortByStable | src/components/ProductTable.tsx:31 | equivalent elements keep their order (`Array.prototype.sort` is stable) |
| Sorting.SortedUnique | src/components/ProductTable.tsx:31 | two sorted lists with the same equivalence classes in the same order are equal |
| Collections.Toggle | src/components/ProductTable.tsx:67-75 | the `includes ? filter : append` toggle flips one member, keeps the rest, creates no duplicates |
| Text.Trim | src/components/CategoryForm.tsx:20 | the trim is the text without surrounding whitespace and has non-whitespace ends |
| Text.TrimIdempotent | src/components/CategoryForm.tsx:24 | trimming twice is trimming once |
| Text.BlankIffAllWhitespace | src/components/ProductForm.tsx:49 | `!s.trim()` holds iff every character is whitespace |
| Text.ContainsIffOccurs | src/components/SearchBar.tsx:24-26 | `includes` holds iff the term occurs at some offset |
| Text.DigitsRoundTrip | src/data/mockData.ts:21-44 | a decimal numeral reads back as its number |
| Text.PriceString | src/components/SearchBar.tsx:26 | a price's text is never empty and starts with a minus exactly when the price is negative, with no other minus |
| Text.PriceRoundTrip | src/components/SearchBar.tsx:26 | reading a price's text back as a decimal gives the price, so distinct prices render differently |
| Text.PriceEndingIn99 | src/components/SearchBar.tsx:26 | the string of a price ending in 99 cents contains "99" |

## Left out

- React scheduling, context plumbing (the `useProducts` guard), opening dialogs, JSX layout and
  styling are not modelled. Only whether a submit or a confirmation closes its dialog is. Each effect and handler is a pure function of the state it reads.
- The unreachable `<Dialog>` block in `ProductTable.tsx:296-309` is not modelled.
- Random id generation in `addProduct` (`ProductContext.tsx:40`): the id is a parameter.
- Toast notifications are not modelled: they only display text.
- Floating-point prices, `toFixed(2)` and the `$` display of values are not modelled. Prices are exact cents.
- `parseFloat`/`parseInt` in `handleChange` are not modelled as text parsers. An edit carries the parsed
  number, or none for text that is not a number, and `|| 0` is modelled exactly.
- `Text.PriceString` always writes plain decimal notation. The exponent notation JavaScript uses for
  numbers of 10^21 and above is not modelled.
- Locale-aware `localeCompare` and full Unicode case mapping are not modelled. Code-point order and
  ASCII case mapping stand in for them.
- `new Date().toLocaleDateString` on the detail sheet (`ProductDetail.tsx:27-33`) is not modelled: it reads the clock.
- Chart rendering and colours (`CategoryChart.tsx` beyond line 16) are not modelled. Only the sorted data is.
- `addCategory` does not exist in the context. The intended submit records the name it would receive;
  what a category list would do with it is not modelled.
- Sorting by the `id` column is not modelled: no header offers it.
- Strings are sequences of Unicode scalar values, not UTF-16 code units. So `length`, `substring`,
  `includes` and the string order differ from JavaScript's on characters above U+FFFF: the model counts
  such a character once, never matches half of it, and orders it above U+FFFF.
- The search box, the stats cards, the detail sheet and the add-category form are not mounted by
  `Dashboard.tsx` or `pages/Index.tsx`. Each is modelled on its own.
- `SeedFacts.SeedStats` does not state the exact inventory value of the seed. Evaluating the fold over
  24 literal products is too costly for the verifier; the value's properties are proved in general instead.
- The seed's per-category chart counts are not evaluated, for the same cost reason. Only the
  "Electronics" filter and the low-stock list are evaluated on the seed.

## Findings

| source | as written | input that shows it | evidently intended | confidence | as-written member | corrected member |
|---|---|---|---|---|---|---|
| src/components/CategoryForm.tsx:14-26 | `addCategory` is read from the context, whose value (`ProductContext.tsx:6-17,66-77`) has no such member, so the call at line 24 throws a TypeError before the input is reset and the dialog closed | category name " Garden " | the trimmed name is added, the input emptied and the dialog closed | high (not executed); latent, since no page mounts the form | CategoryForm.HandleSubmitAsWritten, CategoryForm.AsWrittenLosesTheCategory | CategoryForm.HandleSubmit, CategoryForm.AddedNameIsTrimmed |
