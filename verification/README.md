# Optimized-cart pricing engine of the shopping-list comparator

This project models the pricing core of a shopping-list web application that compares three supermarkets (Iquegami, Proença and Max). Each list item has a quantity, a category and one unit price per market. A price of 0 is the sentinel for "no price entered", and a genuine price is strictly positive.

From the list, the application derives:
- one total per market;
- the **optimized total**, where every item is bought at its cheapest positive price;
- the cheapest market and a savings banner;
- an **analysis**: which market each item should be bought at (with its tie-break), category buckets, the market distribution, global totals and savings, and percentages;
- a ranked category chart built from the analysis.

The same "cheapest positive price" rule also drives the list rows, the saved-list detail view and the legacy list rows. The model defines that rule once (`Pricing.CheapestPrice`) and proves that every view agrees with it.

Around the engine sit the list edits, the record-edit handlers and the form validators. They turn raw field texts into items, products or error messages.

Modules, one per source unit:

| module | file | models |
|---|---|---|
| `Wrappers` | wrappers.dfy | `Option` and `Result` |
| `Catalog` | catalog.dfy | markets, units, categories, and the default key order (src/constants.ts) |
| `Model` | model.dfy | the records of src/types.ts and types.ts |
| `Inputs` | inputs.dfy | number-field text, `parseFloat`, `x \|\| d` and `trim` |
| `Pricing` | pricing.dfy | the cheapest-positive-price rule |
| `Cart` | cart.dfy | list edits and totals (App.tsx) |
| `TotalsPanel` | totals_panel.dfy | cheapest market, highest total and savings (components/Totals.tsx) |
| `Analysis` | analysis.dfy | src/components/AnalysisSection.tsx |
| `CategoryChart` | category_chart.dfy | src/components/CategoryDistributionChart.tsx |
| `ListItem` | list_item.dfy | src/components/ShoppingListItem.tsx |
| `LegacyListItem` | legacy_list_item.dfy | components/ShoppingListItem.tsx |
| `ListDetails` | list_details.dfy | src/components/ListDetailsModal.tsx |
| `AddItemForm` | add_item_form.dfy | src/components/AddItemForm.tsx |
| `LegacyAddItemForm` | legacy_add_item_form.dfy | components/AddItemForm.tsx |
| `ProductForm` | product_form.dfy | src/components/ProductFormModal.tsx |
| `ProductRegistration` | product_registration.dfy | src/pages/ProductRegistrationPage.tsx |
| `ProductCatalog` | product_catalog.dfy | src/pages/ProductCatalogPage.tsx |

Modelling choices:
- **Numbers.** Numbers are exact `real`s.
- **`parseFloat`.** Its result is an `Option<real>`, where `None` stands for NaN. A number field's text is `Empty` or `Typed(parsed)`, so the blank field's NaN is visible in the types.
- **Price-key order.** The order in which a price record's keys are enumerated is an explicit parameter of the analysis (`order`, any permutation of the three markets). Prices typed into a form enumerate as `SUPERMARKETS`, but prices reloaded from the database need not. The totals panel iterates the `SUPERMARKETS` constant, so its order is fixed.
- **Category table.** The analysis's category table is an association list in first-seen order, which is how a JavaScript object with string keys enumerates.
- **Chart sort.** The chart's descending sort is stable (ECMAScript 2019 and later). It is modelled as a stable insertion sort.

## Model

| member | source | states |
|---|---|---|
| Catalog.SupermarketsOrder | src/constants.ts:4-8 | the market table lists exactly the three markets, each once, in the order iquegami, proenca, max, which is the default tie-break order |
| Catalog.UnitLabel | src/constants.ts:10-17 | the label of a unit is the one the unit table pairs with it |
| Catalog.UnitsOneRowPerUnit | src/constants.ts:10-17 | the unit table has six rows, and every unit appears in exactly one of them |
| Catalog.CategoriesFacts | src/constants.ts:19-30 | the category list has 10 pairwise-distinct entries; the form default (first entry) is "Alimentos Básicos"; the analysis fallback "Outros" is in the list |
| Inputs.ParseFloat | src/components/AddItemForm.tsx:153 | a blank field reads as NaN |
| Inputs.OrZero | src/components/AddItemForm.tsx:99-101 | `parseFloat(text) \|\| 0` keeps every number and turns NaN into 0 |
| Inputs.Trim | src/components/AddItemForm.tsx:82 | the trimmed text neither starts nor ends with white space |
| Inputs.TrimRemovesOnlyWhiteSpace | src/components/ProductFormModal.tsx:58-59 | the trimmed text is the slice of the input that starts right after its leading white space, and everything cut off before and after that slice is white space |
| Inputs.BlankIffAllWhiteSpace | src/components/AddItemForm.tsx:82 | `!name.trim()` holds exactly when every character of the name is white space |
| Inputs.TrimKeepsInner | src/components/ProductFormModal.tsx:58-59 | trimming leaves a text with no white space at either end unchanged |
| Pricing.ValidPrices | App.tsx:48 | the filtered price list holds only positive prices of the item, holds every positive price, and is empty exactly when no price is positive |
| Pricing.CheapestPrice | App.tsx:48-49 | the result is positive, is one of the item's prices and is at most every positive price; it is 0 exactly when no price is positive |
| Pricing.CheapestPriceUnique | src/components/ShoppingListItem.tsx:60-63 | any value meeting the cheapest-price characterisation is the cheapest price, so every view computing min-of-positives gets the same number |
| Cart.AddItem | App.tsx:16-18 | exactly one item is appended at the end; all earlier items are kept in order; the new item is the draft with the given id |
| Cart.RemoveItem | App.tsx:20-22 | the result holds exactly the items whose id differs; its length drops by the number of items with that id |
| Cart.RemoveKeepsOrder | App.tsx:20-22 | removal works item by item, so the kept items stay in their order |
| Cart.RemoveUnknownId | App.tsx:20-22 | removing an id that no item carries leaves the list unchanged |
| Cart.RemoveUndoesAdd | App.tsx:16-22 | removing the fresh id of an added item gives back the list as it was |
| Cart.UpdateItem | App.tsx:24-26 | the length is preserved; every item with the updated id is replaced; every other item is unchanged |
| Cart.UpdateTouchesOnlyItsId | App.tsx:24-26 | after removing the updated id, the list is the same whether or not the update happened |
| Cart.UpdateIdempotent | App.tsx:24-26 | applying an update twice is the same as applying it once |
| Cart.ClearList | App.tsx:28-32 | once confirmed the list is empty; if declined it is unchanged |
| Cart.CartTotals | App.tsx:34-54 | each market total is that market's running sum and the optimized total is the running sum of cheapest-price costs |
| Cart.EmptyCartTotals | App.tsx:35-38 | an empty list gives 0 for every market and 0 optimized |
| Cart.MarketTotalAppend | App.tsx:40-45 | a market total is additive over concatenated lists |
| Cart.OptimizedTotalAppend | App.tsx:47-51 | the optimized total is additive over concatenated lists |
| Cart.SingleItemTotals | App.tsx:40-51 | one item contributes price × quantity to a market total and cheapest price × quantity to the optimized total |
| Cart.UnpricedAddsNothing | App.tsx:41-43 | an item with the sentinel price 0 at a market leaves that market's total unchanged |
| Cart.UnpricedAddsNothingOptimized | App.tsx:48-50 | an item with no positive price leaves the optimized total unchanged |
| Cart.OptimizedCostAtMost | App.tsx:49-50 | with a non-negative quantity, an item's optimized cost is at most its cost at any market where it has a genuine price |
| Cart.OptimizedAtMostMarket | App.tsx:40-51 | at a market where every item has a positive price, the optimized total is at most that market's total |
| Cart.OptimizedTotalNonNegative | App.tsx:47-51 | with non-negative quantities the optimized total is never negative |
| TotalsPanel.Scan | components/Totals.tsx:15-32 | no market is chosen exactly when no total is positive; the highest total is ≥ 0, ≥ every total, and is 0 or one of the totals |
| TotalsPanel.ScanFindsFirstCheapest | components/Totals.tsx:20-25 | the chosen market's total is the recorded minimum; it is positive and ≤ every positive total; every earlier market is unpriced or strictly dearer |
| TotalsPanel.HighlightIsCheapestMarket | components/Totals.tsx:22 | over the three markets in table order, the highlighted market has the least positive total, the earliest wins a tie, and none is highlighted exactly when no total is positive |
| TotalsPanel.HighestIsLargestTotal | components/Totals.tsx:18 | the highest market total is ≥ 0, ≥ every market total, and is either 0 or one of the totals |
| TotalsPanel.PanelSavings | components/Totals.tsx:34-39 | the savings are highest minus optimized when both are positive, and 0 otherwise |
| TotalsPanel.PanelSavingsNonNegative | components/Totals.tsx:34-39 | when some market prices every item and quantities are non-negative, the savings are not negative |
| TotalsPanel.DisjointPairTotals | components/Totals.tsx:7 | two single-unit items priced 10 at Iquegami only and at Proenca only give market totals 10, 10, 0 and an optimized total of 20 |
| TotalsPanel.TiedSelection | components/Totals.tsx:20-29 | with Iquegami and Proenca tied at 10 and Max at 0, the scan highlights Iquegami, records 10 as the minimum, and takes 10 as the highest total |
| TotalsPanel.PartialPricesNegativeSavings | components/Totals.tsx:70 | two items priced at disjoint markets give savings of −10: the banner stays hidden and the highlighted market prices only one of them |
| Analysis.Choose | src/components/AnalysisSection.tsx:30-37 | with no positive price the item is skipped; otherwise min is the first least positive price and max the first greatest, in enumeration order |
| Analysis.AnyPositiveIffValid | src/components/AnalysisSection.tsx:34 | under any enumeration order an item is skipped exactly when it has no positive price |
| Analysis.ChosenMarketIsFirstCheapest | src/components/AnalysisSection.tsx:36 | the chosen market's price is positive and ≤ every positive price; every market enumerated earlier is unpriced or strictly dearer |
| Analysis.TieGoesToFirstMarket | src/components/AnalysisSection.tsx:36 | on equal Iquegami and Proença minima in the default order, Iquegami is chosen |
| Analysis.TieDependsOnKeyOrder | src/components/AnalysisSection.tsx:36 | the same tied prices enumerated as max, proenca, iquegami choose Proença: the winner depends on key order |
| Analysis.ChosenPriceIsCheapestPrice | src/components/AnalysisSection.tsx:36-40 | the chosen minimum price equals the cheapest price used by the cart total, whatever the order |
| Analysis.MinAtMostMax | src/components/AnalysisSection.tsx:36-37 | the chosen minimum price is positive and at most the chosen maximum |
| Analysis.CategoryKey | src/components/AnalysisSection.tsx:44 | an empty category is bucketed as "Outros"; any other category is its own bucket |
| Analysis.AddToBucket | src/components/AnalysisSection.tsx:45-49 | the bucket of the key gains the costs (created at zero if new); other buckets are unchanged; keys stay distinct; the bucket sums grow by exactly the costs |
| Analysis.TallyItems | src/components/AnalysisSection.tsx:28-58 | the loop over the items keeps at most one bucket per category |
| Analysis.PricedOnly | src/components/AnalysisSection.tsx:34 | the kept items all have a positive price and are no more than the list |
| Analysis.PricedOnlyMembers | src/components/AnalysisSection.tsx:34 | an item is kept exactly when it is in the list and has a positive price |
| Analysis.UnpricedItemSkipped | src/components/AnalysisSection.tsx:34 | an item without a positive price leaves every bucket, market statistic and total unchanged |
| Analysis.TallyIgnoresUnpriced | src/components/AnalysisSection.tsx:28-34 | the loop's result over the list equals its result over the priced items only |
| Analysis.AnalysisIgnoresUnpriced | src/components/AnalysisSection.tsx:16-63 | the whole analysis ignores items without a positive price |
| Analysis.DistributionSplitsOptimized | src/components/AnalysisSection.tsx:52-57 | the market costs add up to totalOptimized, and the market counts add up to the number of priced items |
| Analysis.CategoriesSplitTotals | src/components/AnalysisSection.tsx:48-57 | summed over the buckets, optimized equals totalOptimized and highest equals totalHighest |
| Analysis.BucketIsCategorySum | src/components/AnalysisSection.tsx:44-49 | each bucket holds the sum of the optimized and highest costs of exactly the priced items in its category |
| Analysis.BucketExistsIffInCategory | src/components/AnalysisSection.tsx:45-47 | a bucket exists exactly when some priced item falls in it |
| Analysis.EmptyCategoryGoesToFallback | src/components/AnalysisSection.tsx:44 | a priced item with an empty category creates or feeds the "Outros" bucket |
| Analysis.TotalOptimizedIsCartOptimized | src/components/AnalysisSection.tsx:40 | the analysis's totalOptimized equals the optimized total of the cart panel for the same list, whatever the enumeration order |
| Analysis.CostsOrdered | src/components/AnalysisSection.tsx:40-41 | with a non-negative quantity, 0 ≤ optimized cost ≤ highest cost |
| Analysis.AddToBucketKeepsOrdered | src/components/AnalysisSection.tsx:48-49 | adding an ordered cost pair keeps every bucket's 0 ≤ optimized ≤ highest |
| Analysis.BucketsStayOrdered | src/components/AnalysisSection.tsx:43-49 | with non-negative quantities every bucket has 0 ≤ optimized ≤ highest |
| Analysis.TotalsStayOrdered | src/components/AnalysisSection.tsx:51-57 | with non-negative quantities the market costs are non-negative and 0 ≤ totalOptimized ≤ totalHighest |
| Analysis.AnalysisOrdered | src/components/AnalysisSection.tsx:60 | with non-negative quantities the buckets and totals are ordered and totalSavings ≥ 0 |
| Analysis.OneLevelIffEqualPrices | src/components/AnalysisSection.tsx:36-37 | an item's chosen min equals its chosen max exactly when all its positive prices are equal |
| Analysis.ItemSavingsZeroIff | src/components/AnalysisSection.tsx:40-41 | with a positive quantity an item's savings are ≥ 0, and 0 exactly when all its positive prices are equal |
| Analysis.TallySavings | src/components/AnalysisSection.tsx:56-57 | the running highest minus optimized grows by each item's savings |
| Analysis.TallySavingsZeroIff | src/components/AnalysisSection.tsx:56-60 | with positive quantities the loop's savings are 0 exactly when every item has a single price level |
| Analysis.NoSavingsIffOneLevel | src/components/AnalysisSection.tsx:60 | with positive quantities totalSavings is 0 exactly when every priced item's positive prices are all equal |
| Analysis.MarketPercentage | src/components/AnalysisSection.tsx:111 | the percentage is 0 when totalOptimized is not positive; otherwise it is cost/total × 100; it is in [0,100] for a cost between 0 and the total |
| Analysis.PercentagesOfParts | src/components/AnalysisSection.tsx:111 | three costs that add up to a positive total have percentages that add up to 100 |
| Analysis.MarketBarsSplitHundred | src/components/AnalysisSection.tsx:109-111 | every market bar is in [0,100], and when totalOptimized is positive the three bars add up to 100 |
| Analysis.SavingsPercentage | src/components/AnalysisSection.tsx:145-146 | the savings percentage is 0 when highest is not positive; otherwise it is savings/highest × 100; it is in [0,100] when 0 ≤ optimized ≤ highest |
| Analysis.ListedCategories | src/components/AnalysisSection.tsx:141-143 | a category is listed exactly when it is in the category list and has a bucket with non-zero optimized cost; the order follows the category list, with no repeats |
| Analysis.RowOf | src/components/AnalysisSection.tsx:145-146 | a breakdown row's optimized plus savings equals its highest; its percentage is the savings percentage of its bucket |
| Analysis.BreakdownRows | src/components/AnalysisSection.tsx:141-146 | there is one row per listed category, in order, each carrying its bucket's totals and savings |
| Analysis.CategoryBreakdown | src/components/AnalysisSection.tsx:141-146 | every row is a listed entry of the category list |
| Analysis.LookupOrdered | src/components/AnalysisSection.tsx:142 | a bucket of an ordered table has 0 ≤ optimized ≤ highest |
| Analysis.BreakdownRowsBounded | src/components/AnalysisSection.tsx:141-146 | with non-negative quantities each row has 0 < optimized ≤ highest, non-negative savings, and a percentage in [0,100] |
| Analysis.BreakdownListsSpentCategories | src/components/AnalysisSection.tsx:141-143 | an entry of the category list is in the breakdown exactly when some priced item falls in it and its optimized sum is non-zero |
| CategoryChart.Percentage | src/components/CategoryDistributionChart.tsx:28 | the percentage is part/whole × 100, and lies in (0,100] for a positive part that does not exceed the whole |
| CategoryChart.Bars | src/components/CategoryDistributionChart.tsx:23-36 | there is one bar per listed category in category-list order, carrying its bucket's optimized cost and its share of the total |
| CategoryChart.Insert | src/components/CategoryDistributionChart.tsx:37 | insertion adds exactly one copy of the bar (as a multiset) and keeps every other bar |
| CategoryChart.InsertKeepsRanked | src/components/CategoryDistributionChart.tsx:37 | inserting a bar that comes earlier in the category list than every ranked bar keeps the bars ranked |
| CategoryChart.SortByCost | src/components/CategoryDistributionChart.tsx:37 | the sort is a permutation: the same multiset of bars |
| CategoryChart.SortRanks | src/components/CategoryDistributionChart.tsx:37 | bars in category-list order come out by cost, non-increasing, with equal costs kept in category-list order (stable sort) |
| CategoryChart.RankedDistinct | src/components/CategoryDistributionChart.tsx:37 | ranked bars never repeat |
| CategoryChart.BarsByRank | src/components/CategoryDistributionChart.tsx:23-36 | the unsorted bars come in strictly increasing category-list order |
| CategoryChart.ChartData | src/components/CategoryDistributionChart.tsx:20-38 | empty when totalOptimized is 0; otherwise a permutation of the listed bars, ranked by cost with ties in category-list order |
| CategoryChart.RankedIsSortedByCost | src/components/CategoryDistributionChart.tsx:37 | in ranked bars the optimized costs are non-increasing |
| CategoryChart.ChartShowsListedCategories | src/components/CategoryDistributionChart.tsx:23-26 | a category has a bar exactly when it is a category-list entry with a non-zero bucket, so no other category appears |
| CategoryChart.BarCost | src/components/CategoryDistributionChart.tsx:25-32 | every bar carries the optimized cost of its category's bucket |
| CategoryChart.ChartCategoriesDistinct | src/components/CategoryDistributionChart.tsx:23-37 | no category has two bars |
| CategoryChart.BarBounded | src/components/CategoryDistributionChart.tsx:28 | with ordered buckets summing to the total, each bar's cost is positive and its percentage lies in (0,100] |
| CategoryChart.ChartSharesBounded | src/components/CategoryDistributionChart.tsx:28 | for any list with non-negative quantities, every bar of the chart has a positive cost and a percentage in (0,100] |
| CategoryChart.InsertSums | src/components/CategoryDistributionChart.tsx:37 | inserting a bar adds exactly its cost and its percentage to the sums |
| CategoryChart.SortSums | src/components/CategoryDistributionChart.tsx:37 | sorting leaves the sum of costs and the sum of percentages unchanged |
| CategoryChart.PercentagesScale | src/components/CategoryDistributionChart.tsx:28 | when each percentage is its bar's share of the total, the percentages sum to the share of the summed cost |
| CategoryChart.BarsByLookup | src/components/CategoryDistributionChart.tsx:23-27 | the bars depend on the table only through the lookups of the charted categories |
| CategoryChart.BarsCostAtMostSum | src/components/CategoryDistributionChart.tsx:23-36 | bars of distinct categories over a table with distinct keys and ordered buckets cost together at most the table's optimized sum |
| CategoryChart.SharesAtMostHundred | src/components/CategoryDistributionChart.tsx:28 | shares of a positive total whose costs add up to at most the total add up to at most 100 |
| CategoryChart.ChartSumsBounded | src/components/CategoryDistributionChart.tsx:20-38 | over a table with distinct keys and ordered buckets summing to the total, the chart's costs sum to at most the total and its percentages to at most 100 |
| CategoryChart.ChartSharesSumAtMostHundred | src/components/CategoryDistributionChart.tsx:28 | for a list with non-negative quantities, the charted costs sum to at most the optimized total and the percentages to at most 100 |
| ListItem.IsCheapest | src/components/ShoppingListItem.tsx:139 | a cell is highlighted exactly when its price is positive and ≤ every positive price, so all tied markets are highlighted |
| ListItem.SomeCellHighlighted | src/components/ShoppingListItem.tsx:60-63 | some cell is highlighted exactly when the item has a positive price |
| ListItem.PriceField | src/components/ShoppingListItem.tsx:39 | the sentinel 0 shows as a blank field; any other price reads back as itself |
| ListItem.LineTotal | src/components/ShoppingListItem.tsx:28 | the total is shown exactly when price × quantity is positive, and it equals that product |
| ListItem.EditPrice | src/components/ShoppingListItem.tsx:18-26 | the edited market's price becomes the parsed number or 0; other prices and all other fields are unchanged |
| ListItem.PriceFieldRoundTrip | src/components/ShoppingListItem.tsx:18-26 | re-entering the text a price field shows gives back the same item |
| ListItem.ClearingPriceUnprices | src/components/ShoppingListItem.tsx:23 | clearing a price field stores 0, so that cell is neither highlighted nor totalled |
| ListItem.LastPriceEditWins | src/components/ShoppingListItem.tsx:18-26 | of two edits of the same price field, only the last counts |
| ListItem.EditName | src/components/ShoppingListItem.tsx:65-67 | the name becomes the text; nothing else changes |
| ListItem.EditQuantity | src/components/ShoppingListItem.tsx:69-74 | a blank field gives 0.1; a number ≥ 0.1 is stored as is; anything else emits nothing; an emitted quantity is always ≥ 0.1 |
| ListItem.EditUnit | src/components/ShoppingListItem.tsx:76-78 | the unit changes; nothing else does |
| ListItem.EditCategory | src/components/ShoppingListItem.tsx:80-82 | the category changes; nothing else does |
| ListItem.Apply | src/components/ShoppingListItem.tsx:18-82 | every emitted edit keeps the item's id, and only a quantity edit may emit nothing |
| ListItem.EditChangesOnlyItsRow | src/components/ShoppingListItem.tsx:18-82 | handed to the list's update, a row edit replaces that row and every row sharing its id, and leaves every item with another id unchanged |
| ListItem.EditsKeepQuantityFloor | src/components/ShoppingListItem.tsx:69-74 | if every quantity is at least 0.1, it stays so under any emitted row edit |
| LegacyListItem.LegacyRowOf | components/ShoppingListItem.tsx:61-85 | the row shows the unit's table label; cells highlight exactly at positive prices ≤ all positive ones; a 0 price shows blank; totals are shown exactly when positive |
| LegacyListItem.LegacyPriceEditShows | components/ShoppingListItem.tsx:19-27 | a non-zero typed price reads back in its field; a blank, unreadable or zero entry unprices the market; other markets keep their prices |
| LegacyListItem.LegacyHighlightIsCheapestPrice | components/ShoppingListItem.tsx:82 | highlighted exactly when the cheapest price is positive and equals the cell's price; some cell is highlighted exactly when the item has a positive price |
| ListDetails.DetailCellOf | src/components/ListDetailsModal.tsx:106-117 | highlighted exactly when the price is positive and ≤ every positive price; the cost is shown exactly when the price is positive, as price × quantity |
| ListDetails.DetailRowOf | src/components/ListDetailsModal.tsx:93-96 | the row's optimized cost is the cart's per-item optimized cost, which is 0 for an unpriced item |
| ListDetails.Details | src/components/ListDetailsModal.tsx:25 | no list renders nothing; otherwise there is one row per item, in order |
| ListDetails.RowsOf | src/components/ListDetailsModal.tsx:93 | there is one row per item, in item order |
| ListDetails.RowsSumToOptimizedTotal | src/components/ListDetailsModal.tsx:94-96 | the optimized column adds up to the optimized cart total of the list's items |
| ListDetails.RowOptimizedAtMostCells | src/components/ListDetailsModal.tsx:94-109 | with a non-negative quantity, a row's optimized cost is at most every cost shown in its cells |
| ListDetails.DetailsHighlightLikeListRow | src/components/ListDetailsModal.tsx:108 | the detail view highlights exactly the cells the list row highlights |
| ListDetails.DetailsCostLikeLineTotal | src/components/ListDetailsModal.tsx:109-116 | with a positive quantity, the cell cost matches the list row's line total; with quantity 0 the detail view shows 0 where the row shows nothing |
| AddItemForm.DefaultForm | src/components/AddItemForm.tsx:26-34 | the defaults are: empty name, quantity 1, unit "un", "Alimentos Básicos", blank prices, no barcode, no error |
| AddItemForm.TypeQuantity | src/components/AddItemForm.tsx:153 | the quantity becomes what parseFloat reads; a blank field stores NaN |
| AddItemForm.TypePrice | src/components/AddItemForm.tsx:36-39 | the edited price text is stored; the other fields keep theirs |
| AddItemForm.ClearBarcode | src/components/AddItemForm.tsx:141 | the barcode is forgotten and nothing else changes |
| AddItemForm.ParsePrices | src/components/AddItemForm.tsx:98-102 | each emitted price is the parsed field, with a blank or unreadable field giving 0 |
| AddItemForm.BlankQuantityPassesAsWritten | src/components/AddItemForm.tsx:86 | after the quantity field is emptied (line 153), a form with a name gets past the check as written, while the corrected check refuses it with the quantity error |
| AddItemForm.QuantityCheckStrengthened | src/components/AddItemForm.tsx:86-89 | the corrected check rejects all the written one does, and in addition exactly NaN |
| AddItemForm.Submit | src/components/AddItemForm.tsx:80-104 | a blank name gives the name error first; then a non-positive or NaN quantity gives the quantity error; otherwise the draft has the untrimmed name, the fields as held and the parsed prices |
| AddItemForm.HandleSubmit | src/components/AddItemForm.tsx:80-108 | an error keeps the fields and emits nothing; a success emits the draft and resets the form to its defaults |
| AddItemForm.FailedSubmitRepeats | src/components/AddItemForm.tsx:80-89 | a failed submit, repeated unchanged, fails the same way |
| AddItemForm.DefaultFormRejected | src/components/AddItemForm.tsx:82-85 | a reset form cannot be submitted, because its name is empty |
| AddItemForm.PrefillPrice | src/components/AddItemForm.tsx:59-63 | a positive price becomes its text and any other price becomes blank |
| AddItemForm.Prefill | src/components/AddItemForm.tsx:50-63 | the form takes the product's name, unit, category and prices, quantity 1 and the scanned barcode; the error is cleared |
| AddItemForm.PrefillRoundTrip | src/components/AddItemForm.tsx:59-63 | parsing the prefilled texts gives the positive prices back and 0 for the rest, so the cheapest price is kept |
| AddItemForm.PrefillSubmits | src/components/AddItemForm.tsx:50-107 | a prefilled form with a non-blank name emits one unit of the product with the scanned barcode and the same cheapest price, and resets |
| LegacyAddItemForm.AsForm | components/AddItemForm.tsx:11-16 | the legacy state is the current state without a barcode |
| LegacyAddItemForm.LegacyTypeQuantity | components/AddItemForm.tsx:80 | the quantity field stores what `parseFloat` reads, NaN for a blank field, and nothing else changes |
| LegacyAddItemForm.LegacyTypePrice | components/AddItemForm.tsx:18-21 | a price field stores its text; the other markets' fields and all other fields keep theirs |
| LegacyAddItemForm.BlankQuantityPassesLegacy | components/AddItemForm.tsx:29 | after the quantity field is emptied (line 80), a form with a name gets past the check as written, while the corrected check refuses it with the quantity error |
| LegacyAddItemForm.LegacySubmit | components/AddItemForm.tsx:23-46 | the name is checked first, then the quantity (corrected to reject NaN); the draft carries the fields as held, parsed prices with 0 for blank, and no barcode |
| LegacyAddItemForm.LegacyHandleSubmit | components/AddItemForm.tsx:23-54 | an error keeps the fields; a success emits the draft and restores the defaults |
| LegacyAddItemForm.LegacyAgreesWithCurrent | components/AddItemForm.tsx:23-54 | the legacy form gives the same verdict, draft and next state as the current form with no barcode |
| ProductForm.OnOpenChange | src/components/ProductFormModal.tsx:24-37 | opening resets every field to its default; staying closed keeps them |
| ProductForm.Validate | src/components/ProductFormModal.tsx:46-67 | the name is checked before the barcode, both trimmed; the product data holds the non-empty trimmed name and barcode and parsed prices (blank gives 0) |
| ProductForm.TrimIdempotent | src/components/ProductFormModal.tsx:58-59 | trimming twice is trimming once |
| ProductForm.ValidateIdempotent | src/components/ProductFormModal.tsx:46-67 | a form re-filled from validated data validates to the same data |
| ProductForm.HandleSubmit | src/components/ProductFormModal.tsx:44-76 | an invalid form shows its error and sends nothing; a valid one sends its data; the product is handed on, with a request to close, exactly when the store returns one |
| ProductForm.FailedSaveKeepsModal | src/components/ProductFormModal.tsx:69-74 | when the store returns nothing, the modal stays open with the fields as typed |
| ProductForm.NameCheckLikeAddItemForm | src/components/ProductFormModal.tsx:46-49 | the modal and the add-item form reject exactly the same names |
| ProductRegistration.OpenPage | src/pages/ProductRegistrationPage.tsx:17-22 | the page opens with the scanned barcode and empty defaults |
| ProductRegistration.ClearBarcode | src/pages/ProductRegistrationPage.tsx:99 | clearing sets the barcode to undefined |
| ProductRegistration.Validate | src/pages/ProductRegistrationPage.tsx:31-52 | the name is checked first; then a barcode that is undefined or '' is refused; the data holds the untrimmed name and barcode and parsed prices (blank gives 0) |
| ProductRegistration.ClearedBarcodeBlocks | src/pages/ProductRegistrationPage.tsx:35-38 | after clearing the barcode, a form with a name is refused with the barcode error |
| ProductRegistration.ItemFromProduct | src/pages/ProductRegistrationPage.tsx:59-66 | the added item is one unit of the saved product, with its name, unit, category, prices and barcode |
| ProductRegistration.HandleSubmit | src/pages/ProductRegistrationPage.tsx:29-72 | invalid: error shown, nothing sent; valid: data sent; an item is added and the page left exactly when the store returns the saved product |
| ProductRegistration.AddedItemCostsCheapestPrice | src/pages/ProductRegistrationPage.tsx:59-66 | the added item's optimized cost is the saved product's cheapest price |
| ProductRegistration.WhiteSpaceBarcodeAcceptedHere | src/pages/ProductRegistrationPage.tsx:35 | a white-space barcode is accepted here untrimmed, while the product modal refuses it |
| ProductCatalog.StartEditing | src/pages/ProductCatalogPage.tsx:20-21 | editing starts from an unchanged copy with no error |
| ProductCatalog.EditPrice | src/pages/ProductCatalogPage.tsx:23-31 | the edited market's price becomes the parsed number or 0; nothing else changes |
| ProductCatalog.EditField | src/pages/ProductCatalogPage.tsx:33-38 | exactly the named field (name, unit or category) changes |
| ProductCatalog.Save | src/pages/ProductCatalogPage.tsx:40-47 | a blank name shows the error and hands on nothing; otherwise the error is cleared and the copy is handed on unchanged |
| ProductCatalog.HandleSave | src/pages/ProductCatalogPage.tsx:126-129 | after a save no row is being edited |
| ProductCatalog.PriceInputRoundTrip | src/pages/ProductCatalogPage.tsx:85 | the input shows blank for 0; re-entering what it shows leaves the price unchanged |
| ProductCatalog.PriceCell | src/pages/ProductCatalogPage.tsx:196-198 | a price is shown exactly when positive, and a dash otherwise |
| ProductCatalog.ClearedPriceShowsDash | src/pages/ProductCatalogPage.tsx:23-47 | clearing a price and saving hands on a product unpriced there, which the table shows as a dash |
| ProductCatalog.PriceEditKeepsSavable | src/pages/ProductCatalogPage.tsx:40-47 | a price edit never changes whether the row can be saved |

With positive quantities, the analysis's totalSavings is 0 exactly when every priced item's positive prices are all equal, not only when an item has a single positive price. For example, an item priced 5 at two markets contributes no savings (`Analysis.NoSavingsIffOneLevel`).

## Findings

| source | as written | input that shows it | evidently intended | confidence | as-written member | corrected member |
|---|---|---|---|---|---|---|
| src/components/AddItemForm.tsx:86 | `quantity <= 0` rejects only numbers ≤ 0; the quantity field stores `parseFloat(text)` (line 153), and a blank field gives NaN, which every comparison lets through | a non-blank name with the quantity field emptied: the item is emitted with quantity NaN, and every total it enters becomes NaN | a quantity that is not a positive number is rejected with "A quantidade deve ser maior que zero." | not executed | AddItemForm.BlankQuantityPassesAsWritten | AddItemForm.Submit |
| components/AddItemForm.tsx:29 | the same `quantity <= 0` check after `setQuantity(parseFloat(...))` at line 80 | the legacy form with the quantity field emptied | the same rejection of NaN | not executed | LegacyAddItemForm.BlankQuantityPassesLegacy | LegacyAddItemForm.LegacySubmit |

## Left out

- Remote persistence (src/hooks/useProducts.ts, useShoppingItems.ts, useMonthlyLists.ts) is Supabase I/O and is left out. The store's reply to a save is a parameter (`saved: Option<Product>`). The local list updates after a successful save are the list edits of `Cart`.
- Barcode capture and lookup (scanner components, src/utils/productLookup.ts) are left out. The product found for a scan is a parameter of `AddItemForm.Prefill`. The not-found redirect and its timer are not modelled.
- PDF and CSV export are left out: they are library, DOM and number-to-string driven.
- Presentation-only components are not modelled: headers, landing, about, login, map, saved-lists page, sort control, list container, toasts, and the analysis placeholder for an empty list.
- Currency formatting (`toLocaleString`) and the `toFixed(1)` percentage strings are left out. Percentages are exact `real`s.
- IEEE-754 rounding is not modelled: all sums are exact, so the sum identities hold exactly here and only up to rounding in the source. NaN stored as a price, or reaching a total, is not modelled either. A stored quantity is a real number, and the NaN quantity appears only in the form state and the findings.
- `crypto.randomUUID` and `window.confirm` are parameters: an id string and a confirmation boolean.
- The modal's import and close callbacks and the catalog's delete-with-confirm are calls into code outside the core and are left out. So are `updateProduct` and `removeProduct`.
- The analysis uses one enumeration order for all items' price keys. In the source, each reloaded item may enumerate its keys differently; this changes only which tied market an item is counted under.
- Category keys that a JavaScript object treats specially (integer-like strings, which enumerate first, and names inherited from the prototype) are treated as ordinary keys.
- constants.ts at the repository root is not part of this model. The legacy files import it, and the model assumes it is the same as src/constants.ts.
- ListItem.Apply: states only that the id is kept and that only quantity edits may emit nothing. What each edit changes is stated by the per-field edit functions it dispatches to.
- ProductCatalog.HandleSave: states only that editing closes. The hand-off to `updateProduct` is store I/O.
