# Momo shop sales: a Dafny model

This project models the sales logic of a small point-of-sale app for a momo
shop. The app has two independent sales schemas, and the model keeps them
apart.

**The normalised shop** (`momo-shop-management/`). The shop context keeps a
per-session ledger of quantities sold (dish id to count), clamped at 0 by the
`+`/`-` counters. "Save & End Day" turns the ledger and the menu into sale
lines: the positive entries, in ascending dish-id order, each priced at the
dish's current price, or 0 when the dish is no longer on the menu. It also
computes their total. The commit then upserts one `sales` header per date and
fully replaces that header's `sale_items`. The same context reads a day's sale
back (`fetchSalesByDate`), switches the working date, adds categories (reusing
one whose name matches ignoring case), and adds and removes dishes. Two views
sit on top:
- the home page groups the menu by category label, shows the running total,
  and enables saving only when that total is not 0;
- the end-of-day summary shows the stored header total as its headline and
  groups the day's items into per-category subtotals.

**The flattened dashboard** (`src/components/Dashboard.tsx`). It keeps one
`daily_sales` row per dish per date. A `+1`/`-1` click either updates the
dish's row in place or inserts one. A click that would take the quantity
below 0 writes nothing. Every written row has `total_amount = quantity × price`.
The day total is the sum of the rows' amounts.

The remote store is an immutable record of tables, and every remote call is a
pure function from the old tables to the new ones. A remote failure is an
input:
- for the commit and the read-back, `fault: Option<Step>` names the one call
  that fails, if it is reached;
- for the single-write operations, it is a `fails: bool` flag.

At most one call per commit fails. That covers every partial-failure outcome
of the corrected commit, whose contracts therefore speak about all of them. The
commit as written can meet two failures in one run (a failed lookup, then a
failed insert), and that case is not represented; see "## Left out". Prices and quantities are unbounded integers. Dates are opaque
strings.

Modules, in dependency order:
- `Wrappers`: `Option`.
- `Keys`: the ascending key order of an integer-keyed object.
- `Ledger`: the quantity ledger.
- `Menu`: dishes, categories, case folding, and `dishes.find`.
- `SaleLines`: line building, totals, and loading a ledger back from lines.
- `Store`: the normalised tables.
- `SaveSales`: the read-back and `saveDailySales`.
- `CommitProperties`: what a commit does to the tables.
- `DateSwitch`: changing the working date.
- `Catalog`: categories and dishes.
- `HomePage`: the home page's grouping, total and save button.
- `SalesSummary`: the end-of-day summary.
- `LookupFailure`: the finding below.
- `Dashboard`: the flattened schema.

Where the code and its description differ, the model follows the code:
- **The ledger after a failed save.** A failure after the day's sale was found
  does not leave the ledger as it was. The lookup inside `saveDailySales` has
  already replaced the ledger with the stored quantities, and
  `SaveSales.SaveLines` states exactly that.
- **A day with several headers.** `.single()` yields no row when zero or
  several headers match, and the shop treats that the same as "no sale".

## Model

| member | source | states |
|---|---|---|
| Ledger.UpdateQuantity | momo-shop-management/context/shop-context.tsx:235-240 | the dish's count becomes current + delta, or 0 when that is negative; every other entry keeps its value and the key set only gains the dish |
| Ledger.UpdateNeverNegativeNorAbove | momo-shop-management/context/shop-context.tsx:235-240 | a counter is never negative, an increase is exact, and a decrease never goes further down than asked |
| Ledger.IncrementThenDecrement | momo-shop-management/context/shop-context.tsx:235-240 | +a then -b on a fresh counter gives max(0, a - b) |
| Ledger.UpdatesOfDistinctDishesCommute | momo-shop-management/context/shop-context.tsx:236-238 | updates of two different dishes give the same ledger in either order |
| Ledger.ResetQuantities | momo-shop-management/context/shop-context.tsx:242-244 | the ledger is empty and every counter reads 0 |
| Keys.AscendingKeys | momo-shop-management/context/shop-context.tsx:248 | the ledger's keys are enumerated once each, in strictly ascending order |
| Keys.AscendingSameMembers | momo-shop-management/context/shop-context.tsx:248 | two strictly ascending enumerations of the same keys are the same sequence |
| Menu.FindDish | momo-shop-management/context/shop-context.tsx:251 | finds nothing exactly when no dish has the id, else the first dish with that id |
| Menu.FindDishUnique | momo-shop-management/context/shop-context.tsx:251 | on a menu with distinct ids, the dish found for an id is the dish carrying it |
| Menu.PriceOf | momo-shop-management/context/shop-context.tsx:251-255 | 0 for a dish not on the menu, otherwise the dish's price |
| Menu.PriceOfCons | momo-shop-management/context/shop-context.tsx:251-255 | putting a dish with a fresh id in front of the menu prices that id only |
| Menu.FindDishReprice | momo-shop-management/components/sales-summary.tsx:64 | menus that differ only in prices find the same dishes up to price |
| Menu.Lower | momo-shop-management/context/shop-context.tsx:353 | folding keeps the length and lower-cases each character on its own |
| Menu.LowerIdempotent | momo-shop-management/context/shop-context.tsx:353 | folding twice is folding once |
| Menu.FindCategoryByName | momo-shop-management/context/shop-context.tsx:353 | finds nothing exactly when no name matches ignoring case, else the first match |
| SaleLines.PositivePart | momo-shop-management/context/shop-context.tsx:249 | keeps exactly the entries whose quantity is above 0, with their values |
| SaleLines.LinesFor | momo-shop-management/context/shop-context.tsx:248-257 | over ascending keys, the lines name exactly the keys with a positive count, each with its count and menu price, still ascending |
| SaleLines.BuildItems | momo-shop-management/context/shop-context.tsx:248-257 | the lines name exactly the ledger's positive entries, in ascending id order, each with its quantity and its current menu price (0 off the menu); as many lines as positive entries |
| SaleLines.LinesMatchPositivePart | momo-shop-management/context/shop-context.tsx:248-249 | ascending lines covering exactly the positive entries are as many as those entries |
| SaleLines.BuildItemsSingle | momo-shop-management/context/shop-context.tsx:248-257 | a ledger with one positive entry commits exactly that one line |
| SaleLines.BuildItemsShape | momo-shop-management/context/shop-context.tsx:248-257 | the dishes and their order depend on the ledger alone, not on the menu |
| SaleLines.LinesTotal | momo-shop-management/context/shop-context.tsx:259-261 | no line's price × quantity exceeds the total |
| SaleLines.LinesTotalAppend | momo-shop-management/context/shop-context.tsx:259-261 | the total of a concatenation is the sum of the totals |
| SaleLines.LinesTotalZero | momo-shop-management/context/shop-context.tsx:259-261 | the total is 0 exactly when every line's amount is 0 |
| SaleLines.UnpricedLinesTotal | momo-shop-management/context/shop-context.tsx:259-261 | lines all priced 0 total 0 |
| SaleLines.LinesTotalReprice | momo-shop-management/context/shop-context.tsx:259-261 | pricing one dish's line at p instead of 0 raises the total by p × quantity |
| SaleLines.LoadLedger | momo-shop-management/context/shop-context.tsx:156-160 | the loaded ledger has exactly the lines' dishes; each dish holds the quantity of its last line, so a later line overwrites an earlier one |
| SaleLines.LoadLedgerOfBuildItems | momo-shop-management/context/shop-context.tsx:156-160 | loading the committed lines gives back the positive part of the ledger they came from |
| SaleLines.LoadLedgerOfLines | momo-shop-management/context/shop-context.tsx:156-160 | any lines listing exactly a ledger's positive entries load back to that positive part |
| Store.SalesOn | momo-shop-management/context/shop-context.tsx:124 | exactly the headers dated that day, and no more of them than there are headers |
| Store.SalesOnAppend | momo-shop-management/context/shop-context.tsx:124 | the headers are listed in table order: the matches of two stretches of the table come one after the other |
| Store.ItemsOf | momo-shop-management/context/shop-context.tsx:135-138 | exactly the item rows of that sale |
| Store.ItemsOfAppend | momo-shop-management/context/shop-context.tsx:135-138 | the item rows are listed in table order: the matches of two stretches of the table come one after the other |
| Store.AsLines | momo-shop-management/context/shop-context.tsx:146-151 | each item row becomes the line with its dish, quantity and price |
| Store.UpdateSaleTotal | momo-shop-management/context/shop-context.tsx:268-271 | only the total of the header with that id changes |
| Store.DeleteItemsOf | momo-shop-management/context/shop-context.tsx:276-279 | the sale has no items left, and every other sale keeps its items |
| Store.InsertItems | momo-shop-management/context/shop-context.tsx:285-292 | one item row per line is appended under the sale, carrying the line's data; the store's foreign keys are not checked |
| Store.InsertSale | momo-shop-management/context/shop-context.tsx:298-305 | one header `{date, total}` is appended with a fresh id |
| Store.ItemRows | momo-shop-management/context/shop-context.tsx:311-316 | one row per line under the sale, with consecutive fresh ids, reading back as the lines |
| Store.InsertCategory | momo-shop-management/context/shop-context.tsx:360 | one category row is appended with a fresh id; no other table changes |
| Store.InsertDish | momo-shop-management/context/shop-context.tsx:177-183 | one dish row is appended with a fresh id and no other table changes; the category's foreign key is not checked |
| Store.DeleteDish | momo-shop-management/context/shop-context.tsx:215 | exactly the dish rows with that id disappear and the model changes no other table; what the sale items' foreign key does to that dish's items is not modelled |
| Store.CategoryName | momo-shop-management/context/shop-context.tsx:184-194 | the joined category name exists exactly when a category has that id |
| Store.InsertSaleWellFormed | momo-shop-management/context/shop-context.tsx:298-305 | inserting a header keeps ids unique and issued |
| SaveSales.LookupSale | momo-shop-management/context/shop-context.tsx:121-153 | the lookup fails exactly when one of its queries is reached and fails; it finds a sale exactly when one header has the date, with that header's id, date, stored total and items |
| SaveSales.FetchSalesByDate | momo-shop-management/context/shop-context.tsx:121-173 | returns the sale exactly when the lookup finds one, and null both for no sale and for a failure |
| SaveSales.Publish | momo-shop-management/context/shop-context.tsx:155-166 | the ledger becomes the sale's quantities and the sale is cached under its date; other dates' cache entries, the menu and the date are kept |
| SaveSales.WriteSale | momo-shop-management/context/shop-context.tsx:266-322 | a failing first write changes nothing, a run without a fault succeeds, and the menu tables are never touched |
| SaveSales.UpdateTarget | momo-shop-management/context/shop-context.tsx:266 | the save updates a header exactly when the found sale's id is present and not 0, and then that header; otherwise it inserts |
| SaveSales.Finish | momo-shop-management/context/shop-context.tsx:324-347 | on success the day is cached as `{date, lines, total}` and the ledger is emptied; on failure the client state is kept |
| SaveSales.CommittedLines | momo-shop-management/context/shop-context.tsx:248-257 | the lines load back to exactly the ledger's positive entries, each priced at the current menu price |
| SaveSales.SaveLines | momo-shop-management/context/shop-context.tsx:263-347 | a failed lookup writes nothing; with no fault the save goes through, empties the ledger and caches the day; after a failure the ledger is the stored one when the lookup found the day, else the client state is kept |
| SaveSales.SaveLinesAsWritten | momo-shop-management/context/shop-context.tsx:263-322 | agrees with the corrected save unless the lookup fails; then it takes the no-sale insert path |
| SaveSales.Commit | momo-shop-management/context/shop-context.tsx:246-348 | corrected: a failed lookup changes nothing; with no fault the commit goes through; on success the ledger is emptied and the cached day loads back to the ledger's positive entries, with a total equal to the sum over its lines; after a failure without a found day the client state is kept |
| SaveSales.CommitAsWritten | momo-shop-management/context/shop-context.tsx:246-348 | agrees with the corrected commit unless the lookup fails; then, unless the insert also fails, it saves and appends a new header for the day to the sales table |
| CommitProperties.WriteNewReadBack | momo-shop-management/context/shop-context.tsx:296-321 | a fresh header and its items read back as exactly that sale |
| CommitProperties.WriteExistingReadBack | momo-shop-management/context/shop-context.tsx:266-295 | an updated header with replaced items reads back as exactly the new sale |
| CommitProperties.ItemsAfterInsert | momo-shop-management/context/shop-context.tsx:309-321 | items inserted under a sale that had none read back as the inserted lines |
| CommitProperties.SaveReadBack | momo-shop-management/context/shop-context.tsx:263-322 | corrected: after a successful save the day reads back with the saved lines and total |
| CommitProperties.CommitReadBack | momo-shop-management/context/shop-context.tsx:246-322 | corrected: after a successful commit the day reads back with the committed lines, and its stored total is the sum of price × quantity over those lines |
| CommitProperties.RecommitReplaces | momo-shop-management/context/shop-context.tsx:266-295 | committing a day twice leaves exactly the second commit's lines and total, not an accumulation |
| CommitProperties.CommitTwice | momo-shop-management/context/shop-context.tsx:246-334 | both the first and the second commit of a day read back as their own lines and totals |
| CommitProperties.ExampleLines | momo-shop-management/context/shop-context.tsx:248-261 | with two example dishes and only dish 1 counted q times, the commit is the one line (1, q, 100) totalling 100 × q |
| CommitProperties.CommitExample | momo-shop-management/context/shop-context.tsx:246-334 | saving 2 then 3 of dish 1 reads back as [(1, 2, 100)] / 200 and then [(1, 3, 100)] / 300 |
| CommitProperties.SavePreservesWellFormed | momo-shop-management/context/shop-context.tsx:263-322 | corrected: whichever call fails, a save keeps at most one header per date and ids unique |
| CommitProperties.CommitPreservesWellFormed | momo-shop-management/context/shop-context.tsx:263-322 | corrected: the same at the level of the whole commit |
| CommitProperties.CommitLeavesOtherDays | momo-shop-management/context/shop-context.tsx:266-321 | every other date's lookup, whatever its fault, gives the same result after the commit |
| CommitProperties.SaveCreatesOneHeader | momo-shop-management/context/shop-context.tsx:296-321 | on a new date a successful save appends exactly one header and exactly one item row per line |
| CommitProperties.CommitCreatesOneHeader | momo-shop-management/context/shop-context.tsx:296-321 | on a new date a successful commit appends one header carrying the lines' total, and the committed lines' rows (none when empty) |
| DateSwitch.SelectDate | momo-shop-management/context/shop-context.tsx:115-119 | the ledger is cleared and then, when the day's sale is found, loaded with its quantities and the sale cached; the menu is kept |
| DateSwitch.ReloadAfterCommit | momo-shop-management/context/shop-context.tsx:121-173 | re-opening a day just committed loads back exactly the positive entries of the ledger that was saved |
| DateSwitch.ReloadKeepsCounters | momo-shop-management/app/page.tsx:123 | after committing and re-opening the day, every dish row's counter shows what it showed before the commit |
| Catalog.AddCategory | momo-shop-management/context/shop-context.tsx:350-386 | a name matching an existing category ignoring case returns its id and writes nothing; otherwise one category is inserted and appended, or on failure nothing changes and no id is returned |
| Catalog.AddCategoryKeepsNamesDistinct | momo-shop-management/context/shop-context.tsx:353-369 | category names stay unique ignoring case |
| Catalog.AddCategoryTwice | momo-shop-management/context/shop-context.tsx:353-357 | asking again in any casing returns the same id and writes nothing |
| Catalog.FirstMatchUnique | momo-shop-management/context/shop-context.tsx:353 | names that fold to the same string find the same category |
| Catalog.Without | momo-shop-management/context/shop-context.tsx:219 | keeps exactly the dishes with other ids |
| Catalog.WithoutAppend | momo-shop-management/context/shop-context.tsx:219 | the filter keeps the remaining dishes in order |
| Catalog.WithoutAbsent | momo-shop-management/context/shop-context.tsx:219 | removing an id not on the menu leaves the menu as it is |
| Catalog.RemoveDish | momo-shop-management/context/shop-context.tsx:213-233 | on success exactly the dish's rows go and the client drops it, keeping the ledger and categories; the model also keeps the sales and their items, without the foreign key's refusal or cascade; on failure nothing changes |
| Catalog.RemovedDishCommittedAtZero | momo-shop-management/context/shop-context.tsx:250-256 | a removed dish still counted is built into the commit's lines with its quantity at price 0 |
| Catalog.AddDish | momo-shop-management/context/shop-context.tsx:175-211 | on success one dish row with a fresh id is inserted and appended with its category's name; on failure nothing changes; dish ids stay distinct and issued |
| Catalog.AddThenRemoveDish | momo-shop-management/context/shop-context.tsx:175-219 | removing a dish just added restores the client state |
| Menu.FirstSeen | momo-shop-management/app/page.tsx:116 | each string once, and nothing else, in order of first occurrence |
| HomePage.Members | momo-shop-management/app/page.tsx:18-28 | exactly the menu's dishes with that label |
| HomePage.AddToGroup | momo-shop-management/app/page.tsx:19-25 | the dish is pushed onto its label's list, which is created and added to the key order if absent; other lists are kept |
| HomePage.AddToGroupCoherent | momo-shop-management/app/page.tsx:21-23 | a reduce step keeps every key listed exactly once in the key order |
| HomePage.GroupByCategory | momo-shop-management/app/page.tsx:18-28 | one group per label on the menu, listed in the order the labels first occur on the menu, each holding exactly that label's dishes in menu order; no groups exactly for an empty menu |
| HomePage.GroupOrderStep | momo-shop-management/app/page.tsx:21-23 | a reduce step adds the dish's label to the key order exactly when it first occurs |
| HomePage.DishInOwnGroupOnly | momo-shop-management/app/page.tsx:18-28 | every dish is in its own label's group and in no other |
| HomePage.DisplayedTotal | momo-shop-management/app/page.tsx:31-34 | no dish's price × count exceeds the displayed total |
| HomePage.DisplayedTotalPositiveIff | momo-shop-management/app/page.tsx:31-34 | the displayed total is not 0 exactly when some priced dish has a positive count |
| HomePage.SaveEnabled | momo-shop-management/app/page.tsx:139 | saving is enabled exactly when some priced dish has a positive count |
| HomePage.DisplayedTotalIgnoresOffMenu | momo-shop-management/app/page.tsx:31-34 | ledger entries for dishes not on the menu do not move the total |
| HomePage.CommitTotalCons | momo-shop-management/app/page.tsx:31-34 | a dish with a fresh id in front of the menu adds its price × count to the committed total |
| HomePage.DisplayedTotalMatchesCommit | momo-shop-management/app/page.tsx:31-34 | for a menu with distinct ids, the displayed total is the total the commit writes |
| SalesSummary.AddItem | momo-shop-management/components/sales-summary.tsx:63-78 | an item whose dish is off the menu is skipped; otherwise a row and its amount at the stored price go to its label's block, which is created if absent |
| SalesSummary.FoundLabels | momo-shop-management/components/sales-summary.tsx:63-66 | a label is listed exactly when some item's dish is on the menu with that label |
| SalesSummary.RowsFor | momo-shop-management/components/sales-summary.tsx:63-78 | a label has no rows exactly when no item's dish is on the menu with that label |
| SalesSummary.Summarize | momo-shop-management/components/sales-summary.tsx:57-79 | one block per label of an item whose dish is on the menu, listed in the order the labels first occur among the items; each block holds exactly that label's rows `{name, quantity, price × quantity}` in item order, and its total is their sum; items off the menu appear nowhere |
| SalesSummary.SummarizeOrderStep | momo-shop-management/components/sales-summary.tsx:68-70 | one step adds the item's label to the key order exactly when it first occurs |
| SalesSummary.SummarizeRowsAt | momo-shop-management/components/sales-summary.tsx:68-77 | one step leaves every block holding its label's rows among the items read so far |
| SalesSummary.AddItemConsistent | momo-shop-management/components/sales-summary.tsx:68-77 | one step keeps block totals equal to the sums of their rows |
| SalesSummary.AddItemTotal | momo-shop-management/components/sales-summary.tsx:71-72 | one step adds exactly the item's amount to the category totals, when its dish is listed |
| SalesSummary.Render | momo-shop-management/components/sales-summary.tsx:44-87 | "No Sales Data" exactly when there is no sale; otherwise the headline is the stored total |
| SalesSummary.LoadSummary | momo-shop-management/components/sales-summary.tsx:17-55 | "No Sales Data" exactly when the lookup finds no single header or fails; otherwise the headline is the header's stored total |
| SalesSummary.SummaryTotalsListed | momo-shop-management/components/sales-summary.tsx:63-79 | the category totals add up to the amounts of the items whose dish is on the menu |
| SalesSummary.ListedTotalAllOnMenu | momo-shop-management/components/sales-summary.tsx:63-65 | when every dish is on the menu, no item is left out |
| SalesSummary.SummaryMatchesHeadline | momo-shop-management/components/sales-summary.tsx:58-87 | for a day whose total matches its items, all on the menu, the category totals add up to the headline |
| SalesSummary.SummaryIgnoresMenuPrices | momo-shop-management/components/sales-summary.tsx:71 | menus that differ only in prices give the same summary, since amounts use the stored price |
| Dashboard.RowsOn | src/components/Dashboard.tsx:42-48 | exactly the table's rows for the date |
| Dashboard.FindRow | src/components/Dashboard.tsx:99 | finds nothing exactly when no row has the dish, else the first row of that dish |
| Dashboard.ShownQuantity | src/components/Dashboard.tsx:378 | 0 when the dish has no row, else the quantity of its first row |
| Dashboard.ShownTotal | src/components/Dashboard.tsx:381 | 0 when the dish has no row, else the amount of its first row |
| Dashboard.NextQuantity | src/components/Dashboard.tsx:99-100 | one more or one fewer than the dish's first row holds, starting from 0 when the dish has no row |
| Dashboard.SetRow | src/components/Dashboard.tsx:107-113 | only the row with that id gets the new quantity and amount |
| Dashboard.UpdateQuantity | src/components/Dashboard.tsx:98-136 | a negative new quantity or a failed write changes nothing; otherwise the view is the table's rows for the date again, and a dish without a row gets one row (quantity 1, amount = price) |
| Dashboard.FindRowUnique | src/components/Dashboard.tsx:99 | with one row per dish per date, the row found for a dish is its row |
| Dashboard.WrittenRows | src/components/Dashboard.tsx:106-127 | the write updates the dish's row in place or appends one row, with amount = quantity × price; rows of other dishes or dates are kept |
| Dashboard.UpdateQuantityKeepsSound | src/components/Dashboard.tsx:98-136 | unique issued ids, one row per dish per date, no negative quantity and a view in step with the table survive every click |
| Dashboard.UpdateQuantityShows | src/components/Dashboard.tsx:104-111 | after a written click the dish shows the new quantity and quantity × price |
| Dashboard.UpdateQuantityOtherDishes | src/components/Dashboard.tsx:106-127 | a click changes nothing that another dish's row shows |
| Dashboard.ShownNonnegative | src/components/Dashboard.tsx:102 | a shown quantity is never negative |
| Dashboard.PlusThenMinus | src/components/Dashboard.tsx:99-102 | a plus followed by a minus gives back the shown quantity |
| Dashboard.RowsOnDistinctDishes | src/components/Dashboard.tsx:106-127 | one row per dish per date means a day's rows name each dish at most once |
| Dashboard.DayTotal | src/components/Dashboard.tsx:175 | with no negative amounts, the day total is not negative and no row's amount exceeds it |
| Dashboard.ShownSumEmpty | src/components/Dashboard.tsx:378-381 | base case of the per-dish sum: with no rows, the shown amounts sum to 0 over any menu |
| Dashboard.DayTotalMatchesShown | src/components/Dashboard.tsx:175 | for distinct rows of listed dishes, the day total is the sum of the amounts the dish rows show |
| Dashboard.SoundDayTotal | src/components/Dashboard.tsx:364-381 | on a consistent board whose rows are all for listed dishes, the per-dish amounts add up to the day total |
| LookupFailure.SaveAsWrittenDuplicates | momo-shop-management/context/shop-context.tsx:264-307 | as written, a failed header query on a day with a header saves a second header for that day |
| LookupFailure.DuplicateHeaderOnFailedLookup | momo-shop-management/context/shop-context.tsx:169-171 | as written, that commit leaves two headers for the day, breaks one header per date, and the day then reads back as having no sale |
| LookupFailure.DuplicateHeaderExample | momo-shop-management/context/shop-context.tsx:169-171 | a concrete day (header 1, 2024-05-01) where the failed lookup adds header 2 |
| LookupFailure.FailedLookupAbandonsSave | momo-shop-management/context/shop-context.tsx:263-266 | corrected: a failed lookup abandons the commit, leaving the client state and the tables as they were |

## Left out

- The Supabase transport, authentication and seeding are left out. Each remote call is a pure function on the tables, and its failure is an input.
- Partial-failure interleavings with other clients, and concurrent editors on one date, are left out. The model is single-client and sequential.
- Date handling (`toISOString`, date-fns formatting, time zones) is left out. Dates are opaque strings.
- Fractional prices (`Number(price)` in the add-dish form) are left out. Prices are integers. On the dashboard they are the integers `parseInt` gives.
- PDF export, the sales-history page, the loading skeletons, the toast messages and the dialog state are UI only.
- The initial load of categories and dishes (`initializeData`) is left out. The menu and categories are inputs.
- The dashboard's `addCategory` and `addDish` forms are left out. They insert a row and refetch the whole menu. The dashboard's `addCategory` has no duplicate-name check. The normalised shop's versions, which are modelled, append the returned row locally without refetching, and its `addCategory` first reuses a category whose name matches ignoring case.
- Foreign keys are not modelled. The schema in `momo-shop-management/types/supabase.ts` (lines 46-53 and 101-114) declares three:
  - `dishes_category_id_fkey`: `dishes.category_id` references `categories.id`;
  - `sale_items_dish_id_fkey`: `sale_items.dish_id` references `dishes.id`;
  - `sale_items_sale_id_fkey`: `sale_items.sale_id` references `sales.id`.

  The model's tables accept every write that these keys would refuse. A write the store refuses appears in the model only as a failure input: `fails`, or `fault == Some(InsertNewItems)` for the item insert of a commit.
- Store.InsertItems: a line whose dish is no longer in `dishes` is inserted here. The store refuses that insert under `sale_items_dish_id_fkey`.
- Store.InsertDish: a dish whose category id names no category is inserted here. The store refuses that insert under `dishes_category_id_fkey`.
- Store.DeleteDish: deleting a dish that sale items still name leaves those items in place here. The store either refuses the delete or cascades it to the items, depending on the key's delete rule, which the schema types do not record.
- Catalog.RemoveDish: the same gap as `Store.DeleteDish`. The `!fails` branch promises the sales and their items are untouched, which holds in the store only when no stored item names the dish.
- Catalog.RemovedDishCommittedAtZero: it states only that the line `(id, quantity, 0)` is built into the commit. In the shop, inserting that line breaks `sale_items_dish_id_fkey`, and the save throws after its earlier writes have run. On a day with a header, the header then carries the new total and has no items. On a new day, a header without items is left. The model's commit with no fault stores the line instead (`SaveSales.Commit`).
- SaveSales.Commit: "with no fault the commit goes through" assumes every committed line's dish is still in `dishes`. A counted dish that was removed makes the shop's save fail at the item insert.
- Ids: every table draws fresh ids from one shared counter. This is a simplification of per-table sequences, and only the freshness of ids matters.
- The dashboard's ids are strings in the app and integers here. Only equality is used on them.
- Integer-like object keys: `Object.entries` on the ledger is taken to list keys in ascending numeric order, as it does for non-negative integer keys. Negative ids are not distinguished.
- Row order: a `select` returns rows in table (insertion) order, with no `order` clause modelled.
- Menu.Lower: `toLowerCase` is modelled for ASCII letters only. Other characters are kept as they are.
- Dashboard.UpdateQuantity: the re-fetch after a successful write (`fetchData`) is taken to succeed. A failed re-fetch, which leaves a stale view, is not modelled.
- SaveSales.SaveLines: it states the corrected behaviour, which abandons the save on a failed lookup. The as-written save is `SaveSales.SaveLinesAsWritten`, covered under Findings. Both take the update path only for a truthy `existingSale?.id` (`SaveSales.UpdateTarget`). The properties of the tables after a commit assume that sale ids start at 1, as serial ids do (`Store.WellFormed`). A header with id 0 would be saved down the insert path, and those properties do not cover it.
- SaveSales.Commit: it states the corrected commit, which abandons the save on a failed lookup. As written, the shop goes on to insert a header; that is `SaveSales.CommitAsWritten`.
- CommitProperties.SaveReadBack: it is about the corrected save. As written, a save after a failed lookup on a day with a header succeeds, and the day then reads back as no sale (`LookupFailure.DuplicateHeaderOnFailedLookup`).
- CommitProperties.CommitReadBack: it is about the corrected commit, with the same gap as `CommitProperties.SaveReadBack`.
- CommitProperties.SavePreservesWellFormed: it is about the corrected save. As written, a failed header query on a day with a header breaks one header per date (`LookupFailure.DuplicateHeaderOnFailedLookup`).
- CommitProperties.CommitPreservesWellFormed: it is about the corrected commit, with the same gap as `CommitProperties.SavePreservesWellFormed`.
- SaveSales.CommitAsWritten: `fault` names one failing call, so a failed lookup followed by a failing header or item insert is not represented. In the shop that run ends unsaved, or with a new header that has no items. The contract's "then it saves" holds only for a run in which the lookup is the one failure.
- HomePage.GroupByCategory: the key order is insertion order. `Object.entries` lists integer-like keys first, in ascending numeric order; a category named `2` would therefore be listed before the others, and the model does not do that. A label that names a property every object inherits, such as `constructor` or `toString`, makes the code skip creating the list, and the following `push` throws. The model creates the list instead.
- SalesSummary.Summarize: it has the same two gaps in key order and inherited property names as HomePage.GroupByCategory, for `salesByCategory`.

## Findings

| source | as written | input that shows it | evidently intended | confidence | as-written member | corrected member |
|---|---|---|---|---|---|---|
| momo-shop-management/context/shop-context.tsx:169-171 | `fetchSalesByDate` returns `null` on a query error as well as for "no sale". `saveDailySales` then takes the no-sale path and inserts a new header. | A day 2024-05-01 with header 1, and a failing header query during the save. The save inserts header 2 for the same date. From then on `.single()` matches two rows, the day reads back as "No Sales Data", and the next save takes the insert path again. | A failed lookup aborts the save, leaving one header per date. | high on the code path; not executed | LookupFailure.DuplicateHeaderOnFailedLookup | LookupFailure.FailedLookupAbandonsSave |
