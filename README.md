# Stock accounting of the inventory dashboard, in Dafny

This project models the stock-accounting core of a browser-based inventory
dashboard. It is made of:

- an in-memory store of products, stock moves and location names;
- the pages that filter and act on that store;
- the CSV export of the stock ledger.

Each part takes the form of the TypeScript it models. The modules are:

- `Types` (`types.dfy`): the records and enumerations of `types.ts`.
  - `OperationType` and `OperationStatus` carry their string values as `Label()`.
  - `locationStock` is a `map<string, int>`. An absent breakdown is the empty map, because every reader in the source falls back to `{}`.
- `Text` (`text.dfy`): the JavaScript string operations the pages rely on.
  - `toLowerCase` for ASCII and `includes`.
  - `<` on strings, used for ISO dates.
  - Decimal rendering of quantities.
- `Seqs` (`seqs.dfy`): `filter` on sequences and its algebra.
- `Accounting` (`accounting.dfy`): the store's rules as functions over the three collections.
  - Reservation and free-to-use stock.
  - The availability decision.
  - What validating a move does to each product.
  - The dashboard KPIs.
- `Store` (`store.dfy`): the store itself, `InventoryStore`, a class whose three fields every operation reassigns.
  - `CheckAvailability` and `ValidateMove` keep the source's loops over the move's lines. The validation loop is the method `ApplyMoveLines`.
  - Each is proved equal to the `Accounting` function that specifies it.
  - `LineUpdate` edits a copy of the location breakdown in place, as the loop body does.
- `ProductsPage` (`products_page.dfy`): the pieces of the products page.
  - Search and the low-stock toggle.
  - The quick stock adjustment, as a method on the store.
  - The product form's guard.
  - The per-product movement history with its sort and sign.
- `OperationsPage` (`operations_page.dfy`): the pieces of the operations page.
  - The type, search and status filters.
  - The Kanban columns.
  - How the form becomes a new or edited move.
  - Which workflow buttons each view shows.
- `Csv` (`csv.dfy`): the export format. A reader is defined only to state the round trip.
  - Each field is quoted with inner quotes doubled (section 2, rules 5 to 7, of RFC 4180).
  - Fields are joined with commas and lines with a bare line feed.
- `StockLedger` (`stock_ledger.dfy`): the ledger page.
  - Moves flattened into (move, line) rows, with the case-insensitive search.
  - The ledger's own signed quantity.
  - The export.

Behaviour of the code that the model keeps as it is:

- The status of a move is not guarded in `checkAvailability` (`context/InventoryContext.tsx:137-165`). A Done or Ready delivery is set to Ready or Waiting again (`Accounting.CheckAvailabilityOutcome`).
- A missing product has different effects in different places:
  - in the availability check it counts as stock 0;
  - validation skips its line;
  - its free-to-use stock is 0.
- An open move without a schedule date is late. The missing date reads as `''`, which is below every non-empty today (`Accounting.UndatedOpenMoveIsLate`).
- Free-to-use stock is not clamped at zero.
- In `validateMove`, the `else` branch for an absent or zero source entry (`context/InventoryContext.tsx:194-201`) has no effect for any source: the test at :192 is truthiness, and the inner branch for sources other than `Vendor` and `Customer` has an empty body. The model therefore has none.
- A Draft internal transfer or adjustment is offered neither check nor validate in any view. Only the dialog's delete applies to it (`OperationsPage.DraftTransferOffersNoStep`).
- The system has three rules for what counts as incoming. `StockLedger.SignRulesDisagree` shows two moves on which they disagree, for example an adjustment into `WH/Stock/Shelf 1`:
  - the store's on-hand rule (`context/InventoryContext.tsx:210-225`) raises stock;
  - the history rule (`pages/Products.tsx:349`) shows '+';
  - the ledger export (`pages/StockLedger.tsx:53`) shows '-'.

  The ledger's sign is its own rule, not the store's classification (`StockLedger.SignRulesDisagree`). `StockLedger.QuickAdjustmentSignsAgree` and `StockLedger.StandardFlowsAgree` show where the three rules coincide.
- The quick adjustment does not apply validation's location update. It shifts only the `WH/Stock` entry (`pages/Products.tsx:147-150`).

Clock values are parameters: generated ids, reference suffixes, today's date and a move's date. The browser's storage is outside the model.

## Model

| member | source | states |
|---|---|---|
| Store.InventoryStore.constructor | context/InventoryContext.tsx:29-31 | the store holds exactly the three given collections |
| Store.InventoryStore.AddProduct | context/InventoryContext.tsx:66-75 | the product is appended, with its breakdown seeded; moves and locations are unchanged |
| Accounting.WithInitialLocationStock | context/InventoryContext.tsx:68-71 | the breakdown is `{location: stockLevel}` exactly when stockLevel > 0, else empty; every other field is kept |
| Store.InventoryStore.UpdateProduct | context/InventoryContext.tsx:77-81 | every product with the id is replaced; the rest of the store is unchanged |
| Accounting.ReplaceByKey | context/InventoryContext.tsx:78 | the `map` with an id test behind `updateProduct` and `updateMove`: the length is kept; each position holds the new record if its key matches the new record's, else the old one |
| Store.InventoryStore.DeleteProduct | context/InventoryContext.tsx:83-87 | the products left are exactly the old ones whose id differs, in order |
| Store.InventoryStore.AddMove | context/InventoryContext.tsx:89-93 | the move is prepended |
| Store.InventoryStore.UpdateMove | context/InventoryContext.tsx:95-99 | every move with the id is replaced |
| Store.InventoryStore.DeleteMove | context/InventoryContext.tsx:101-105 | the moves left are exactly the old ones whose id differs |
| Store.InventoryStore.AddLocation | context/InventoryContext.tsx:107-111 | the name is appended |
| Store.InventoryStore.RemoveLocation | context/InventoryContext.tsx:113-117 | every occurrence of the name is removed and the others are kept in order |
| Seqs.Filter | context/InventoryContext.tsx:84 | `filter` keeps exactly the elements satisfying the predicate, and never lengthens |
| Seqs.FilterKeepsAll | pages/Operations.tsx:77-78 | a filter whose predicate holds everywhere returns the sequence itself |
| Seqs.FilterTwice | pages/Operations.tsx:87-88 | filtering twice equals filtering once by the conjunction |
| Seqs.FilterDisjointCount | context/InventoryContext.tsx:249-254 | two disjoint filters together count at most the whole |
| Seqs.FilterSplitCount | pages/Operations.tsx:99 | a filter by a disjunction of disjoint predicates counts the sum of both |
| Seqs.FilterCountsPositions | context/InventoryContext.tsx:242-256 | a filter keeps exactly as many elements as there are positions whose element passes the test |
| Accounting.ReservedStock | context/InventoryContext.tsx:120-126 | `getReservedStock` equals the move-by-move sum of what each Ready delivery reserves of the product, and is non-negative when line quantities are |
| Accounting.ReadyLinesPerMoveSum | context/InventoryContext.tsx:121-125 | the `filter`/`flatMap`/`reduce` chain equals the sum, over Ready deliveries, of each move's quantities for the product |
| Accounting.SumQuantityAppend | context/InventoryContext.tsx:123-125 | the line sum is additive over concatenation |
| Accounting.FreeToUse | context/InventoryContext.tsx:129-134 | 0 for an unknown product; otherwise the first such product's on-hand minus the per-move reservation, with no clamp |
| Accounting.FreeToUseAtMostOnHand | context/InventoryContext.tsx:129-134 | free-to-use is 0 for an unknown product and at most its on-hand stock otherwise (it may be negative) |
| Accounting.IndexOfKey | context/InventoryContext.tsx:177 | `findIndex` by id, and `find` by id on products and moves (as at :130 and :138): -1 exactly when no record has the key, else the first index with it |
| Accounting.WithStatus | context/InventoryContext.tsx:162 | every move with the id gets the status and nothing else changes |
| Accounting.CheckedMoves | context/InventoryContext.tsx:137-165 | the moves keep their count; each is unchanged or, when it carries the id, re-stamped Ready or Waiting; any change means the id names a delivery |
| Store.InventoryStore.CheckAvailability | context/InventoryContext.tsx:137-165 | the loop over the lines leaves the moves equal to `CheckedMoves` of the old state; products and locations are unchanged |
| Accounting.CheckAvailabilityOutcome | context/InventoryContext.tsx:138-162 | no-op for a missing or non-delivery move; otherwise every move with the id becomes Ready or Waiting (whatever its status was) and no other move changes |
| Accounting.CheckAgreesWithFreeToUse | context/InventoryContext.tsx:143-161 | for a delivery that is not itself a Ready delivery and whose products exist, Ready holds exactly when every line fits in its product's free-to-use stock |
| Accounting.OthersIgnoreOwnStatus | context/InventoryContext.tsx:148-152 | the reservations held by other moves do not depend on the checked move's own status |
| Accounting.CheckAvailabilityIdempotent | context/InventoryContext.tsx:137-165 | checking twice gives the same moves as checking once |
| Accounting.StockDelta | context/InventoryContext.tsx:210-225 | a line changes on-hand stock by +q, -q or 0 |
| Accounting.TakeFromSource | context/InventoryContext.tsx:192-202 | a present, non-zero source entry loses q and is dropped when no longer positive; a zero entry is kept; an absent one stays absent; other keys are unchanged |
| Accounting.PutAtDestination | context/InventoryContext.tsx:205-207 | the destination gains q (starting from 0) unless it is Vendor, Customer or Scrap; other keys are unchanged |
| Accounting.MoveLocationStockNonNegative | context/InventoryContext.tsx:184-207 | a breakdown with no negative entry keeps none after a line of non-negative quantity |
| Store.LineUpdate | context/InventoryContext.tsx:184-225 | the in-place edit of the copied breakdown and of `newStock` yields exactly the source-then-destination update and stock plus `StockDelta` |
| Store.StoreLine | context/InventoryContext.tsx:180-231 | the found product, at its index in the working copy, is replaced by the product with this one line applied (`LineApplied`), and every other entry is kept |
| Store.ApplyMoveLines | context/InventoryContext.tsx:174-231 | the loop over the lines, which skips a line whose product is missing, leaves the working copy equal to `ApplyLines` of all the lines |
| Accounting.ApplyLine | context/InventoryContext.tsx:176-231 | a line keeps the number of products and their ids |
| Accounting.ApplyLines | context/InventoryContext.tsx:174-231 | applying the lines in order keeps the number of products and their ids |
| Store.InventoryStore.ValidateMove | context/InventoryContext.tsx:169-240 | the loop leaves products and moves equal to `Validated` of the old state; locations are unchanged |
| Accounting.Validated | context/InventoryContext.tsx:169-240 | products keep their count and ids; each move is unchanged or, when it carries the id, re-stamped Done; once moves change, products are the found move's lines applied in order |
| Accounting.ValidateOutcome | context/InventoryContext.tsx:170-171 | no-op for a missing or Done move; otherwise every move with the id becomes Done and no other move changes |
| Accounting.ValidateIdempotent | context/InventoryContext.tsx:169-240 | validating twice is validating once |
| Accounting.ApplyLinesLeavesOthers | context/InventoryContext.tsx:174-231 | a product that no line mentions is unchanged |
| Accounting.FindProductAfterApply | context/InventoryContext.tsx:177-178 | applying lines never changes which index `findIndex` returns |
| Accounting.StockLevelAccumulates | context/InventoryContext.tsx:174-231 | a product's final on-hand is its initial one plus the deltas of all its lines, so lines for the same product add up |
| Accounting.InternalTransferKeepsStock | context/InventoryContext.tsx:219-220 | a warehouse-to-warehouse move that is not an adjustment leaves every on-hand total unchanged |
| Accounting.ApplyLinesNonNegative | context/InventoryContext.tsx:184-207 | validation keeps every breakdown free of negative entries when quantities are non-negative |
| Accounting.KpiBounds | context/InventoryContext.tsx:242-256 | total products is the number of products; low stock is at most that; the late, to-do and waiting counts never overlap within the moves |
| Accounting.Kpis | context/InventoryContext.tsx:242-256 | `getKPIs`: total products is the product count; each other count is the number of positions whose product or move passes its test (low stock, late receipt, receipt to receive, late delivery, Ready delivery, waiting delivery), so it is at most its collection; the low-stock count and the deliveries to deliver are positive when some low-stock product or Ready delivery exists |
| Accounting.IsLate | context/InventoryContext.tsx:249-252 | a late move needs a non-empty today and a schedule date other than today |
| Accounting.UndatedOpenMoveIsLate | context/InventoryContext.tsx:249 | an open move without schedule date is late for any non-empty today |
| Accounting.ClosedMoveNeverLate | context/InventoryContext.tsx:252 | a Done or Cancelled move is never late |
| Text.Lower | pages/Products.tsx:63-65 | lower-casing keeps the length and maps every character by the ASCII rule |
| Text.LowerIdempotent | pages/Products.tsx:63 | lower-casing twice is lower-casing once |
| Text.ContainsIffOccurs | pages/Products.tsx:64-65 | `includes` holds exactly when the term occurs at some offset |
| Text.ContainsEmpty | pages/Operations.tsx:78 | every string includes the empty string |
| Text.EmptyIsLeast | context/InventoryContext.tsx:249 | `''` is below every non-empty string and nothing is below `''` |
| Text.LessTransitive | pages/Products.tsx:343 | string order is transitive |
| Text.LessTotal | pages/Products.tsx:343 | two strings are equal or ordered one way |
| Text.LessAsymmetric | pages/Products.tsx:343 | string order is asymmetric |
| Text.NotLessTransitive | pages/Products.tsx:343 | "not below" is transitive |
| Text.IntToString | pages/StockLedger.tsx:54 | a quantity's decimal text is non-empty and starts with '-' exactly when it is negative |
| Text.NatToStringRoundTrip | pages/StockLedger.tsx:54 | the decimal text of a natural number reads back as that number |
| Text.SignedText | pages/StockLedger.tsx:54 | the signed quantity starts with '+' exactly for incoming, else '-' |
| Text.SignedTextReadsBack | pages/Products.tsx:369 | the digits after the sign give back a non-negative quantity |
| ProductsPage.FilteredProducts | pages/Products.tsx:61-69 | no longer than the catalogue; a product is listed exactly when it is in the store, its lower-cased name or SKU includes the lower-cased term, and it is low on stock if the toggle is on |
| ProductsPage.FilteredProductsMembership | pages/Products.tsx:61-69 | membership restated against `includes` at some offset: a product is listed exactly when the term occurs in its lower-cased name or SKU (and it is low on stock if the toggle is on) |
| ProductsPage.EmptySearchListsAll | pages/Products.tsx:61-69 | with no term and no toggle every product is listed, in order |
| ProductsPage.SearchIgnoresCase | pages/Products.tsx:63 | the list does not depend on the case of the term |
| ProductsPage.LowStockViewMatchesKpi | pages/Products.tsx:66 | the low-stock view lists as many products as the dashboard's low-stock count |
| ProductsPage.AdjustQty | pages/Products.tsx:115-117 | the target becomes `max(0, prev + amount)` |
| ProductsPage.ShiftedBreakdown | pages/Products.tsx:147-150 | the `WH/Stock` entry is shifted by the difference and dropped when not positive; other entries are unchanged |
| ProductsPage.AdjustmentMove | pages/Products.tsx:127-142 | a Done adjustment with an `INV/ADJ/` reference, from `Inventory Adjustment` to `WH/Stock` exactly when diff > 0 and the reverse otherwise, with one line of `abs(diff)` for the product, carrying a lot exactly when the product is tracked |
| ProductsPage.AdjustedProduct | pages/Products.tsx:145-156 | the snapshot with on-hand set to the target; every other field kept, and every breakdown entry but `WH/Stock` kept |
| ProductsPage.HandleQtyUpdate | pages/Products.tsx:119-160 | nothing changes without a selection or a difference; otherwise the adjustment move is prepended and the product replaced by its adjusted snapshot |
| ProductsPage.AdjustmentMoveRecordsDifference | pages/Products.tsx:127-142 | the move is a Done adjustment with one line of `abs(diff)` for the product, with a lot exactly when tracked, and its effect under the store's rule is exactly `diff` |
| ProductsPage.AdjustmentMoveIsFinal | pages/Products.tsx:131 | validating the recorded adjustment later changes nothing, so the difference is never applied twice |
| ProductsPage.QuickAdjustReachesTarget | pages/Products.tsx:152-156 | afterwards the product's on-hand equals the target and its non-`WH/Stock` entries are kept |
| ProductsPage.FindAfterReplace | pages/Products.tsx:152-156 | after replacing a present product, `find` by its id returns the new record |
| ProductsPage.HandleSubmit | pages/Products.tsx:162-181 | nothing is saved unless both name and SKU are non-empty; then the product is updated or appended with a fresh id |
| ProductsPage.InsertByDateElements | pages/Products.tsx:343 | inserting keeps the multiset of moves plus the new one |
| ProductsPage.InsertByDateSorted | pages/Products.tsx:343 | inserting into a date-descending list keeps it date-descending |
| ProductsPage.SortByDateDescCorrect | pages/Products.tsx:343 | the sort yields a date-descending permutation |
| ProductsPage.InsertByDateStable | pages/Products.tsx:343 | inserting a move passes only moves of a strictly later date, so it stays ahead of the moves of its own date |
| ProductsPage.SortByDateDescStable | pages/Products.tsx:343 | the sort is stable: the moves of any one date come out in their input order |
| ProductsPage.History | pages/Products.tsx:341-343 | the history is date-descending, holds, as a multiset, exactly the moves with a line for the product, and lists the moves of one date in store order |
| ProductsPage.HistoryContents | pages/Products.tsx:341-343 | a move is in the history exactly when it is in the store and has a line for the product |
| ProductsPage.FirstLineFor | pages/Products.tsx:345 | `find` on the lines yields a line exactly when one is for the product, and then the first line for it: no earlier line has that product |
| ProductsPage.EntriesOfOnePerMove | pages/Products.tsx:344-369 | one row per history move, in order, with the move's first line for the product |
| ProductsPage.HistoryEntries | pages/Products.tsx:341-369 | one row per history move, in history order, showing that move's first line for the product |
| ProductsPage.HistoryEntriesOnePerMove | pages/Products.tsx:349-369 | each history row is signed '+' exactly when the move is a receipt or its destination mentions `WH/Stock` |
| OperationsPage.BaseFilteredMoves | pages/Operations.tsx:74-86 | a move is in the base list exactly when it is in the store, matches the type filter and matches the search |
| OperationsPage.FilteredMoves | pages/Operations.tsx:87-103 | no longer than the base list; a move is listed exactly when it passes the type, search and status tests |
| OperationsPage.FilteredMovesIsOneFilter | pages/Operations.tsx:87-103 | the list is one filter of the store by type, search and status, and a subset of the base list |
| OperationsPage.NoFiltersListAll | pages/Operations.tsx:74-103 | with type 'All', no term and no status every move is listed |
| OperationsPage.UnknownStatusFilterKeepsBase | pages/Operations.tsx:89-101 | an unknown status filter keeps the whole base list |
| OperationsPage.LateListsMatchKpis | pages/Operations.tsx:91-93 | the 'late' receipts and deliveries listed are exactly as many as the dashboard's late counts |
| OperationsPage.TodoDeliveriesMatchKpis | pages/Operations.tsx:98-99 | the 'todo' deliveries are the dashboard's deliveries to deliver plus its waiting ones |
| OperationsPage.KanbanColumn | pages/Operations.tsx:180 | a column holds exactly the base moves with its status |
| OperationsPage.KanbanPlacement | pages/Operations.tsx:180 | a move is in its own status's column and in no other; a cancelled move is in none of the four columns |
| OperationsPage.SaveMove | pages/Operations.tsx:134-170 | nothing is saved exactly when no product is found; otherwise the move has one line for the selected product and quantity, and the save updates exactly when the dialog is in edit mode with a non-empty editing id and adds a new move otherwise; a new move is a Draft with the new id, today's date and the form's contact and schedule date; an edit keeps every field of the form but the lines |
| OperationsPage.NewMoveShape | pages/Operations.tsx:154-166 | a new move is a Draft with the form's type and locations, reference `WH/IN/` exactly for receipts and `WH/OUT/` exactly for deliveries, and one line with a lot exactly for tracked products |
| OperationsPage.EditKeepsMove | pages/Operations.tsx:139-152 | an edit keeps every field but the lines, which become the one new line reusing the old first line's id |
| OperationsPage.ListActions | pages/Operations.tsx:363-373 | a row offers Validate exactly for a Ready move or a Draft receipt, Check exactly for a Draft or Waiting delivery, never delete, and nothing for a Done or Cancelled move |
| OperationsPage.ModalActions | pages/Operations.tsx:404-420 | the dialog offers nothing for a Done move, and otherwise delete plus exactly the list's actions |
| OperationsPage.KanbanActions | pages/Operations.tsx:219-223 | a card offers Validate exactly in the Ready column, and nothing else |
| OperationsPage.ActionsAgree | pages/Operations.tsx:363-373 | a Done move offers nothing anywhere; the dialog offers the list's actions plus delete; a Kanban card offers no more than the list |
| OperationsPage.DraftTransferOffersNoStep | pages/Operations.tsx:404-419 | a Draft internal transfer or adjustment offers only delete |
| OperationsPage.OfferedValidateCommits | pages/Operations.tsx:221 | an offered Validate is never a no-op: the lines are applied and the move becomes Done |
| OperationsPage.OfferedCheckDecides | pages/Operations.tsx:366-367 | an offered Check always sets the move's status by the availability rule |
| OperationsPage.NewMoveOffersFirstStep | pages/Operations.tsx:363-367 | a new receipt can be validated and a new delivery checked straight away |
| Csv.DoubleQuotes | pages/StockLedger.tsx:66 | collapsing each `""` of the result gives the field back, and the field grows by exactly one character per quote |
| Csv.Escape | pages/StockLedger.tsx:66 | the escaped field starts and ends with a double quote, and is the field plus one character per quote in it plus the two enclosing quotes |
| Csv.QuotedBodyRoundTrip | pages/StockLedger.tsx:66 | collapsing doubled quotes up to the closing quote gives back the field and the rest |
| Csv.FieldRoundTrip | pages/StockLedger.tsx:66 | every escaped field reads back as the original text |
| Csv.RowRoundTrip | pages/StockLedger.tsx:56-66 | a non-empty row of escaped fields joined by commas reads back as the fields |
| Csv.RecordsRoundTrip | pages/StockLedger.tsx:70 | rows joined by line feeds read back as the rows |
| Csv.SplitJoin | pages/StockLedger.tsx:70 | a header line of comma-free names splits back into the names |
| Csv.Document | pages/StockLedger.tsx:70 | the text is the comma-joined header line alone when there are no rows, and otherwise the header line, a line feed and the row lines joined by line feeds |
| Csv.DocumentRoundTrip | pages/StockLedger.tsx:70 | a whole export reads back as its headers and rows |
| StockLedger.LineRows | pages/StockLedger.tsx:25 | a move yields one row per line, in line order |
| StockLedger.RowCount | pages/StockLedger.tsx:24-25 | the rows are as many as the lines of all moves |
| StockLedger.RowOfLine | pages/StockLedger.tsx:24-25 | line j of move i is row `TotalLines(ms[..i]) + j`, so the rows follow move order and then line order |
| StockLedger.AllRowsFromMoves | pages/StockLedger.tsx:24-25 | every row pairs a move with one of its own lines |
| StockLedger.FilteredRows | pages/StockLedger.tsx:21-34 | no more rows than lines; a row is listed exactly when the term is empty or the reference, contact, product name, lot or status contains the lower-cased term |
| StockLedger.EmptySearchListsAllRows | pages/StockLedger.tsx:27 | an empty term lists every row in order |
| StockLedger.LedgerSearchIgnoresCase | pages/StockLedger.tsx:22 | the rows listed do not depend on the case of the term |
| StockLedger.ReferenceSearchListsMove | pages/StockLedger.tsx:29 | searching a move's reference lists every line of that move |
| StockLedger.StatusSearchListsRows | pages/StockLedger.tsx:33 | searching a status label lists every row of a move in that status |
| StockLedger.ExportRows | pages/StockLedger.tsx:52-67 | one record of fields per listed row, in order |
| StockLedger.ExportCsv | pages/StockLedger.tsx:70 | the file starts with the header line, and a line feed follows it exactly when some row is listed |
| StockLedger.LedgerIncoming | pages/StockLedger.tsx:53 | deliveries and internal transfers are never incoming, whatever their locations, and an adjustment is incoming only into exactly `WH/Stock` |
| StockLedger.SignedQuantity | pages/StockLedger.tsx:53-54 | the Quantity field starts with '+' exactly when the ledger rule calls the move incoming, and its digits read back as a non-negative quantity |
| StockLedger.RowFields | pages/StockLedger.tsx:56-65 | a row's nine fields hold its reference, date, contact (or ''), product name, lot (or ''), source, destination, signed quantity (sign and digits) and status label |
| StockLedger.ExportRoundTrip | pages/StockLedger.tsx:37-70 | the export reads back as exactly the nine headers and the exported records of the listed rows, so each record gives back its row's reference, date, contact, product name, lot, source, destination, the ledger's sign, the quantity and the status |
| StockLedger.SignRulesDisagree | pages/StockLedger.tsx:53 | on an adjustment into a shelf below `WH/Stock`, and on a delivery from a vendor into `WH/Stock`, the store adds stock and the history shows '+' but the ledger shows '-' |
| StockLedger.QuickAdjustmentSignsAgree | pages/Products.tsx:132-133 | for the quick adjustment's move, all three rules give the direction of the difference |
| StockLedger.StandardFlowsAgree | context/InventoryContext.tsx:210-225 | receipts from outside the warehouses and deliveries to outside them are signed alike by all three rules |

## Left out

- Persistence: loading and saving the collections in the browser's local storage, the JSON encoding and the seed fallback and reset (`context/InventoryContext.tsx:35-64`). The constructor takes the loaded collections instead.
- The seed data in `constants.ts`. It is data, not logic.
- Authentication, the login page, the barcode scanner, the dashboard's charts and its floating-point valuation, the layout, navigation and settings forms. All JSX rendering, debounce timers and notification timeouts.
- The download of the export (Blob, object URL, anchor click) and its dated file name. The model stops at the text.
- The clock: `Date.now()` ids and references, and `new Date()` for today and for a move's date, are parameters.
- `Text.Lower`: only ASCII letters are lower-cased. JavaScript's `toLowerCase` also maps other Unicode letters, which a search for them would reach.
- `Text.Less`: compares strings by Unicode code point. JavaScript's `<` compares UTF-16 code units, and the two orders differ only for characters above U+FFFF.
- `ProductsPage.SortByDateDesc`: orders dates as strings. The source compares `new Date(...)` timestamps, which agree on the ISO `YYYY-MM-DD` dates the store writes. Unparsable dates (NaN comparisons) are not modelled.
- `Csv.DocumentRoundTrip`: the reader used to state the round trip is defined only for exports whose rows have at least one field and whose headers hold no comma or line feed. The ledger's rows have nine fields and its headers are plain.
- Line endings: the export joins lines with a bare line feed, not the CR LF of section 2 of RFC 4180. The model does the same and does not relate the text to a CR LF reader.
- Numbers: quantities and stock are unbounded integers and `cost` is a real that no modelled operation uses. JavaScript number precision, NaN and fractional quantities typed into the forms are not modelled.
- An absent `locationStock` is not distinguished from an empty one, since every reader falls back to `{}`.
- Object keys that collide with JavaScript's prototype properties (a location named `__proto__`) are not modelled. The breakdown is a plain map.
- The store's getters `GetReservedStock`, `GetFreeToUse` and `GetKpis` only delegate to the `Accounting` functions. Their properties are stated there.
