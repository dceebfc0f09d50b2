# Verified model of the warehouse core

This project models the parts of a spare-parts warehouse system in which stock,
money and addresses can go wrong, and proves what they keep:

* the **stock engine** (`stock_engine.dfy`), the only place where quantities change, and its
  **movement log** (`stock_ledger.dfy`), read back by the **kardex** (`kardex.dfy`);
* the callers that loop over the engine: **stock counts** (`inventory_count.dfy`) and the **removal of
  locations** (`location_removal.dfy`);
* the **concurrent protocols**: the lock order of multi-line transactions (`lock_order.dfy`), the
  approval of pending operations (`pending_operations.dfy`) and the image search queue
  (`search_queue.dfy`);
* the **location tree**: parent links (`location_forest.dfy`), codes (`location_codes.dfy`), the builder
  (`location_builder.dfy`), the program's own locations (`system_locations.dfy`), the path-prefix query
  (`subtree_query.dfy`) and the printed path (`location_path.dfy`);
* the **encoders**: the hand-written PDF (`roll_pdf.dfy`), the printer bitmap (`tspl_bitmap.dfy`) and the
  image hash (`perceptual_hash.dfy`);
* **scoring and rounding**: the product matcher (`product_matcher.dfy`), cheque charges and currency
  conversion (`money.dfy`).

`wrappers.dfy`, `arithmetic.dfy`, `order.dfy`, `words.dfy`, `sums.dfy` and `decimal.dfy` hold the shared vocabulary.

How the source is represented:

* A database table is a map or a sequence, in a class field where the service updates it. A service method
  that changes tables is a method proved against a specification function (`InventoryOperations.Execute`
  against `StockEngine.Step`); the results about runs are then lemmas about that function.
* One call of the engine is one atomic step. The concurrent protocols are state machines whose steps are the
  single database statements; every interleaving of any number of callers is a run.
* Identifiers are strings. Clocks, fresh identifiers, image decoding, compression, text normalisation and the
  list of match candidates are parameters. Empty strings count as absent where the source tests truthiness.
* Whole numbers are unbounded. `Number(x)` is either a whole number or anything else.

Results are stated on the fields of the records and on the source's own constants, not through the functions
that compute them: a product matches a part when the names say so (`CandidateIs`), a row is cleared when the
request says so (`EntryClearsShortages`), and a basket locks the rows that its lines name (`StartLocks`).

Where a property does not always hold, its exact condition is proved:

* An entry starts from `max(0, old)` exactly if its location belongs to a warehouse or held no shortage
  (`EntryStartsFromZeroIff`). The column is nullable, but every writer of a location stores a warehouse, so the
  failing case needs older data.
* A run keeps all stock at zero or above exactly if none of its calls is a sale or withdrawal that is allowed to
  go negative and does (`RunNonNegativeIff`). The comments say that only sales may; the engine, which is followed,
  takes `allowNegative` for `OUT` as well, although no caller in the repository passes it with `OUT`.
* A rejection on an out-of-date check keeps the approval protocol's invariant exactly if it does not hit an
  approved operation (`LateRejectInvariantIff`); `LateRejectBreaksApproval` is a run in which it does. A commit
  whose reply is lost keeps it exactly if there was nothing to commit (`LostReplyInvariantIff`); otherwise the claim
  is released and the next approval writes a second row (`LostReplyWritesTwice`).
* The kardex summary is the change of the balance for every history exactly if the range has no gap, that is,
  starts at most one tick after its end (`SummaryIsBalanceChangeIff`); in general it is off by the movements in
  the gap (`SummaryUpToGap`).
* The path-prefix query agrees with the parent links exactly if each parent link accounts for the paths that its
  child continues (`QueryIsRightIff`); for names without angle bracket, exactly if no location that has a child
  shares its path with another and no root continues a path (`PlainQueryIsRightIff`, `AddressedQueryIsRightIff`).
  What the builder, given names without angle bracket, and the program itself write meets this when the
  warehouses' codes are apart (`BuiltQueryIsRight`). Hand-made names may not:
  `FreeNamesMislead` and `SameNamesMislead`.
* A page of the PDF repeats a name in its picture dictionary exactly if two of its labels share a decodable
  code (`PictureNamesDistinctIff`).
* On stock that has changed since it was read, the transfer that empties a subtree goes through exactly if every
  row still holds what was read (`StaleTransferDoneIff`), and leaves nothing on the subtree exactly if no row there
  has grown beyond it (`StaleTransferEmptiesIff`). A write-off always goes through, and leaves nothing exactly if no
  other row has come to hold stock (`StaleWriteOffEmptiesIff`).
* A count is applied in full exactly if no product's total is negative (`Apply`), which is always so for items
  with quantities at or above zero, as the item endpoint demands (`StoredItemsAreAccepted`). Only with an
  item below zero can the adjustments before a negative total stay behind (`NegativeTotalStopsMidway`).

## Model

| member | source | states |
|---|---|---|
| StockEngine.InventoryOperations.Execute | apps/api/src/inventory-operation/inventory-operation.service.ts:111-600 | One call, carried out on the mutable tables, is exactly the specified step; a refused call changes nothing |
| StockEngine.InventoryOperations.ZeroOut | apps/api/src/inventory-operation/inventory-operation.service.ts:88-108 | The clearing loop sets exactly the given rows of the product to zero and logs the opposite of each |
| StockEngine.InventoryOperations.ZeroOutNegatives | apps/api/src/inventory-operation/inventory-operation.service.ts:62-109 | All shortages of the product in the location's warehouse are cleared in location order; nothing happens without a warehouse |
| StockEngine.InventoryOperations.Enter | apps/api/src/inventory-operation/inventory-operation.service.ts:248-308 | An entry or return, with clearing only for an entry that is no purchase and has clearing on |
| StockEngine.InventoryOperations.TakeIfEnough | apps/api/src/inventory-operation/inventory-operation.service.ts:342-358 | The conditional decrement succeeds if and only if the row holds enough, and otherwise leaves it |
| StockEngine.InventoryOperations.Withdraw | apps/api/src/inventory-operation/inventory-operation.service.ts:314-408 | A withdrawal or sale, from a missing row below zero when negative stock is allowed |
| StockEngine.InventoryOperations.Relocate | apps/api/src/inventory-operation/inventory-operation.service.ts:414-523 | A transfer, onto itself included, with its two log rows |
| StockEngine.InventoryOperations.SetTo | apps/api/src/inventory-operation/inventory-operation.service.ts:529-595 | An adjustment sets the quantity and logs the difference unless it is zero |
| StockLedger.StepAgrees | apps/api/src/inventory-operation/inventory-operation.service.ts:111-600 | Each call of any kind and with any arguments keeps every quantity equal to the signed sum of its log rows |
| StockLedger.CallRefusedIff | apps/api/src/inventory-operation/inventory-operation.service.ts:142-195 | When a call is refused, in the terms of the request and of the stock row, and with which error; an unknown session comes first |
| StockLedger.CallMovesRows | apps/api/src/inventory-operation/inventory-operation.service.ts:248-595 | What a call that clears nothing does to every stock row, by kind: purchases, returns and entries with clearing off add exactly q to their row |
| StockLedger.ReplyTellsState | apps/api/src/inventory-operation/inventory-operation.service.ts:299-593 | The reply is the quantity that the row, or a transfer's destination, now holds, and where the call was logged; for an adjustment the old and new quantity and their difference |
| StockLedger.LedgerMatchesStock | apps/api/src/inventory/inventory.service.ts:429-436 | From empty tables, after any calls, every quantity is the sum of its log rows signed as the kardex decodes them, and a row without stock entry has no log |
| StockLedger.TransferNotesDecode | apps/api/src/inventory-operation/inventory-operation.service.ts:484-509 | The notes that a transfer writes are decoded by the kardex as one leaving and one arriving movement |
| StockLedger.LogIsAppendOnly | apps/api/src/inventory-operation/inventory-operation.service.ts:244-247 | In any run the earlier log stays a prefix of the later one |
| StockLedger.CallIsLogged | apps/api/src/inventory-operation/inventory-operation.service.ts:294-579 | What a call without clearing logs, each kind written out: its rows, its action, the amount and the note; nothing for an adjustment to the same value |
| StockLedger.StepNonNegativeIff | apps/api/src/inventory-operation/inventory-operation.service.ts:332-376 | One call takes stock below zero if and only if it is a sale or withdrawal that is allowed to and takes more than the row holds |
| StockLedger.RunNonNegativeIff | apps/api/src/inventory-operation/inventory-operation.service.ts:332-376 | A run keeps every quantity at zero or above all the way if and only if none of its calls does so |
| StockLedger.RunNonNegative | apps/api/src/inventory-operation/inventory-operation.service.ts:332-376 | In particular runs without leave to go negative |
| StockLedger.EntryClearsShortages | apps/api/src/inventory-operation/inventory-operation.service.ts:248-308 | After an entry that is no purchase, with clearing on, the target holds max(0, old) + q if its location has a warehouse, no row of the product there is negative, and every other row is as before |
| StockLedger.EntryStartsFromZeroIff | apps/api/src/inventory-operation/inventory-operation.service.ts:71-76 | The target ends at max(0, old) + q if and only if its location has a warehouse or held no shortage |
| StockLedger.ClearingIsLogged | apps/api/src/inventory-operation/inventory-operation.service.ts:78-108 | One adjustment per cleared row, the opposite of its shortage, in location order and with the clearing note, before the entry's own row; none where the location has no warehouse |
| StockLedger.TransferKeepsTotals | apps/api/src/inventory-operation/inventory-operation.service.ts:414-523 | A transfer keeps every product's total over all locations |
| StockLedger.TotalIsProductSum | apps/api/src/inventory/inventory.service.ts:465-469 | A product's stock over all locations is the signed sum of its log rows |
| Kardex.BalanceIgnoresFilter | apps/api/src/inventory/inventory.service.ts:421-454 | A line is shown if and only if it passes the filter, and its balance is the signed sum of all movements up to it under every filter |
| Kardex.LinesDescend | apps/api/src/inventory/inventory.service.ts:452 | The lines come newest first, each strictly later than the next |
| Kardex.LinesAreNewestFirst | apps/api/src/inventory/inventory.service.ts:444-452 | A later line was written earlier, or at the same time with the smaller identifier |
| Kardex.NewestLineCloses | apps/api/src/inventory/inventory.service.ts:444-452 | The newest line of a date range carries the closing balance of the range |
| Kardex.NewestBalanceIsStock | apps/api/src/inventory/inventory.service.ts:444-469 | With no filter the newest balance is the product's stock summed over all locations |
| Kardex.KardexMatchesStock | apps/api/src/inventory/inventory.service.ts:444-469 | The same after any calls of the engine from empty tables |
| Kardex.SummaryUpToGap | apps/api/src/inventory/inventory.service.ts:484-505 | For every history and range, total in minus total out is closing minus opening balance plus the movements between the end and a later start |
| Kardex.SummaryIsBalanceChange | apps/api/src/inventory/inventory.service.ts:484-505 | Over a range that starts at most one tick after its end, total in minus total out is closing minus opening balance |
| Kardex.SummaryIsBalanceChangeIff | apps/api/src/inventory/inventory.service.ts:497-504 | It is so for every history if and only if the range is such; otherwise one entry in the gap breaks it |
| Kardex.ReversedRangeIsEmpty | apps/api/src/inventory/inventory.service.ts:497-504 | Over a reversed range both totals are zero and no line is shown |
| Kardex.TotalsAddUpLines | apps/api/src/inventory/inventory.service.ts:497-505 | Each total on its own: what came in is the sum of the positive signed quantities of the range's lines, what went out of the negated negative ones |
| Kardex.PagesCoverLines | apps/api/src/inventory/inventory.service.ts:390-392 | The pages from the first to the last, put together, are the filtered list |
| Kardex.PageHolds | apps/api/src/inventory/inventory.service.ts:390-392 | Line i of page p is line (p - 1) * size + i of the list; size is the limit between 1 and 10000, and 50 if none is given |
| Kardex.LastPageHasLines | apps/api/src/inventory/inventory.service.ts:581 | The last page is the first if there are no lines, and otherwise the last that has any |
| Kardex.AssetsByLog | apps/api/src/inventory/inventory.service.ts:523-529 | The grouping loop gives each movement exactly its photos, in order |
| Kardex.PhotosAreFiltered | apps/api/src/inventory/inventory.service.ts:523-529 | The photos of a movement are those that name it, in the order in which they come |
| InventoryCounts.GroupItems | apps/api/src/inventory-count/inventory-count.service.ts:66-92 | The loop groups the linked items by product in order of first mention, with sums, ids and names, and lists the unlinked ones |
| InventoryCounts.ProductsAreLinked | apps/api/src/inventory-count/inventory-count.service.ts:72-87 | The grouped products are distinct and exactly those that some item is linked to |
| InventoryCounts.ProductsByFirstItem | apps/api/src/inventory-count/inventory-count.service.ts:72-87 | The products come in the order of their first items |
| InventoryCounts.GroupIs | apps/api/src/inventory-count/inventory-count.service.ts:72-87 | A group has the name of the product's first item, the sum of its items' quantities, and their identifiers in order |
| InventoryCounts.UnlinkedAre | apps/api/src/inventory-count/inventory-count.service.ts:72-92 | Reported as unlinked are exactly the items without product, by name and in their order |
| InventoryCounts.InventoryCountService.AdjustAll | apps/api/src/inventory-count/inventory-count.service.ts:94-109 | One adjustment per group with its report line; stops at the first refusal, which happens if and only if some total is negative |
| InventoryCounts.InventoryCountService.Apply | apps/api/src/inventory-count/inventory-count.service.ts:59-116 | Reports all items and marks the count applied if and only if no total is negative, so always when no item is |
| InventoryCounts.AcceptedIff | apps/api/src/inventory-count/inventory-count.service.ts:94-102 | A count goes through if and only if no product's items add up to less than nothing |
| InventoryCounts.LinesReport | apps/api/src/inventory-count/inventory-count.service.ts:103-109 | The report gives what each product held, what it holds, and the difference |
| InventoryCounts.CountIsLogged | apps/api/src/inventory-count/inventory-count.service.ts:94-102 | One adjustment is logged for each product whose stock changes, with the number of merged items in its note |
| InventoryCounts.StoredItemsAreAccepted | apps/api/src/inventory-count/dto/add-item.dto.ts:23-26 | Items with quantities at or above zero never make a negative total |
| InventoryCounts.NegativeTotalStopsMidway | apps/api/src/inventory-count/inventory-count.service.ts:94-109 | With a negative total, the adjustment before it stays and the count is refused |
| InventoryCounts.CountSetsStock | apps/api/src/inventory-count/inventory-count.service.ts:94-109 | Each counted product's stock at the location becomes the sum of its items; no other row changes |
| InventoryCounts.SecondApplyChangesNothing | apps/api/src/inventory-count/inventory-count.service.ts:59-116 | A second apply at once changes neither stock nor log |
| InventoryCounts.ItemOrderIsIrrelevant | apps/api/src/inventory-count/inventory-count.service.ts:72-87 | The order of the items decides neither acceptance nor the resulting stock |
| LockOrder.CompareIsRowOrder | apps/api/src/common/lock-order.ts:64-79 | The comparator orders by product and then by location, a missing location counting as the empty one; it is antisymmetric in sign, and zero if and only if both products and both locations are equal |
| LockOrder.ComparatorIsTotalPreorder | apps/api/src/common/lock-order.ts:64-79 | The comparator is a total preorder for any key function |
| LockOrder.InLockOrderIsSortedCopy | apps/api/src/common/lock-order.ts:60-80 | The result holds exactly the given lines, sorted by product and then by location |
| LockOrder.InLockOrderIsStable | apps/api/src/common/lock-order.ts:60-80 | Lines of one row keep the order in which they were given |
| LockOrder.SameRowsSameOrder | apps/api/src/common/lock-order.ts:49-63 | Two baskets of different shape with the same rows lock them in the same order |
| LockOrder.StartLocks | apps/api/src/common/lock-order.ts:49-63 | A transaction locks exactly the pairs of product and location that its basket names, in order |
| LockOrder.NoRowIsHeldTwice | apps/api/src/common/lock-order.ts:60-80 | However the transactions interleave, each asks for its basket's rows and no row is held by two |
| LockOrder.OrderedLocksNeverDeadlock | apps/api/src/common/lock-order.ts:60-80 | Any number of transactions that lock in this order and hold to commit are never stuck before all are finished, and a run has finished exactly when it has taken one step for each line and each commit |
| LockOrder.UnorderedLocksCanDeadlock | apps/api/src/common/lock-order.ts:60-80 | Without the order two transactions over two rows can block each other |
| PendingOperations.ApprovedExactlyOnce | apps/api/src/pending-operations/pending-operations.service.ts:330-429 | For any number of interleaved approvals, any steps that fail without effect and any rejection that does not hit an approved operation, at most one stock row is written; at rest APPROVED holds if and only if one was, with the stored product, quantity and location |
| PendingOperations.ApprovalIsTheWinners | apps/api/src/pending-operations/pending-operations.service.ts:348-386 | In every run, for entries and counts: while the operation is APPROVED its product and quantity are those of the caller whose update went through, the manager's where given and else what that caller has read; and whatever is read was there at the start or is some manager's |
| PendingOperations.ApprovalOverridesTheStart | apps/api/src/pending-operations/pending-operations.service.ts:348-386 | As long as no claim is released, and always for a count, what that caller has read is what was stored at the start |
| PendingOperations.RowIsTheWinners | apps/api/src/pending-operations/pending-operations.service.ts:389-403 | So the stock row that is written has the winner's product and quantity, at the location of the start |
| PendingOperations.ApproveAlone | apps/api/src/pending-operations/pending-operations.service.ts:336-429 | One undisturbed approval in every case: what it answers, stores and logs |
| PendingOperations.ApproveAloneMovesStock | apps/api/src/pending-operations/pending-operations.service.ts:389-403 | Its entry adds the quantity to its row and clears the product's shortages in the warehouse |
| PendingOperations.RejectionIsFinal | apps/api/src/pending-operations/pending-operations.service.ts:492-506 | After a rejection that finds the operation PENDING it stays REJECTED and nothing is ever written |
| PendingOperations.StepInvariant | apps/api/src/pending-operations/pending-operations.service.ts:364-429 | Each step of claim, execution, release and link keeps a single owner of the claim and the facts that each caller relies on |
| PendingOperations.CountNeverTouchesStock | apps/api/src/pending-operations/pending-operations.service.ts:343-362 | Whatever the callers of a COUNT do, the stock is what all other calls make of it |
| PendingOperations.LateRejectInvariantIff | apps/api/src/pending-operations/pending-operations.service.ts:492-506 | The update of a rejection, after an out-of-date check, keeps the invariant, and at rest the equivalence, if and only if the operation is not approved |
| PendingOperations.LateRejectBreaksApproval | apps/api/src/pending-operations/pending-operations.service.ts:492-506 | A run in which it hits an approved operation, leaving REJECTED with one stock row written |
| PendingOperations.LostReplyInvariantIff | apps/api/src/pending-operations/pending-operations.service.ts:393-413 | An execution that commits but reports an error keeps the invariant if and only if the engine refused the entry |
| PendingOperations.LostReplyWritesTwice | apps/api/src/pending-operations/pending-operations.service.ts:393-413 | A run in which the claim is then released, and a second approval writes a second row |
| SearchQueue.StepInvariant | apps/api/src/product-images/product-images.service.ts:407-457 | Each step keeps: one worker per running job, attempts within the limit, failed exactly when used up |
| SearchQueue.RunsAreBounded | apps/api/src/product-images/product-images.service.ts:414-423 | However workers interleave, no job is worked on by two, and it is run at most its number of attempts |
| SearchQueue.DrainingEnds | apps/api/src/product-images/product-images.service.ts:399-465 | Draining a fixed queue takes a bounded number of steps |
| SearchQueue.DrainedQueue | apps/api/src/product-images/product-images.service.ts:435-452 | When no step is left every job is COMPLETED or FAILED; FAILED after exactly its number of attempts, and a job that never went through is FAILED |
| SearchQueue.CompletedIffSucceeded | apps/api/src/product-images/product-images.service.ts:425-452 | When the database does not fail, a drained queue has COMPLETED exactly the jobs whose search went through |
| LocationForest.CollectSubtreeLevels | apps/api/src/locations/locations.service.ts:210-224 | On an acyclic table the walk ends, and level i is exactly the descendants at distance i, none missing |
| LocationForest.LevelsAreSubtree | apps/api/src/locations/locations.service.ts:210-224 | The levels are pairwise disjoint and together are the whole subtree |
| LocationForest.LevelsDisjoint | apps/api/src/locations/locations.service.ts:208-209 | No location is at two distances from the root |
| LocationForest.DeleteLevels | apps/api/src/locations/locations.service.ts:411-415 | Deleting from the last level to the first removes exactly the subtree and each deletion meets the foreign key |
| LocationForest.BottomUpIsSafe | apps/api/src/locations/locations.service.ts:411-415 | When a level is deleted no child of it is left |
| LocationForest.TopDownFails | apps/api/src/locations/locations.service.ts:208-209 | The other way round the first deletion of a root with children is refused |
| LocationForest.RemovalKeepsForest | apps/api/src/locations/locations.service.ts:411-415 | The rest is still a forest with all parents present |
| LocationRemoval.LocationsService.StockOnSubtree | apps/api/src/locations/locations.service.ts:251-262 | Finds exactly the rows with positive stock on the given locations, each once |
| LocationRemoval.LocationsService.DrainStock | apps/api/src/locations/locations.service.ts:371-400 | The loop drains row after row through the engine, as specified |
| LocationRemoval.DecisionIs | apps/api/src/locations/locations.service.ts:318-364 | When a decision is refused and how: without live stock never, else for lack of a decision with the units, products and locations concerned, for a destination that is missing, inside the subtree, unknown, inactive or of another warehouse, or for a missing reason |
| LocationRemoval.LiveRowsCount | apps/api/src/locations/locations.service.ts:251-262 | The units, products and locations reported are those of the positive stock on the subtree |
| LocationRemoval.LocationsService.Remove | apps/api/src/locations/locations.service.ts:302-435 | Succeeds if and only if the decision is valid, visits the rows in order of product and location, is never refused by the engine, and deactivates exactly the subtree if it holds live stock or has history, else deletes it |
| LocationRemoval.TransferDrain | apps/api/src/locations/locations.service.ts:371-385 | A transfer drain never meets insufficient stock, empties its rows and adds them up at the destination |
| LocationRemoval.TransferDrainTotals | apps/api/src/locations/locations.service.ts:371-385 | A transfer drain keeps every product's total over all locations |
| LocationRemoval.StaleTransferDoneIff | apps/api/src/locations/locations.service.ts:312-385 | On stock that has changed since the rows were read, a transfer drain goes through if and only if every row still holds what was read |
| LocationRemoval.StaleTransferMoves | apps/api/src/locations/locations.service.ts:312-385 | It then takes from each row what was read, and brings it to the destination |
| LocationRemoval.StaleTransferEmptiesIff | apps/api/src/locations/locations.service.ts:244-250 | It leaves no positive stock on the subtree if and only if no row there holds more than was read |
| LocationRemoval.StaleWriteOffEmptiesIff | apps/api/src/locations/locations.service.ts:244-250 | A write-off always goes through, and leaves no positive stock if and only if every row that holds some was read |
| LocationRemoval.WriteOffDrain | apps/api/src/locations/locations.service.ts:386-399 | A write-off drain is never refused, zeroes exactly its rows and logs the negative of each |
| LocationRemoval.MovingStockAway | apps/api/src/locations/locations.service.ts:366-401 | After a move no positive stock is left on the subtree, the destination gains exactly each product's positive total there, no other row changes, and totals stay |
| LocationRemoval.WritingStockOff | apps/api/src/locations/locations.service.ts:366-401 | After a write-off exactly the positive rows of the subtree are zero, each logged with its negative |
| LocationRemoval.SortedRowsAreLiveRows | apps/api/src/locations/locations.service.ts:371 | Sorting into lock order loses and repeats no row |
| LocationCodes.Alpha | apps/api/src/location-builder/location-builder.service.ts:37-48 | The loop writes the bijective base-26 numeral |
| LocationCodes.AlphaRoundTrip | apps/api/src/location-builder/location-builder.service.ts:37-48 | A letter label reads back as its number |
| LocationCodes.AlphaOnto | apps/api/src/location-builder/location-builder.service.ts:37-48 | Every nonempty string of capital letters is the label of a number |
| LocationCodes.AlphaInOrder | apps/api/src/location-builder/location-builder.service.ts:37-48 | The first labels are the letters A to Z, and labels grow with their numbers: shorter ones first, then in the order of a book |
| LocationCodes.NumberLabelIs | apps/api/src/location-builder/location-builder.service.ts:53 | A number label is the position counted from one, in decimal digits, a single digit with a zero in front |
| LocationCodes.LabelInjective | apps/api/src/location-builder/location-builder.service.ts:50-54 | Labels tell their positions apart, padded decimals included, and letters never meet numbers |
| LocationCodes.ChildCodeInjective | apps/api/src/location-builder/location-builder.service.ts:171 | A code determines its parent's code and its own label |
| LocationBuilder.TreeCodesAre | apps/api/src/location-builder/location-builder.service.ts:127-145 | The codes of a tree are distinct within and across levels and as many as the sum of the products of the counts |
| LocationBuilder.LeafCodesAre | apps/api/src/location-builder/location-builder.service.ts:136-144 | The deepest level has as many codes as the counts multiply to, each with one dash per level |
| LocationBuilder.LeafCodesIff | apps/api/src/location-builder/location-builder.service.ts:136-144 | The deepest level has exactly the codes of the places that go all the way down |
| LocationBuilder.TreeCodesIff | apps/api/src/location-builder/location-builder.service.ts:127-145 | The codes of a tree are exactly the root's code followed by a dash and a label for each level down to a place |
| LocationBuilder.ChunkFlattens | apps/api/src/location-builder/location-builder.service.ts:27-35 | The parts, put together, are the list; each but the last is of the given size, and none is empty |
| LocationBuilder.LocationBuilderService.InsertChunks | apps/api/src/location-builder/location-builder.service.ts:237-243 | All rows are inserted and counted whatever the chunk size |
| LocationBuilder.LocationBuilderService.GenerateChild | apps/api/src/location-builder/location-builder.service.ts:169-233 | One child is reused if its code exists and collected for insertion otherwise |
| LocationBuilder.LocationBuilderService.GenerateUnder | apps/api/src/location-builder/location-builder.service.ts:168-234 | All children of one parent |
| LocationBuilder.LocationBuilderService.GenerateChildren | apps/api/src/location-builder/location-builder.service.ts:136-235 | All children of all parents are reused or collected, before any is inserted |
| LocationBuilder.LocationBuilderService.GenerateLevel | apps/api/src/location-builder/location-builder.service.ts:127-246 | One level: afterwards exactly the old codes and the candidates exist, created and skipped add up, and nothing changes if all existed |
| LocationBuilder.LocationBuilderService.GenerateLevels | apps/api/src/location-builder/location-builder.service.ts:119-247 | All levels, each below the one before |
| LocationBuilder.RefusalIs | apps/api/src/location-builder/location-builder.service.ts:61-117 | When a request is refused and how: no levels, an unknown warehouse, an unknown parent, a type of another warehouse, or a barcode that a new row would repeat, the first failing check deciding |
| LocationBuilder.LocationBuilderService.GenerateTree | apps/api/src/location-builder/location-builder.service.ts:60-263 | The refusals in order, a taken barcode last; otherwise all codes of the tree exist, created + skipped is the sum over levels, leaves the full product, codes and barcodes stay unique, old rows are unchanged, and every new row has its name, code, barcode, path, type, depth and place as its level says |
| LocationBuilder.BarcodesStayUnique | apps/api/src/location-builder/location-builder.service.ts:201-221 | Where no barcode of the tree is taken, its new rows keep all barcodes apart |
| LocationBuilder.LocationBuilderService.GenerateTwice | apps/api/src/location-builder/location-builder.service.ts:173-189 | The same request once more creates nothing, skips everything and changes nothing |
| LocationBuilder.BuiltIsAcyclic | apps/api/src/location-builder/location-builder.service.ts:201-221 | Built trees have no cycle |
| LocationBuilder.BuiltIsLinked | apps/api/src/location-builder/location-builder.service.ts:218 | Built trees have all their parents, as the removal needs |
| SystemLocations.SystemLocationsService.Ensure | apps/api/src/inventory/system-locations.service.ts:54-125 | The location is found by its code, or made on first use with its name, path, barcode and depth 99; it is refused, without change, if and only if the code is another warehouse's, or is new and the warehouse is unknown or the barcode taken; codes and barcodes stay unique |
| SystemLocations.SystemLocationsService.EnsureTwice | apps/api/src/inventory/system-locations.service.ts:54-125 | Asking again gives the same answer and makes no other location |
| SystemLocations.SystemCodesApart | apps/api/src/inventory/system-locations.service.ts:61 | Two such codes are equal if and only if the kinds are and the warehouses begin with the same eight characters |
| LocationBuilder.SystemNodeKeepsBuilt | apps/api/src/inventory/system-locations.service.ts:109-119 | Such a location may be added to a built table at any time |
| SubtreeQuery.PrefixIffBelow | apps/api/src/labels/labels.service.ts:107-118 | Where each parent link accounts for the paths that its child continues, a location is in the subtree by parent links if and only if it is the root or its path starts with the root's path and separator |
| SubtreeQuery.QueryIsRightIff | apps/api/src/labels/labels.service.ts:107-118 | On every table whose children continue their parents' paths, whatever the names and roots, the prefix query is right if and only if that is so |
| SubtreeQuery.QueryEqualsWalk | apps/api/src/labels/labels.service.ts:469-483 | The prefix query and the level walk then return the same active locations |
| SubtreeQuery.PlainQueryIsRightIff | apps/api/src/locations/locations.service.ts:90-116 | For names without angle bracket, if and only if no root continues a path and no location that has a child shares its path |
| SubtreeQuery.AddressedQueryIsRightIff | apps/api/src/locations/locations.service.ts:90-116 | With roots named below warehouses that are apart, hand-made ones included, if and only if no location that has a child shares its path |
| SubtreeQuery.PlainCodesAreApart | apps/api/src/location-builder/location-builder.service.ts:72-80 | Distinct nonempty warehouse codes without angle bracket, none called as the web site, keep their trees apart |
| SubtreeQuery.PathsAreUnique | apps/api/src/location-builder/location-builder.service.ts:197-199 | No two locations that the builder or the program itself writes have the same path |
| SubtreeQuery.BuiltQueryIsRight | apps/api/src/labels/labels.service.ts:107-118 | On the tables that the builder and the program itself write, system locations and the web site's included, the prefix query is right |
| SubtreeQuery.PruningKeepsBuilt | apps/api/src/locations/locations.service.ts:405-415 | Removal and deactivation leave a table on which this still holds |
| SubtreeQuery.FreeNamesMislead | apps/api/src/labels/labels.service.ts:107-118 | A hand-made name with an angle bracket can make the query return a location that is not in the subtree |
| SubtreeQuery.SameNamesMislead | apps/api/src/locations/locations.service.ts:90-116 | So can two siblings of one plain name |
| LocationPath.BuildLocationPath | apps/api/src/labels/labels.service.ts:49-75 | On any table, cycles included, the walk ends with the whole chain of ancestors from the top to the location, each once |
| LocationPath.StoredPathIsWalk | apps/api/src/labels/labels.service.ts:49-75 | Where paths continue along the chain, the stored path is the top's followed by the names that the walk finds |
| LocationPath.BuiltPathIsWalk | apps/api/src/labels/labels.service.ts:49-75 | In what the program writes, the top is the web site's root or is named below its warehouse's code |
| RollPdf.Columns | apps/api/src/labels/roll-location-pdf.ts:75-86 | As many whole stickers as fit on the roll, never none |
| RollPdf.ColumnsAre | apps/api/src/labels/roll-location-pdf.ts:75-86 | The sticker is at least 18 and the roll, if none is given that holds a sticker, 104 millimetres wide, to the nearest millimetre |
| RollPdf.DrawPage | apps/api/src/labels/roll-location-pdf.ts:118-167 | Each label of a page is drawn in its slot with its text and picture; new pictures are embedded once |
| RollPdf.BuildPages | apps/api/src/labels/roll-location-pdf.ts:110-185 | As many pages as needed, each with its slice of labels, and no other page objects |
| RollPdf.EachLabelDrawnOnce | apps/api/src/labels/roll-location-pdf.ts:113-167 | Slot i of page p holds label p * cols + i, and nothing else is drawn |
| RollPdf.EveryLabelHasPage | apps/api/src/labels/roll-location-pdf.ts:113-116 | Label k has page k div cols and slot k mod cols |
| RollPdf.PicturesAreShared | apps/api/src/labels/roll-location-pdf.ts:126-140 | Two labels show the same picture object if and only if their codes are equal |
| RollPdf.PictureNamesDistinctIff | apps/api/src/labels/roll-location-pdf.ts:141-143 | A page's picture names are distinct if and only if no two of its labels share a decodable code |
| RollPdf.ReferencesResolve | apps/api/src/labels/roll-location-pdf.ts:177-193 | Every reference names an existing object of the right kind |
| RollPdf.PageSays | apps/api/src/labels/roll-location-pdf.ts:177-182 | The text of a page names its parent, content, font and box, and each of its pictures under the picture's own number |
| RollPdf.TreeSays | apps/api/src/labels/roll-location-pdf.ts:191-193 | The text of the page tree counts and lists its pages, and the catalog names the page tree |
| RollPdf.KidsReadBack | apps/api/src/labels/roll-location-pdf.ts:191 | Read word by word, the list of pages is the pages' numbers as references, in their order |
| RollPdf.StreamsSay | apps/api/src/labels/roll-location-pdf.ts:130-175 | A picture says its size, and pictures and contents end with their data and say its length |
| RollPdf.Assemble | apps/api/src/labels/roll-location-pdf.ts:195-207 | Header, objects, table and trailer follow one another without gap, and each object stands with its number at its recorded offset |
| RollPdf.EntryIsTwentyBytes | apps/api/src/labels/roll-location-pdf.ts:204-206 | An entry has 20 bytes if and only if its offset is below 10^10 |
| RollPdf.XrefReadsBack | apps/api/src/labels/roll-location-pdf.ts:196-206 | Read back from the file, entry k is in use and gives the position where object k begins |
| RollPdf.StartXrefPointsAtTable | apps/api/src/labels/roll-location-pdf.ts:201-207 | The end of the file points at the word xref |
| RollPdf.BuildRollLocationPdf | apps/api/src/labels/roll-location-pdf.ts:71-210 | Fails if and only if there is no label; otherwise the document and the file are as above |
| TsplBitmap.Pack | apps/api/src/labels/tspl.service.ts:353-368 | The loops leave bit by bit the specified rows, for both ink conventions |
| TsplBitmap.VisitPixel | apps/api/src/labels/tspl.service.ts:359-364 | Visiting a pixel decides its own bit and no other |
| TsplBitmap.ClearOneBit | apps/api/src/labels/tspl.service.ts:364 | Clearing a bit leaves the seven others |
| TsplBitmap.MaskIsShift | apps/api/src/labels/tspl.service.ts:266 | The table of masks is the shift that the loops write |
| TsplBitmap.BitIsZeroIffInk | apps/api/src/labels/tspl.service.ts:260-269 | The bit of a position is 0 if and only if it is a pixel above 127, or below 128, as the ink is read; so the padding stays 1 |
| TsplBitmap.PackingIsFaithful | apps/api/src/labels/tspl.service.ts:303-312 | Packed images of one size are equal if and only if the same pixels are inked |
| PerceptualHash.ToHex | apps/api/src/product-images/image-process.service.ts:319-323 | The loop writes one hex digit per four bits, the last group possibly shorter |
| PerceptualHash.ComputePerceptualHash | apps/api/src/product-images/image-process.service.ts:306-324 | The loops give the hex form of the above-mean bits |
| PerceptualHash.HashBit | apps/api/src/product-images/image-process.service.ts:306-324 | The hash has a digit for every four pixels, which has in the pixel's place whether it is at or above the mean |
| PerceptualHash.HammingDistance | apps/api/src/product-images/image-process.service.ts:333-346 | The loops give the number of differing bits, none for different lengths |
| PerceptualHash.DistanceOfHashes | apps/api/src/product-images/image-process.service.ts:306-346 | The distance of two hashes is the number of pixels whose above-mean bit differs, for any number of pixels |
| PerceptualHash.DistanceIsMetric | apps/api/src/product-images/image-process.service.ts:333-346 | On hex strings of one length the distance is zero if and only if they are equal, symmetric, and obeys the triangle inequality |
| ProductMatcher.ApplyRelativeConfidence | apps/api/src/inventory/product-matcher.service.ts:664-677 | The confidences are rewritten in place as specified, the rest of each candidate untouched |
| ProductMatcher.SpreadLowers | apps/api/src/inventory/product-matcher.service.ts:670-676 | Spreading never raises a confidence or makes it negative |
| ProductMatcher.RelativeIs | apps/api/src/inventory/product-matcher.service.ts:664-677 | Among two or more with some score above zero, a candidate loses 45 times its share of shortfall from the best score, rounded and never below zero |
| ProductMatcher.CandidateIs | apps/api/src/inventory/product-matcher.service.ts:396-650 | When the flags are set, without the scoring functions: for the part, equal identifiers, names that contain one another, another name, or a spoken word or keyword, no place, that stands in the product's name and not after "without"; likewise for vehicle and brand; and the confidence that they give |
| ProductMatcher.ScoreIs | apps/api/src/inventory/product-matcher.service.ts:396-622 | What a score is made of: the points for part, vehicle, brand, description, places and the share of the name that was spoken |
| ProductMatcher.RaceIs | apps/api/src/inventory/product-matcher.service.ts:227-231 | Scored are exactly the candidates that are not for another vehicle |
| ProductMatcher.RankingIs | apps/api/src/inventory/product-matcher.service.ts:245-249 | Ranked are those with a confidence of at least 15, by confidence and then by score |
| ProductMatcher.SuggestionsAre | apps/api/src/inventory/product-matcher.service.ts:251-306 | Nothing is answered if and only if nothing is ranked; else the first five are shown |
| Words.SplitReadsWords | apps/api/src/inventory/product-matcher.service.ts:440-461 | Splitting a text gives exactly the words that it is woven of with its gaps |
| Words.EveryTextIsWoven | apps/api/src/inventory/product-matcher.service.ts:440-461 | Every text is woven of words and gaps, so the words are determined |
| ProductMatcher.FullConfidence | apps/api/src/inventory/product-matcher.service.ts:623-700 | A confidence reaches what the spoken words can give if and only if part, vehicle and brand match as spoken and no place contradicts |
| ProductMatcher.ConfidenceIsBounded | apps/api/src/inventory/product-matcher.service.ts:245-286 | No ranked confidence exceeds what the spoken words can give, or is below 15 |
| ProductMatcher.AutoMeansFullMatch | apps/api/src/inventory/product-matcher.service.ts:255-301 | A confirmed product is a candidate that matched everything spoken without contradiction and leads all others by the margin |
| ProductMatcher.ConfirmedIff | apps/api/src/inventory/product-matcher.service.ts:227-301 | A candidate is confirmed if and only if confirmation is on and one candidate of the race keeps the full confidence, which takes a full match of its product with what was spoken, while all others stay behind by the margin |
| ProductMatcher.SoleCandidateConfirmedIff | apps/api/src/inventory/product-matcher.service.ts:288-301 | So a product without rivals is confirmed if and only if confirmation is on, everything spoken matches it and nothing contradicts |
| ProductMatcher.OrderIsIrrelevant | apps/api/src/inventory/product-matcher.service.ts:227-308 | Neither the verdict nor the confirmed product depends on the order of the candidates |
| Money.RoundDivNearest | apps/api/src/common/money.ts:43 | Rounding is to the nearest whole number, halves upwards |
| Money.ChargeMonotone | apps/api/src/common/cheque-charge.ts:42-51 | The charge is between zero and the base and grows with base, rate and months |
| Money.ChargeAccuracy | apps/api/src/common/cheque-charge.ts:49-50 | Nothing is charged without base or rate; up to 100 percent the charge is within half a unit of the exact value, and from there on it is the base; a flat rate counts as one month, and negative months as none |
| Money.SplittingShiftsLittle | apps/api/src/common/cheque-charge.ts:42-51 | Charging n parts separately shifts the total by at most (n + 1) / 2 |
| Money.ConvertIs | apps/api/src/common/money.ts:37-44 | The same unit leaves the value, rial are ten times the toman, and toman the nearest tenth of the rial |
| Money.ConvertRoundTrip | apps/api/src/common/money.ts:37-44 | Toman to rial and back loses nothing; rial to toman and back is exact if and only if the last digit is zero |
| Money.RowsFirstShiftsLittle | apps/api/src/common/money.ts:31-43 | Converting n rows before adding differs from converting the sum by at most (n + 1) / 2, and not at all to rial |

## Left out

- The range of the quantity column (INT4): quantities are unbounded, so an overflow that the database would refuse is not modelled.
- Refusals by foreign keys for identifiers that name no product or location.
- Interleaving of the single statements inside one call of the engine: an adjustment and the clearing of shortages read and then write absolute values, so the agreement of stock and log is stated for atomic calls.
- The locks of a transfer's destination and of the clearing of shortages, which the lock order does not cover.
- Prices, discounts, documents and users on log rows, and the sale count and value of the kardex summary.
- The collation of the database and UTF-16 code units: strings are ordered by character code.
- ApprovedExactlyOnce: does not cover a crash between claim and execution, or a release that itself fails, which leave the operation claimed; nor a commit whose reply is lost, for which `LostReplyInvariantIff` is the exact condition.
- RunsAreBounded: does not cover a crash or a database failure while a failed job is settled, which leaves it RUNNING.
- DrainingEnds: takes any queued job next; the priority order and the limit of five jobs a tick are not modelled.
- Batch approval and the offline synchronisation of pending operations, which call the modelled approval or only look a request up.
- The creation of single locations by hand, whose codes are arbitrary; their paths continue their parents' paths, so the exact conditions on the prefix query cover them.
- Ensure: the location type of depth 99 is a parameter, and a warehouse without code is not covered by SystemNodeKeepsBuilt.
- The listing's fall-back for a root without path: built locations always have one.
- GenerateTree: a taken barcode is tested for the whole tree before the first insertion, while in the source an insertion fails and the transaction takes back all levels; the outcome is the same.
- GenerateTree, on its identifiers: new identifiers are taken from a source whose values are new to the table.
- Remove: is one step, while the source reads the subtree, the history and the stock rows before it opens its transaction; for stock rows that change in between the lemmas on stale rows say what happens, and changes of the subtree or its history in between are not modelled.
- Remove, on its input: the reason of a write-off is the text after trimming, and the deletion time is not recorded; five of the seven kinds of history are one set of referenced locations.
- BuildRollLocationPdf: coordinates, number formatting, compression and picture decoding are parameters, so what is drawn is a list of cells and not operators.
- The printer's command text and the chunking of labels into rows of a roll.
- ComputePerceptualHash: resizing and grey conversion are outside; the mean is compared exactly where the source divides in floating point.
- ScoreCandidate: confidences are spread, and coverage is rounded, over exact reals, where the source computes in floating point.
- Retrieval of match candidates, text normalisation (a parameter) and the explanations attached to a candidate.
- The number of months suggested from a due date, and amounts that are not whole.
- Requests that approve products to be created, sales, returns, receipts and customer accounts; screens, transport, printing and backups.
