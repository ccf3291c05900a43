# Verification model of Azushop

Azushop is a shop backend of five Go services (auth, product, inventory, order,
payment) that talk through Kafka, keep their state in Postgres, and send every
event through a transactional outbox. This project models the parts of it that
carry the hard guarantees and proves them, for all inputs, all interleavings and
all runs. `dafny verify dfyconfig.toml` checks everything.

## What is modelled

**Transactional outbox** (`WorkerPool`, `OutboxStore`, `Outbox`, `OutboxRuns`).
A poll lists at most 100 due rows, dispatches them on goroutines bounded by a
channel of 20 places, sorts them into sent and failed under a mutex, and marks
both lists in one transaction. `WorkerPool` takes the loop and its goroutines
apart into steps (channel send, goroutine start, dispatch, lock, read list, write
list, unlock, channel receive, wait-group done, wait) and lets any scheduler
interleave them. `OutboxStore` holds the table with its three statements as a
class; `Outbox` is the poll on top of both. `OutboxRuns` is the machine for whole
runs: saves, clock ticks, polls that begin, dispatch in any order, and commit or
roll back, with the committed polls and every dispatch recorded.

**Reservation ledger** (`Inventory`, `InventoryLedger`, `InventorySystem`).
`Inventory` has the two tables with their primary keys, CHECKs and 64-bit columns,
and the transactions as class methods in which any statement may be refused.
`InventoryLedger` says what reservations add up to over runs. `InventorySystem`
puts ledger and outbox together: messages delivered any number of times become
outbox rows, and dispatched rows, as any decoder reads them from the table, become
transactions that commit on their own even if the poll is rolled back.

**Product listing** (`Listing`, `CacheKeys`, `BatchUpdate`, `ProductCache`,
`Products`). Grouping joined rows into products, keyset pages whose limit counts
joined rows, the printed Redis keys, the row-to-column batch update, and the cache
of listings with a key set per seller that every change has to invalidate.

**SKU pager** (`SkuPager`). The order service's loop over the product service's
pages, on a catalogue that may change between pages, and the pricing of an order.

**Orders, payments, money** (`Orders`, `Payments`, `Money`). Guarded status
changes saved together with their events, over whole runs, and cents truncation
against exact decimals.

`Basics` holds shared vocabulary.

## What the proofs found

- Releasing and deducting stock negate the ordered quantities and hand them to the
  call that *sets* columns (internal/biz/inventory.go:147, :180), not to the one
  that adds. For positive quantities the CHECK refuses the statement, so neither
  operation ever takes effect (`InventoryLedger.ReleaseCommits`,
  `InventoryLedger.ReservedOnce`). Over all ledgers that runs on existing SKUs can
  reach, they are harmless exactly for orders that are empty, or have an item whose
  negated quantity is negative, or give back more of a SKU than a column can hold;
  the last are never locked in the first place (`InventoryLedger.ReleaseSafeIff`,
  `InventoryLedger.NeverLocked`). For every other order a run of four transactions
  reaches a ledger that they break (`InventoryLedger.VictimConsistent`,
  `InventoryLedger.VictimBroken`).
- A payment message with status cancelled confirms the order, like one with status
  paid (internal/biz/order.go:207-213). The bound on release requests therefore
  counts payment messages of either kind (`Orders.ReleasesBounded`), and it is
  reached: n messages can lead to n + 1 requests (`Orders.ReleasesTight`).
- The timeout handler writes without looking again (internal/biz/order.go:225-232).
  Its write overrides a status that is no longer pending exactly when a
  cancellation, an accepted payment message or another handler's write has settled
  the order since its read (`Orders.TimeoutOverrides`); a paid order may so end up
  cancelled, with nobody asked to release its stock (`Orders.PaidThenCancelled`).
- The cache stays coherent under an update exactly when the request says nothing new
  about a joined row of a seller it does not carry (`ProductCache.CoherentUpdateIff`):
  the tables are updated by id alone, while the listings dropped are those of the
  carried sellers, and a merchant's request always carries the merchant
  (internal/biz/product.go:169-172). A merchant that renames another seller's product
  leaves that seller's cached listing behind (`ProductCache.RenameLeavesStale`,
  `Products.RenamedByAnother`).
- Ordering looks SKUs up by the text the client sent, while the map is filled with
  printed ids (internal/service/order_service.go:163, :210): an order goes through if
  and only if every line names its SKU by its printed id, even where the parser
  accepts other texts (`SkuPager.PriceOrder`).

## Reading conventions

- The place of a row in the outbox table stands for its id. Times are whole
  microseconds. NOW() is one value per transaction, shared by listing and marking.
- A query that leaves ties open is a relation, and every theorem holds for any
  answer it allows. `...Exists` lemmas show that there always is an answer.
- One poller per outbox (`replicas: 1`, deploy/helm-charts/azushop/values.yaml:59).
- Flags such as `saveError` or `fault` stand for statements or commits that the
  database refuses; they are unconstrained.
- UUID texts are the 8-4-4-4-12 form of section 4 of RFC 9562. The parser is any
  function that reads printed ids back; what else it accepts is left open.
- Transactions are atomic at their commit. The contents of Redis are arbitrary
  where the source only consults it for duplicates (orders, payments).
- `next_retry_at` of a new row is unconstrained, because the insert writes the zero
  time and leaves the column's default unused (internal/pkg/outbox/gorm_store.go:48-53).

## Model

| member | source | states |
|---|---|---|
| `WorkerPool.PoolCorrect` | internal/pkg/outbox/outbox.go:98-142 | for every interleaving and any outcomes: at most 20 goroutines hold a place, no deadlock before the loop returns, it returns after exactly 9n+1 steps, and then the two lists partition the listed ids without duplicates |
| `WorkerPool.StepInv` | internal/pkg/outbox/outbox.go:102-134 | each step of the loop or of a goroutine keeps the bookkeeping of channel, wait group, mutex and lists, and uses up exactly one remaining step |
| `WorkerPool.Progress` | internal/pkg/outbox/outbox.go:113-137 | a state in which the loop has not returned always has an enabled step |
| `WorkerPool.RunInv` | internal/pkg/outbox/outbox.go:112-137 | the invariant over whole interleavings, with the number of steps taken |
| `WorkerPool.ReturnedPartition` | internal/pkg/outbox/outbox.go:137-142 | after the wait every goroutine is finished and each id is in the list of its outcome and in no other |
| `WorkerPool.StoreLists` | internal/pkg/outbox/outbox.go:102-110 | an append made inside the mutex from the value read there loses no other goroutine's append |
| `OutboxStore.DueListingExists` | internal/pkg/outbox/gorm_store.go:68-77 | the due query always has an answer |
| `OutboxStore.SettleAt` | internal/pkg/outbox/outbox.go:92-143 | the plain one-row-at-a-time loop touches each listed row once and no other: a success sets the sent time alone, a failure raises the count by one and sets the next time, with type, payload and headers kept |
| `OutboxStore.MarksAreTheLoop` | internal/pkg/outbox/outbox.go:139-142 | the two bulk updates leave the same table as that sequential loop |
| `OutboxStore.Store.CreateOutboxMessage` | internal/pkg/outbox/gorm_store.go:42-59 | appends one unsent row with retry count 0 and changes nothing else |
| `OutboxStore.Store.ListDueOutboxMessages` | internal/pkg/outbox/gorm_store.go:62-86 | hands out, with all their fields, unsent rows with fewer than 5 failures whose time has passed, earliest first, at most `limit`, leaving one out only if full of rows due no later |
| `OutboxStore.Store.MarkOutboxMessagesFailed` | internal/pkg/outbox/gorm_store.go:109-131 | exactly the named rows get one more retry and a pause of 2^(old count) seconds, and keep every other column |
| `OutboxStore.Store.MarkOutboxMessagesSent` | internal/pkg/outbox/gorm_store.go:88-107 | exactly the named rows get a sent time and keep every other column |
| `Outbox.Outbox.DispatchAll` | internal/pkg/outbox/outbox.go:98-137 | under any scheduler each listed message is dispatched exactly once and classified by that dispatch's outcome |
| `Outbox.Outbox.ProcessOutboxMessages` | internal/pkg/outbox/outbox.go:92-143 | without errors the table becomes the one the sequential loop gives for the same outcomes |
| `Outbox.Outbox.Poll` | internal/pkg/db/db.go:78-89 | an error or failed commit restores the table, while the dispatches stay made; what is dispatched are the listed rows with all their fields |
| `Outbox.StepLog` | internal/pkg/outbox/outbox.go:120-133 | the log holds one attempt per dispatch made, after every step |
| `Outbox.ReturnedLog` | internal/pkg/outbox/outbox.go:137-142 | at the end the log has exactly one attempt per listed message, agreeing with both lists |
| `OutboxRuns.RowLifetime` | internal/pkg/outbox/gorm_store.go:88-131 | in every run: retry count = committed failures, at most 5; at most 5 committed attempts per row; sent exactly if one committed poll dispatched it with success, as logged |
| `OutboxRuns.MessageKept` | internal/pkg/outbox/gorm_store.go:109-131 | in every run from any state, each row keeps its event type, payload and headers, however often it is retried |
| `OutboxRuns.DeliveredAsSaved` | internal/pkg/outbox/gorm_store.go:42-86 | in every run the i-th row carries the i-th saved message, and so does whatever a poll hands to the dispatch function |
| `OutboxRuns.ClosedForever` | internal/pkg/outbox/gorm_store.go:72-73 | a sent or exhausted row is never listed, dispatched or changed again |
| `OutboxRuns.RolledBackPoll` | internal/pkg/db/db.go:78-89 | without a commit the table has gained exactly the rows saved meanwhile, and every dispatch stays in the log |
| `OutboxRuns.BackoffGap` | internal/pkg/outbox/gorm_store.go:122-126 | any dispatch of a row with k >= 1 committed failures comes strictly later than 2^k - 1 s after its first failing poll |
| `OutboxRuns.BackoffSpread` | internal/pkg/outbox/gorm_store.go:122-126 | committed attempts of a row spread geometrically; the fifth comes more than 15 s after the first |
| `OutboxRuns.WaitingPause` | internal/pkg/outbox/gorm_store.go:122-126 | next_retry_at of a row with k failures is at least 2^k - 1 s past its first failing poll |
| `OutboxRuns.OutboxDrains` | internal/pkg/outbox/outbox.go:74-90 | with n rows ever saved there are at most 5n committed dispatches and 5n non-empty committed polls |
| `OutboxRuns.RunDrains` | internal/pkg/outbox/outbox.go:92-143 | attempts left plus committed dispatches grow by at most 5 per saved row, from any reachable state |
| `OutboxRuns.SettleDrains` | internal/pkg/outbox/outbox.go:139-142 | a committed poll lowers the attempts left by at least the number of rows it listed |
| `OutboxRuns.NoStarvation` | internal/pkg/outbox/gorm_store.go:62-79 | while a due row is not served, 100 * committed polls <= other eligible rows not behind it + rows saved meanwhile |
| `OutboxRuns.SettleMovesOn` | internal/pkg/outbox/gorm_store.go:117-126 | a poll takes every listed row out of the way: sent, or rescheduled strictly behind anything due |
| `OutboxRuns.StepInv` | internal/pkg/outbox/outbox.go:74-147 | each save, tick, begin, dispatch, commit or rollback keeps the history of every row exact |
| `OutboxRuns.PollIsRun` | internal/pkg/outbox/outbox.go:80-82 | what one call of the poll method does, committed or rolled back, is a run of this machine with the same table and the same dispatches |
| `Inventory.InventoryDb.UpdateDeltaQuantity` | internal/data/inventory.go:72-94 | applies the deltas row by row, refusing on a CHECK or an unknown path; an absent SKU is no error |
| `Inventory.InventoryDb.UpdateInventories` | internal/data/inventory.go:51-58 | sets the named columns row by row or fails |
| `Inventory.InventoryDb.CreateInventoryLock` | internal/data/inventory.go:104-120 | inserts one lock, refused if the order already has one |
| `Inventory.InventoryDb.UpdateInventoryLock` | internal/data/inventory.go:122-133 | changes the status of that order's lock only |
| `Inventory.InventoryDb.ReserveStock` | internal/biz/inventory.go:113-128 | commits shifted quantities together with the lock, or leaves both tables as they were |
| `Inventory.InventoryDb.ReleaseStock` | internal/biz/inventory.go:130-156 | commits the *set* negated quantities with status released, or nothing |
| `Inventory.InventoryDb.DeductStock` | internal/biz/inventory.go:158-189 | only for a lock still locked: commits the *set* negated quantities with status confirmed, or nothing |
| `Inventory.InventoryDb.AdjustStock` | internal/biz/inventory.go:91-107 | commits the adjustment, whose columns `AdjustMeaning` states, or leaves both tables |
| `Inventory.InventoryDb.BatchCreateInventories` | internal/data/inventory.go:135-148 | inserts zero rows for all SKUs or for none (existing or repeated key, empty batch) |
| `Inventory.RefusedPrefix` | internal/data/inventory.go:72-94 | a refused statement refuses the whole batch |
| `InventoryLedger.RowMeaning` | internal/data/inventory.go:51-94 | one row of either update, in columns: what it stores, and when it is refused |
| `InventoryLedger.ReserveMeaning` | internal/biz/inventory.go:113-128 | a positive reservation commits if and only if the order has no lock and nothing overflows; it then adds the ordered quantities to reserved, leaves the stock, and locks the order |
| `InventoryLedger.ReleaseMeaning` | internal/biz/inventory.go:130-156 | a release commits if and only if the order has a lock and no item on an existing SKU is positive; it then sets reserved to the negated last quantity, leaves the stock, and marks the lock released |
| `InventoryLedger.DeductMeaning` | internal/biz/inventory.go:158-189 | likewise for a lock still locked, setting stock and reserved and marking the lock confirmed |
| `InventoryLedger.AdjustMeaning` | internal/biz/inventory.go:91-107 | adjusting an existing SKU commits if and only if the quantity is not negative, and sets the stock to it with reserved and locks kept; for an absent SKU it commits and changes nothing |
| `InventoryLedger.CreateMeaning` | internal/data/inventory.go:135-148 | creating commits if and only if the batch is not empty and its SKUs are new and distinct, and adds one zero row each |
| `InventoryLedger.ReservedOnce` | internal/biz/inventory.go:113-189 | over every run with positive quantities and existing SKUs: one lock per order with its own payload, reserved = sum over locks still locked, and no lock of a non-empty order ever changes state |
| `InventoryLedger.ReleaseCommits` | internal/biz/inventory.go:130-189 | a release or deduction commits if and only if the lock may be processed, nothing fails, and no item on an existing SKU has a negative negated quantity |
| `InventoryLedger.ReleaseSafeIff` | internal/biz/inventory.go:130-189 | releasing or deducting an order keeps every consistent ledger reached by a run if and only if the order is empty, or has an item whose negated quantity is negative, or gives back more of a SKU than a column holds |
| `InventoryLedger.NeverLocked` | deploy/helm-charts/azushop/migrations/001_init.sql:49-53 | an order that gives back more of a SKU than a column holds is locked in no run |
| `InventoryLedger.VictimBroken` | internal/biz/inventory.go:141-149 | for every other order, processing it there leaves an inconsistent ledger |
| `InventoryLedger.VictimConsistent` | internal/biz/inventory.go:113-128 | the four-step run (create, reserve the opposite, reserve the order, reserve one unit) succeeds and reaches a consistent ledger that holds the order |
| `InventoryLedger.ReserveKeeps` | internal/biz/inventory.go:113-128 | a committed reservation of existing SKUs keeps the ledger consistent in any quantities |
| `InventoryLedger.UnlockedOne` | internal/biz/inventory.go:150-154 | taking one order out of the locked ones takes exactly its payload out of the sums |
| `InventoryLedger.ShiftBackPasses` | deploy/helm-charts/azushop/migrations/001_init.sql:49-53 | a reservation that only gives back is refused exactly if a row would get negative |
| `InventoryLedger.RunPlausible` | deploy/helm-charts/azushop/migrations/001_init.sql:49-53 | over every run rows stay within their columns and locks on existing SKUs |
| `InventoryLedger.ShiftEffect` | internal/data/inventory.go:72-94 | a reservation adds to each SKU what the items order of it, repeated SKUs counted each time |
| `InventoryLedger.ShiftPasses` | deploy/helm-charts/azushop/migrations/001_init.sql:49-53 | a positive reservation is refused for its amounts only if a 64-bit column would overflow |
| `InventoryLedger.AssignPasses` | deploy/helm-charts/azushop/migrations/001_init.sql:49-53 | setting negated quantities passes the CHECKs exactly when none is negative |
| `InventoryLedger.StepInv` | internal/biz/inventory.go:91-189 | every transaction, failing or not, keeps the ledger invariant |
| `InventoryLedger.RunInv` | internal/biz/inventory.go:91-189 | the invariant over whole runs |
| `InventoryLedger.StockInv` | internal/biz/inventory.go:91-107 | adjusting and creating leave every reserved quantity and creating leaves every existing row |
| `InventoryLedger.RedeliveredCreate` | internal/biz/inventory.go:237-245 | a product-created batch delivered again any number of times resets nothing |
| `InventorySystem.ReservedOncePerOrder` | internal/biz/inventory.go:235-274 | end to end, with duplicate deliveries and rolled-back polls: at most one dispatch of an order succeeds, an order has a lock exactly if one did, a sent order row stands for a lock with its items, every reserved quantity is the sum over the successful dispatches still locked, and no lock of a non-empty order leaves that state |
| `InventorySystem.SentIsDone` | internal/biz/inventory.go:235-274 | end to end, row i still reads as the i-th delivered message, and if it is marked as sent that message has been carried out: SKUs exist, the order has a lock with its items, a paid order was empty and is settled |
| `InventorySystem.HandlerMeaning` | internal/biz/inventory.go:235-274 | which transaction each message type runs, and that other types fail and change nothing |
| `InventorySystem.InventoryUsecase.DispatchOutboxMessage` | internal/biz/inventory.go:235-274 | carries out just that on the tables |
| `InventorySystem.DispatchDone` | internal/biz/inventory.go:235-274 | a dispatch that succeeds has done what its message asks for |
| `InventorySystem.StepInv` | internal/biz/inventory.go:202-233 | delivery, dispatch, poll steps and direct requests keep outbox and ledger in step |
| `InventorySystem.LocksAreWins` | internal/biz/inventory.go:247-259 | locks and successful order dispatches correspond |
| `InventorySystem.WinnersDiffer` | deploy/helm-charts/azushop/migrations/001_init.sql:61-65 | two successful dispatches are of different orders |
| `Listing.ConvertToBizProducts` | internal/data/product.go:158-184 | builds the grouping of the rows: ids first seen first, SKUs in row order, name and status from the first row |
| `Listing.GroupingPartitions` | internal/data/product.go:158-184 | grouping repeats no product, loses and repeats no SKU, and for contiguous ids flattens back to the row sequence |
| `Listing.GroupingUnique` | internal/data/product.go:158-184 | the grouping is determined by the rows |
| `Listing.SkusOfRows` | internal/data/product.go:162-174 | the SKUs of a product are those of its rows, column by column |
| `Listing.AnswerExists` | internal/data/product.go:118-135 | the listing query always has an answer |
| `Listing.AnswerInOrder` | internal/data/product.go:129-150 | every page flattens to its rows, since ORDER BY keeps ids together |
| `Listing.OnlyLastCut` | internal/data/product.go:129-130 | only the last product of a full page can lack SKUs |
| `Listing.PageShows` | internal/data/product.go:128-133 | a page shows all matching products up to its last one; an empty page means there are none |
| `Listing.WalkComplete` | internal/data/product.go:117-150 | following pages shows each matching product with a SKU exactly once, in increasing id order, in at most one page more than products |
| `CacheKeys.ListKeyInjective` | internal/data/product.go:73-75 | equal listing keys come only from equal seller, token, size and status |
| `CacheKeys.SetKeyInjective` | internal/data/product.go:77-79 | equal key-set keys come only from the same seller |
| `CacheKeys.ListKeyIsNoSetKey` | internal/data/product.go:73-79 | a listing key is never the key of a key set |
| `CacheKeys.DecimalInjective` | internal/data/product.go:74 | signed decimal printing is injective |
| `CacheKeys.UuidTextInjective` | internal/data/product.go:74 | the 8-4-4-4-12 text of a UUID is injective |
| `BatchUpdate.BuildColumns` | internal/data/product.go:246-270 | fails exactly if SKUs are to be updated and some product has none; else the columns are aligned, whatever the order of the paths |
| `BatchUpdate.ProductColumns` | internal/data/product.go:253-269 | what one product adds to the columns |
| `BatchUpdate.ColumnsAreRows` | internal/data/product.go:272-307 | for distinct ids the column-wise statements give a table if and only if updating product by product and SKU by SKU gives it |
| `BatchUpdate.ColumnsMean` | internal/data/product.go:272-307 | by position, the columns mean the update of those products and SKUs, even for repeated ids |
| `BatchUpdate.RowWiseApplied` | internal/data/product.go:272-307 | the row-by-row update is one of the results the statements allow |
| `BatchUpdate.AppliedIsRowWise` | internal/data/product.go:272-307 | for distinct ids it is the only one |
| `ProductCache.CacheIsTransparent` | internal/data/product.go:104-156 | in every run from an empty cache, of listings, creations, owned updates and expiries, the cache stays coherent and each listing answer, cached or not, is one the query would give then |
| `ProductCache.StepCoherent` | internal/data/product.go:112-156 | every step keeps each live listing registered and current |
| `ProductCache.ListedAsStored` | internal/data/product.go:117-174 | whatever a listing shows is what the tables hold, column by column, past the token and of the status asked for |
| `ProductCache.StoredIsListed` | internal/data/product.go:117-135 | every stored SKU of the seller past the token and of that status is shown, unless the page has as many SKUs as asked for, all of products no later |
| `ProductCache.PageShape` | internal/data/product.go:129-130 | no more SKUs than asked for, products in increasing id order, none without a SKU |
| `ProductCache.InsertedRows` | internal/data/product.go:199-229 | creating stores each product and SKU column by column as asked for |
| `ProductCache.InsertedOnly` | internal/data/product.go:199-229 | creating leaves what was stored and adds nothing else |
| `ProductCache.RefusedExactly` | deploy/helm-charts/azushop/migrations/001_init.sql:20-44 | a batch is refused exactly for shared or taken ids, or a seller's second product of one name |
| `ProductCache.InsertKeepsUnique` | deploy/helm-charts/azushop/migrations/001_init.sql:34 | creating keeps seller and name unique |
| `ProductCache.UpdatedRows` | internal/data/product.go:272-307 | updating distinct products and SKUs stores column by column what was asked for, as far as the paths go, and leaves everything else |
| `ProductCache.CoherentUpdateIff` | internal/data/product.go:239-314 | an update keeps every coherent cache coherent, whichever of repeated entries the database picks, if and only if for each joined row of a seller not carried every entry of the request with that product or SKU id has the stored name, attributes and price, as far as the paths go |
| `ProductCache.RestatedRow` | internal/data/product.go:272-307 | a request that restates a row leaves it |
| `ProductCache.KeepsMeansRestates` | internal/data/product.go:249-251 | the "only if" half: any other entry may be picked and makes a surviving listing wrong |
| `ProductCache.RenameLeavesStale` | internal/biz/product.go:169-172 | in every shop that caches a full listing of an owner, a rename by a request of another seller leaves that listing in the cache and wrong |
| `ProductCache.SurvivorShows` | internal/data/product.go:249-251 | if every coherent cache stays coherent, a joined row of a seller that is not carried is unchanged, by the listing that outlives the update |
| `ProductCache.CachedCoherent` | internal/data/product.go:150-155 | caching and registering a listing keeps the cache coherent |
| `ProductCache.ClearSellers` | internal/data/product.go:188-197 | clearing key sets, in any order, drops all listings of those sellers and none of others, and the sets themselves |
| `ProductCache.ClearedCoherent` | internal/data/product.go:231-237 | a change that leaves other sellers' rows, followed by clearing, keeps the cache coherent |
| `ProductCache.OwnedUpdateForeign` | internal/data/product.go:272-307 | an update whose products and SKUs belong to the carried sellers leaves other sellers' rows |
| `ProductCache.InsertForeign` | internal/data/product.go:199-229 | created products leave other sellers' rows |
| `ProductCache.FullListing` | internal/data/product.go:118-150 | an unlimited listing shows exactly the seller's joined rows |
| `ProductCache.ExpireCoherent` | internal/data/product.go:152 | a listing running out keeps the cache coherent |
| `Products.ProductRepo.ListProductsBySellerID` | internal/data/product.go:104-156 | answers from the cache, or queries, groups, caches and registers; the answer is in the cache afterwards, and with a coherent cache it is always current |
| `Products.ProductRepo.DelProductCaches` | internal/data/product.go:188-197 | deletes the members of each set and the set |
| `Products.ProductRepo.ClearSellerProductCaches` | internal/data/product.go:231-237 | clears exactly the sets of the named sellers |
| `Products.ProductRepo.BatchCreateProducts` | internal/data/product.go:199-229 | inserts all products and SKUs or, on a taken or repeated id, a second product of one name for a seller, or an error, none |
| `Products.ProductRepo.BatchUpdateProducts` | internal/data/product.go:239-314 | no effect without products or paths or on an error; else the tables are the row-by-row update and the carried sellers are cleared |
| `Products.ProductsFilter` | internal/biz/product.go:164-178 | administrators pass, a merchant becomes seller of everything and it goes offline, others fail; ids, names and SKUs stay |
| `Products.DistinctSellers` | internal/biz/product.go:256-264 | the sellers, each once |
| `Products.ProductUsecase.BatchCreateProducts` | internal/biz/product.go:209-267 | products, SKUs and one event naming exactly those SKUs are saved together or not at all, and every SKU stays announced |
| `Products.ProductUsecase.BatchUpdateProducts` | internal/biz/product.go:292-304 | an error leaves tables and cache; success is one update step of the filtered products |
| `Products.RenamedByAnother` | internal/biz/product.go:292-304 | carried out with these classes: seller 2 is listed, merchant 1 renames its product, and the next listing of seller 2 is not one the query would give |
| `Products.ToSlice` | internal/pkg/str/str.go:31-45 | the members of the set, each once, in any order |
| `Products.ConvertToUniquePaths` | internal/service/product_service.go:330-333 | the paths without repetition |
| `SkuPager.BatchGetSkus` | internal/service/product_service.go:156-193 | fails exactly on a bad size, no ids, an unreadable id or token, or a failing call; else returns the next requested SKUs by id and a token only if the page is full |
| `SkuPager.FetchAllSkuDetails` | internal/service/order_service.go:145-171 | ends whatever the tables are, after at most one page per 100 requested ids and one more; every entry was requested and in some page's snapshot; every requested non-nil SKU in all snapshots is there |
| `SkuPager.FixedTableFilter` | internal/service/order_service.go:145-171 | on a fixed table the result is exactly the requested, non-nil, existing SKUs under their printed ids |
| `SkuPager.PageStep` | internal/service/order_service.go:162-168 | what one more page adds, and that requested ids past the token get fewer |
| `SkuPager.PageExists` | internal/data/product.go:322-334 | the page query always has an answer |
| `SkuPager.ConvertToBizOrderItems` | internal/service/order_service.go:207-235 | fails exactly if a line's text is not a key or is unreadable, or its price is; else one item per line with the catalogue price |
| `SkuPager.PriceOrder` | internal/service/order_service.go:66-84 | whatever happens meanwhile, an order that comes out names each SKU by its printed id at a price some page showed; with a fixed catalogue and no failing call it comes out if and only if it has lines and each names an existing SKU by its printed id |
| `SkuPager.PageComplete` | internal/data/product.go:322-334 | a page extends what is complete to its last id, and to everything if it is not full |
| `SkuPager.PrintedReadsBack` | internal/service/product_service.go:166 | the demand on the parser can be met |
| `Money.OrderTotal` | internal/biz/order.go:133-137 | the exact value of the items |
| `Money.StripeLineItems` | internal/biz/payment.go:212-232 | one line per item with truncated cents |
| `Money.MoneyConserved` | internal/biz/payment.go:127 | with at most two decimals the charge is 100 times the order total and the stored amount is the order total |
| `Money.Shortfall` | internal/biz/payment.go:214 | for non-negative prices the charge never exceeds the total, is short by less than a cent per unit, and meets it if and only if every price has at most two decimals |
| `Money.CentsExact` | internal/biz/payment.go:214 | two-decimal prices lose nothing |
| `Orders.OrderUsecase.InsertOrder` | internal/data/order.go:87-119 | inserts under a fresh id unless the key is taken or the cache says so; a refused insert still uses up the id |
| `Orders.OrderUsecase.CreateOrder` | internal/biz/order.go:127-161 | the order, with the key, user and items asked for, their exact total and status pending, is committed together with both events that carry it; refused exactly for a cached or taken key or an error, and then nothing is committed |
| `Orders.OrderUsecase.CancelOrder` | internal/biz/order.go:163-177 | cancels exactly a pending or confirmed order, together with one release event for it, or changes nothing |
| `Orders.OrderUsecase.HandlePaymentStatus` | internal/biz/order.go:202-214 | paid and cancelled both confirm, whatever the status was; other statuses are errors |
| `Orders.OrderUsecase.HandleOrderCancelled` | internal/biz/order.go:220-233 | the timeout handler is, in the machine of whole runs, its read, then whatever others do, then its write; it stops after the read unless that found the order pending |
| `Orders.OrderUsecase.Serve` | internal/biz/order.go:127-233 | carrying out an event with these methods is the machine's step |
| `Orders.ReleasesTight` | internal/biz/order.go:163-214 | for every n there is a run with n payment messages and n+1 release requests |
| `Orders.TimeoutOverrides` | internal/biz/order.go:225-232 | a handler that read a pending order leaves it cancelled without a release request, and overrides a settled status if and only if an event in between settled the order |
| `Orders.LeavesPending` | internal/data/order.go:125-157 | over any run a pending order stays pending if and only if no event settles it |
| `Orders.PaidThenCancelled` | internal/biz/order.go:202-233 | a run that ends with a paid order cancelled and no release requested |
| `Orders.ReleasesBounded` | internal/biz/order.go:163-233 | in every run, release requests of an order plus one while cancellable never exceed one plus its payment-status writes; without such a write at most one |
| `Orders.OrdersAndEvents` | internal/biz/order.go:140-156 | in every run, orders, created events and delayed-cancel events correspond one to one, payloads are the orders as created with their exact totals, and keys are unique |
| `Orders.CreatedAsAsked` | internal/biz/order.go:127-161 | in every run the created events are, in order, the creations that went through, with their own key, user, items and total, and the table has exactly one row with those for each |
| `Orders.NeverPendingAgain` | internal/data/order.go:125-157 | an order that left pending never returns, and nothing but the status of an order changes |
| `Orders.StepInv` | internal/biz/order.go:127-233 | each create, cancel, payment message, timeout read or write keeps all of it |
| `Orders.CreateCorresponds` | internal/biz/order.go:140-156 | a created order keeps the correspondence |
| `Payments.HandleStripeCallback` | internal/biz/payment.go:261-313 | fails exactly on an unreadable body, a missing order id or another event type; paid only for a paid session of a completed or succeeded event |
| `Payments.PaymentUsecase.CreatePayment` | internal/data/payment.go:61-90 | appends one pending row with exactly the given order, user, session and amount; refused exactly if cached, failing, or the session is known |
| `Payments.PaymentUsecase.CreateStripePayment` | internal/biz/payment.go:105-136 | the stored amount is the provider's total over the priced items, and for two-decimal prices the exact value of the items |
| `Payments.CreatedThenSettled` | internal/biz/payment.go:161-172 | in every run a created payment carries what it was created with and takes the status of the first committed callback for its own order |
| `Payments.PaymentUsecase.UpdatePaymentStatusByOrderID` | internal/data/payment.go:92-99 | exactly the pending rows of the order change |
| `Payments.PaymentUsecase.Callback` | internal/biz/payment.go:138-179 | the status of the order's pending rows and one event with order and status are committed together, or nothing |
| `Payments.SettlesOnce` | internal/data/payment.go:92-99 | over any sequence of callbacks a row takes the status of the first committed callback for its order and no other |
| `Payments.NeverSilent` | internal/biz/payment.go:161-172 | in every run each settled row is announced with its status, and the outbox is exactly the committed callbacks |

## Left out

- Inventory.InventoryDb.UpdateInventories: modelled as "set the named columns of the row with this key, or fail"; gorm may refuse the update for lack of a primary-key tag, which is one of the failures.
- Products.ProductRepo.BatchUpdateProducts: an update without a name or SKU column is one that changes nothing in that table or fails; the SQL text builder lives in azutils and is not part of this model. A rename that the unique index on seller and name refuses is one of the refused statements.
- ProductCache.CacheIsTransparent: calls are atomic and Redis answers; interleaved readers and writers, single-flight sharing (keyed by seller only) and eviction of a key set are not guaranteed coherent by the code.
- Money.MoneyConserved: assumes that the provider's total is the sum of its line items; overflow of 64-bit cents and the rounding of the total column are not modelled.
- InventoryLedger.ReservedOnce: says nothing about stock against reservations; the code does not keep reserved within stock.
- InventorySystem.ReservedOncePerOrder: safety only; the consumer marks a message as read even when its handler fails, so Kafka may lose messages.
- OutboxRuns.NoStarvation: one poller; listing takes no row lock, so two pollers could both count a retry.
- Prices and attributes are stored as given; the database's normal form of decimals and JSON is not modelled, nor are descriptions and embeddings.
- A ledger repaired to add the negated quantities: not what the code does.
- Retrier and delay queue: the retry count is dropped between hops and the queue is not started by the order runner.
- ListOrders paging: the query has no ORDER BY, so completeness is not decided.
- DeleteOrder and UpdatePaymentByID: no callers.
- Redis duplicate checks as a guarantee: the order service reads one key and writes another (internal/data/order.go:96-97, :116); the cache contents are arbitrary here.
- Search by embedding, role filters on listings, status conversions, auth, configuration, tracing, logging and generated code: plumbing or easy members.
