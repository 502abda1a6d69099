# Verification of the arby market-data core

This project models, in Dafny, the parts of arby that keep and hand out live
market data, and proves what they promise over all inputs and all runs.

## What is modelled

* **The order book** (`Ladders`, `BookSides`, `Books`, `OrderBooks`, `BookCopies`,
  `FlatBooks`, `FlatRuns`, `LastUpdates`, `Conservation`, `WrittenExecutions`). A side
  of the book is modelled on the heap as the code has it: levels that own order nodes,
  and an id cache whose entries refer to a level and a node, as the C++ iterators do.
  `Coherent` says that cache and ladder are in bijection. Each method is proved against
  a step of a value (`Ladder`, `Book`). That value in turn is proved to be a flat,
  arrival-ordered list with linear search, grouped by price.
* **The snapshot service** (`TickHistories`, `Feeds`, `SnapshotRuns`,
  `ServiceRuns`, `BookFeeds`, `SnapshotServices`, `ServiceDrivers`, `StaleCopies`).
  The service is a state machine over values, generic in the kind of book;
  `SnapshotServices` is the same service on the heap, proved to take exactly those
  steps, and `ServiceDrivers` takes it through whole runs beside the snapshots that
  others hold. `ServiceRuns` holds the results over runs, in which ticks arrive and
  holders return or destroy snapshots in any order and number.
* **The listener** (`FeedConditions`, `Listeners`, `ListenerBooks`): how published
  snapshots are labelled, and which book they then show.
* **The asynchronous semaphore** (`Bilists`, `SemaphoreRuns`, `Semaphores`): the
  intrusive ring of waiters as linked objects, the semaphore as a class over it,
  and first-in-first-out service, permit accounts and exactly-once completion over
  whole runs of the value machine those methods implement.
* **The string buffers** (`StringLists`) and **market keys** (`MarketKeys`).

The results that carry most of the weight are `FlatRuns.BookRefinesFlat` and the
bijection kept by every method of `BookSides`; `ServiceRuns.RecyclingRefinesCopying`,
`SnapshotShowsPrefix` and `RunRetains`; `ServiceDrivers.Drive`, which brings them to
the heap; `LastUpdates.LastUpdateIsLatest`; `WrittenExecutions.TotalsAsWritten`;
`ListenerBooks.GoodButNotLiveIff`; and
`SemaphoreRuns.RunInOrder`, `PermitAccount` and `EveryOpCompletesOnce`.

## Readings

Where the text of the code departs from its evident meaning, `Reading` names the
two: `AsWritten` is what the statements parse to, `Intended` is what they mean.
Results about snapshots hold for both readings of `execute`, and for the intended
copy assignment: the heap service copies with `Assign`. The refinement to a flat book
and the book's conservation laws are for the intended `execute`; what the written one
does to depths, totals and assertions instead is proved in `WrittenExecutions`.

* `execute` (`arby/power_trade/order_book.cpp:153` and `:169`) parses as
  `qty -= (tick.qty == 0)`, so an order is erased when something is left, the level
  keeps its depth, and the bids' total is debited for both sides (`:160`, `:176`).
  `ExecuteAsWrittenIsRightIff` says when the two readings agree. The level is also
  looked up through a cache entry that has just been erased (`:156-158`); the
  written reading takes that lookup to find the level it named, and
  `ReadsErasedEntry` says when it happens. `RemovalAssertionFires` gives a stream, as
  the feed promises it, on which the assertion about the bids' total in `remove`
  (`:109`) then fails, and `RemovalAssertionsAsWrittenIff` says when it holds.
* Copy assignment (`arby/power_trade/order_book.hpp:91-123`) announces a rebuild of
  the indexes but keeps old entries. `AssignAsWritten` leaves a coherent index
  exactly when the target had no entries; `Assign` clears them first. The service does
  get there with entries: `CopiesOverOrdersIff` says on which calls, and for a listener
  `ListenerCopiesOverOrdersIff` says that a snapshot tick is one whenever the book it
  showed before its last tick held an order.
* `add` (`order_book.cpp:80`, `:91`) takes for granted that the id is not already
  live on its side. Without that, `BookSide.Add` shows, the bijection is lost. It
  is therefore a promise of the feed (`Accepts`) wherever a heap book is updated.
* A fresh snapshot carries generation 0 and sequence 0, which also name the first
  tick of a service that has seen no snapshot tick. `SnapshotsEqualLiveBookIff` says
  exactly which calls this spoils: the very first of a run, if it brings an added order.
  Every later call hands out the live book all the same.
* `remove_watermark` is called only for a snapshot that was found in the log. Where
  it was not found its watermark stays, so that watermarks need not be keys of the
  log. What carries the proofs is that the log is one contiguous run.
* The comment on the listener (`arby/power_trade/orderbook_listener_impl.hpp:31-35`)
  says that the book is rebuilt from a snapshot on reconnection. The code calls a
  feed good after any tick; `GoodButNotLiveIff` says exactly when a snapshot called good
  does not have the live book, and `GoodBeforeSnapshot` gives such a run.
* `async_acquire` (`lib/asioex/impl/basic_async_semaphore.hpp:43-47`) posts success
  without taking a permit. `AsWrittenConservesIff` says when the account still
  balances; the intended reading takes one.
* The semaphore's destructor (`lib/asioex/impl/async_semaphore_base.hpp:25-34`)
  starts at the sentinel, so it would complete the sentinel and miss the newest
  waiter. `DestructorWalk` proves which nodes its loop visits; `Destroy` is the
  intended loop.
* Move assignment of a buffer handle to itself loses its ownership
  (`lib/util/truncate.cpp:34-42`). `MoveAssign` proves that ownership survives
  exactly when the handles differ or the handle is empty.

## Model

| member | source | states |
|---|---|---|
| BookSides.BookSide.Add | arby/power_trade/order_book.cpp:67-94 | an added order rests last at its price, depth and total are credited, and cache and ladder stay in bijection if and only if the id was not resting already |
| BookSides.BookSide.Remove | arby/power_trade/order_book.cpp:96-133 | removal through the cache takes out the very order that rests under the id, drops an emptied level, keeps the bijection, and leaves everything alone for an unknown id |
| BookSides.BookSide.Execute | arby/power_trade/order_book.cpp:142-180 | intended execution debits order, level and side alike, and the order leaves when nothing remains |
| BookSides.BookSide.ExecuteAsWritten | arby/power_trade/order_book.cpp:142-180 | what the statement as parsed does to one side, which still keeps the bijection |
| BookSides.BookSide.CacheIsSound | arby/power_trade/order_book.hpp:75-79 | in a coherent side every cache entry points at the node that rests under that id, in the level of its price |
| BookSides.BookSide.CoherentIdsAreUnique | arby/power_trade/order_book.hpp:75-79 | a coherent side holds no id twice, so the ladder determines the index |
| BookSides.BookSide.Rebuild | arby/power_trade/order_book.hpp:100-120 | the nested loops add an entry for every resting order, each pointing into this side's own nodes, and keep every entry there was |
| BookSides.BookSide.AssignAsWritten | arby/power_trade/order_book.hpp:91-123 | copying without clearing makes an equal ladder of fresh nodes whose index is right if and only if the old cache was empty |
| BookSides.BookSide.CacheEmptyIff | arby/power_trade/order_book.hpp:75-79 | in a coherent side the cache is empty if and only if no order rests |
| BookSides.BookSide.StaleEntry | arby/power_trade/order_book.hpp:100-110 | one entry into a level outside the ladder is enough to break the bijection |
| BookSides.BookSide.Same | arby/power_trade/order_book.hpp:42-47 | comparing level by level and node by node decides equality of the ladder values |
| BookSides.BookSide.Top | arby/power_trade/order_book.cpp:194-208 | the level shown has the highest price of a bid side and the lowest of an offer side, and none is shown exactly when the side is empty |
| OrderBooks.OrderBook.Add | arby/power_trade/order_book.cpp:67-94 | one side takes the order, the other is untouched, and the last update takes the step that `UpdateMovesOn` describes |
| OrderBooks.OrderBook.Remove | arby/power_trade/order_book.cpp:96-133 | the side named loses the order; for an unknown id the whole book, last update included, stays as it was |
| OrderBooks.OrderBook.Execute | arby/power_trade/order_book.cpp:142-180 | under either reading the heap book takes the value's step and stays coherent |
| OrderBooks.OrderBook.Reset | arby/power_trade/order_book.cpp:182-192 | both sides, indexes and totals are empty and the last update is the earliest instant |
| OrderBooks.OrderBook.Assign | arby/power_trade/order_book.hpp:91-123 | the target equals the source whatever it held, and is made of its own fresh nodes |
| OrderBooks.OrderBook.Equals | arby/power_trade/order_book.cpp:135-140 | the comparison, which ignores the indexes, holds exactly when the two books have the same value |
| OrderBooks.OrderBook.Replay | arby/power_trade/orderbook_snapshot_service.cpp:30-49 | any accepted tick takes the heap book through the value's step; a snapshot tick empties it and adds bids, then offers |
| OrderBooks.OrderBook.TopBid | arby/power_trade/order_book.cpp:194-200 | the price shown is the highest of the bids' levels, with its depth; none exactly when there is no bid |
| OrderBooks.OrderBook.TopOffer | arby/power_trade/order_book.cpp:202-208 | the price shown is the lowest of the offers' levels, with its depth; none exactly when there is no offer |
| LastUpdates.UpdateMovesOn | arby/power_trade/order_book.cpp:67-192 | a tick leaves the last update at the latest of its base and the instants it brings; the base is where it was, or the reset for a snapshot tick, and only additions and ticks about resting orders bring one |
| LastUpdates.UpdateNeverMovesBack | arby/power_trade/order_book.cpp:70-70 | short of a snapshot tick the last update never moves back, and a tick about an unknown order leaves it alone |
| LastUpdates.LastUpdateIsLatest | arby/power_trade/order_book.cpp:67-192 | over every stream, with either reading of `execute`, the last update is the latest of the instants brought since the last snapshot tick and the starting instant |
| LastUpdates.ResetBookShowsItsOrders | arby/power_trade/order_book.cpp:185-185 | after a snapshot tick with orders the last update is the time of one of them, however early, since a reset goes back to the earliest 64-bit instant |
| LastUpdates.UpstreamIsLatest | arby/power_trade/orderbook_snapshot_service.cpp:93-93 | after any run the update time of a snapshot handed out is the latest instant of its generation |
| BookCopies.ReplayBoth | arby/power_trade/order_book.cpp:135-140 | two equal books with separate nodes stay equal under every common stream of accepted ticks |
| BookCopies.CopyThenReplay | arby/power_trade/order_book.hpp:91-123 | whatever the target held, and however updates to copy and source are interleaved afterwards, each sees its own updates and none of the other's |
| Books.ExecuteAsWrittenIsRightIff | arby/power_trade/order_book.cpp:142-180 | the written `execute` equals the intended one if and only if the id is unknown, nothing is executed of an order with nothing left, or a bid alone at its level is executed in full |
| Books.RightOnlyThroughErasedEntry | arby/power_trade/order_book.cpp:151-160 | on an order of positive quantity the written text is right only by reading a cache entry it has erased |
| Books.AcceptsAddsSplit | arby/power_trade/orderbook_snapshot_service.cpp:37-40 | the promise about a snapshot's orders holds for the bids and then for the offers on top of them |
| Ladders.IdsAfterAdd | arby/power_trade/order_book.cpp:74-81 | adding adds exactly one id and creates no empty level |
| Ladders.IdsAfterSettle | arby/power_trade/order_book.cpp:104-113 | settling an order removes exactly its id, and only when it is erased; no level is left empty |
| FlatBooks.GroupedAdd | arby/power_trade/order_book.cpp:67-94 | adding to the ladder is appending to the flat list |
| FlatBooks.GroupedRemove | arby/power_trade/order_book.cpp:96-133 | removing through the cache is linear search and removal in the flat list |
| FlatBooks.GroupedExecute | arby/power_trade/order_book.cpp:142-180 | executing through the cache is linear search and debit in the flat list |
| FlatBooks.SlotIsPlace | arby/power_trade/order_book.cpp:101-105 | the place the index gives is the price and arrival rank that scanning gives |
| FlatBooks.StaysDistinct | arby/power_trade/order_book.cpp:80-91 | ids stay distinct under removal and execution, and under addition exactly when the id is new |
| FlatRuns.BookRefinesFlat | arby/power_trade/orderbook_snapshot_service.cpp:30-49 | over every accepted stream the indexed book is the flat list grouped by price, so levels keep arrival order |
| Conservation.QuantityIsConserved | arby/power_trade/order_book.cpp:67-180 | over every accepted stream each depth is the sum of its orders, each total the sum of its depths, and no level is empty |
| Conservation.RemovalAssertionsHold | arby/power_trade/order_book.cpp:106-109 | with positive additions and executions within what is left, the assertions of `remove` never fire, for any resting order |
| Conservation.TopIsBestResting | arby/power_trade/order_book.hpp:75-79 | the first level has the highest price among all resting bids, the lowest among all resting offers, and its depth is all that rests there |
| WrittenExecutions.AsWrittenKeepsTotalIff | arby/power_trade/order_book.cpp:142-180 | after a written execution of a positive order on a conserved book: a bid's keeps the bids' total a sum of depths if and only if it executes what leaves the depths; an offer's keeps its own side's if and only if the level stays, and the bids' if and only if nothing is executed |
| WrittenExecutions.ExecutedOrderStaysIff | arby/power_trade/order_book.cpp:153-153 | as written an executed order stays if and only if its quantity is 1 on an execution of zero, or 0 on any other; it then stays with quantity 0 |
| WrittenExecutions.TotalsAsWritten | arby/power_trade/order_book.cpp:153-176 | over every stream with `execute` as written, a side's total is what rests there plus the resting quantity of its executed orders, less, for the bids, all that was executed on either side |
| WrittenExecutions.RemovalAssertionsAsWrittenIff | arby/power_trade/order_book.cpp:106-125 | with `execute` as written and positive additions the assertions about depths and about the offers' total never fire; the one about the bids' total holds if and only if what was executed beyond the bids it took out is covered by the other bids |
| WrittenExecutions.RemovalAssertionFires | arby/power_trade/order_book.cpp:109-109 | one bid and one offer executed in full, whatever their quantities, make the bids' assertion fire |
| Conservation.AsWrittenKeepsDepthsIff | arby/power_trade/order_book.cpp:153-160 | after a written execution of a positive order the depths are still sums if and only if the order was alone and left with its level |
| TickHistories.TickKeepsRun | arby/power_trade/tick_history.hpp:38-42 | after a tick the keys still form one run ending below the next number, and key k holds the k-th tick |
| TickHistories.UnmarkKeepsRun | arby/power_trade/tick_history.hpp:57-71 | removing a mark leaves one run and every logged tick from any remaining mark on |
| TickHistories.KeptAboveAMark | arby/power_trade/tick_history.hpp:57-71 | a logged tick survives the removal of a mark, unchanged, if and only if another mark is at or below it; every copy of the mark goes and every other mark stays |
| TickHistories.TickHistory.RemoveWatermark | arby/power_trade/tick_history.hpp:57-71 | every copy of the mark goes, then all ticks below the lowest mark left, or all ticks if none is left |
| TickHistories.TickHistory.LowestWatermark | arby/power_trade/tick_history.hpp:69-69 | the first element of the multiset is its least |
| TickHistories.TickHistory.AddTick | arby/power_trade/tick_history.hpp:38-42 | the tick is logged under the next number |
| Feeds.FoldForgets | arby/power_trade/orderbook_snapshot_service.cpp:34-41 | a stream that opens with a snapshot tick leads to the same book from any book |
| SnapshotRuns.ReplayReaches | arby/power_trade/orderbook_snapshot_service.cpp:80-81 | replaying the logged ticks a book lacks brings it to the end of the log |
| SnapshotRuns.ProcessKeeps | arby/power_trade/orderbook_snapshot_service.cpp:51-98 | one call keeps the invariant over live book, log, marks and all snapshots in existence |
| SnapshotRuns.ProcessCopiesLive | arby/power_trade/orderbook_snapshot_service.cpp:69-95 | the book handed out is the live one, whether fresh, copied, or recycled and caught up, and blank on the very first tick if that is no snapshot tick |
| ServiceRuns.RunKeeps | arby/power_trade/orderbook_snapshot_service.cpp:51-118 | the invariant holds after every run of ticks, returns and destructions |
| ServiceRuns.RecyclingRefinesCopying | arby/power_trade/orderbook_snapshot_service.cpp:51-98 | after any run recycling with replay hands out the very snapshot of a service that copies the live book each time, if and only if the call is not the very first with a tick that would change a fresh book; there only the book differs |
| ServiceRuns.SnapshotIsLiveIff | arby/power_trade/orderbook_snapshot_service.hpp:25-26 | after any run a call hands out the live book under exactly that condition, and a blank book otherwise |
| ServiceRuns.PlainTracks | arby/power_trade/orderbook_snapshot_service.cpp:60-67 | both services go through the same generations, numbers and live books |
| ServiceRuns.HandsOutLiveIff | arby/power_trade/orderbook_snapshot_service.hpp:25-26 | event by event the same condition; if one event of a run hands out another book, no other event does |
| ServiceRuns.SnapshotShowsPrefix | arby/power_trade/orderbook_snapshot_service.cpp:90-95 | a snapshot, held or pooled, shows the ticks of its generation up to its number, applied to any starting book in generation 1 or later and to a blank one in generation 0; the snapshot numbered 0 of generation 0 is blank |
| ServiceRuns.SnapshotsAreDistinct | arby/power_trade/orderbook_snapshot_service.cpp:90-95 | no two snapshots carry the same generation and number, so erasing a mark by value takes one snapshot's mark only |
| ServiceRuns.FoundMeansComplete | arby/power_trade/orderbook_snapshot_service.cpp:72-83 | once a number is found in the log, every later tick is there too, and is the tick that arrived with that number |
| ServiceRuns.StepRetains | arby/power_trade/orderbook_snapshot_service.cpp:69-95 | in every generation, an event that neither recycles nor destroys a snapshot nor opens a generation keeps every tick that snapshot lacks |
| ServiceRuns.RunRetains | arby/power_trade/orderbook_snapshot_service.cpp:69-95 | the same over any number of such events |
| ServiceRuns.ListenerRun | arby/power_trade/orderbook_listener_impl.cpp:230-245 | with each snapshot returned for its successor, one snapshot is held, at most one pooled, and log and marks are known exactly |
| ServiceRuns.ListenerLogSize | arby/power_trade/orderbook_listener_impl.cpp:230-245 | under that discipline the log holds one or two ticks from the first snapshot tick on, and before it grows by one a tick |
| BookFeeds.HarmlessOnFreshBook | arby/power_trade/order_book.cpp:67-192 | short of a snapshot tick, exactly the additions change an empty book |
| BookFeeds.SnapshotsEqualLiveBookIff | arby/power_trade/orderbook_snapshot_service.cpp:51-98 | under either reading of `execute`, after any run a call hands out the live book, with its last update, if and only if its tick is not an addition that is the first tick of all; such a call hands out an empty book |
| BookFeeds.AcceptedRunIsReplayable | arby/power_trade/orderbook_snapshot_service.cpp:80-81 | on every run, a feed that adds no live id to the live book adds none in any replay either |
| StaleCopies.CopiesOverOrdersIff | arby/power_trade/orderbook_snapshot_service.cpp:70-88 | after any run a call copies the live book onto a snapshot that holds orders if and only if the snapshot it recycles is out of reach of replay and its ticks leave an order resting |
| StaleCopies.ListenerCopiesOverOrdersIff | arby/power_trade/orderbook_listener_impl.cpp:230-245 | a listener gets there if and only if the last tick or the one before is a snapshot tick and the book before those two holds an order, a lone first addition excepted |
| StaleCopies.SecondSnapshotCopiesOverOrders | arby/power_trade/orderbook_snapshot_service.cpp:85-88 | two snapshot ticks, the first with an order, are enough |
| SnapshotServices.SnapshotService.ProcessTick | arby/power_trade/orderbook_snapshot_service.cpp:51-98 | the heap service takes the value machine's step, and the snapshot it returns shares no object with it |
| ServiceDrivers.OnArrive | arby/power_trade/orderbook_snapshot_service.cpp:51-98 | a call changes none of the snapshots that others hold, and the one it hands out shares no object with them or the service |
| ServiceDrivers.Drive | arby/power_trade/orderbook_snapshot_service.cpp:51-118 | on every accepted run the heap service ends in the state of the value machine, beside held snapshots that spell out its held ones and are apart from each other and from it |
| SnapshotServices.SnapshotService.Allocate | arby/power_trade/orderbook_snapshot_service.cpp:100-111 | the snapshot returned last is taken from the pool, or a fresh one is made, and leaves the service's objects |
| SnapshotServices.SnapshotService.CatchUp | arby/power_trade/orderbook_snapshot_service.cpp:70-88 | replay of what the snapshot lacks, with its mark taken back, or a copy of the live book |
| SnapshotServices.SnapshotService.Label | arby/power_trade/orderbook_snapshot_service.cpp:90-95 | the snapshot carries the generation, number and update time of the tick it shows, and that number is marked |
| SnapshotServices.SnapshotService.DeallocateSnapshot | arby/power_trade/orderbook_snapshot_service.cpp:113-118 | the snapshot joins the end of the pool with its content |
| SnapshotRuns.LastReturnedIsNext | arby/power_trade/orderbook_snapshot_service.cpp:100-118 | the snapshot returned last is the one recycled next |
| FeedConditions.FeedCondition.Merge | arby/trading/feed_condition.cpp:32-43 | the worse of two states, and the errors of both in order |
| FeedConditions.Worse | arby/trading/feed_condition.hpp:21-21 | case by case, the maximum in the order good, stale, not ready, error |
| FeedConditions.FeedCondition.Reset | arby/trading/feed_condition.cpp:45-50 | the state given, and no errors |
| Listeners.Listener.constructor | arby/power_trade/orderbook_listener_impl.cpp:61-77 | connection unknown, no book, and a first snapshot that says both |
| Listeners.Listener.OnConnectionState | arby/power_trade/orderbook_listener_impl.cpp:28-51 | a drop makes the connection stale and the book no better than stale; coming up makes the connection good and sends one subscription |
| Listeners.Listener.OnCommandResponse | arby/power_trade/orderbook_listener_impl.cpp:186-202 | the answer to a subscription replaces what was known of the book |
| Listeners.Listener.OnTick | arby/power_trade/orderbook_listener_impl.cpp:229-246 | the new snapshot is shown with no trace of an earlier label, and the old one is given back as it was |
| Listeners.PublishedIsJoin | arby/power_trade/orderbook_listener_impl.cpp:260-267 | after any events the published state is, case by case, the worse of connection and book, and the errors are theirs in order |
| Listeners.PublishedGoodIff | arby/power_trade/orderbook_listener_impl.cpp:28-51 | good is published if and only if the connection is up and a tick came last among ticks, answers and drops |
| Listeners.PublishedErrorIff | arby/power_trade/orderbook_listener_impl.cpp:186-202 | error is published if and only if the last tick or answer is a refusal |
| Listeners.PublishedNotReadyIff | arby/power_trade/orderbook_listener_impl.cpp:28-77 | not ready is published if and only if the subscription is not refused, and the connection is still unknown, or there was no tick or answer yet, or the last of them is an accepted subscription |
| Listeners.PublishedStaleIff | arby/power_trade/orderbook_listener_impl.cpp:28-51 | stale is published if and only if a tick came after the last answer, and the connection is down, or is up after a drop with no tick since |
| Listeners.PublishedErrorsAre | arby/power_trade/orderbook_listener_impl.cpp:28-77 | the published errors, word for word, after any events |
| Listeners.BadWithoutErrorsIff | arby/power_trade/orderbook_listener_impl.cpp:28-51 | a state other than good comes without any error if and only if the feed is back up after a drop with a tick before and none since |
| Listeners.SilentlyStale | arby/power_trade/orderbook_listener_impl.cpp:28-51 | a tick, a drop and a reconnection publish stale with no error |
| ListenerBooks.ShowsLiveBookIff | arby/power_trade/orderbook_listener_impl.cpp:229-246 | the snapshot the listener shows has the live book if and only if its ticks so far are not one addition alone; then it is empty |
| ListenerBooks.ShowsTicksSinceSnapshot | arby/power_trade/orderbook_listener_impl.cpp:229-246 | and that book is the ticks from any snapshot tick on, applied to any book |
| ListenerBooks.GoodHasTicks | arby/power_trade/orderbook_listener_impl.cpp:242-245 | nothing is called good before a tick was applied |
| ListenerBooks.GoodButNotLiveIff | arby/power_trade/orderbook_listener_impl.cpp:229-267 | a snapshot is called good without having the live book if and only if the feed is up and live and its one tick so far is an addition |
| ListenerBooks.GoodBeforeSnapshot | arby/power_trade/orderbook_listener_impl.cpp:229-246 | there is such a run: a connection and an added order |
| Bilists.BilistNode.LinkBefore | lib/asioex/detail/bilist_node.hpp:59-66 | linking in front of the k-th node inserts at that position of the ring, and in front of the sentinel appends |
| Bilists.BilistNode.Unlink | lib/asioex/detail/bilist_node.hpp:50-57 | unlinking removes the node from any position and leaves one ring with inverse links |
| Semaphores.Semaphore.AsyncAcquire | lib/asioex/impl/basic_async_semaphore.hpp:40-61 | the operation succeeds at once if a permit is free, else it waits behind all others |
| Semaphores.Semaphore.TryAcquire | lib/asioex/impl/async_semaphore_base.hpp:61-71 | true exactly when a permit was free, which is then taken |
| Semaphores.Semaphore.Release | lib/asioex/impl/async_semaphore_base.hpp:48-59 | the oldest waiter gets the permit, or the count grows; the assertion of `decrement` holds |
| Semaphores.Semaphore.Complete | lib/asioex/detail/impl/semaphore_wait_op_model.hpp:71-81 | the slot is cleared, the node leaves the ring from any position, and the handler is posted once |
| Semaphores.Semaphore.Cancel | lib/asioex/detail/impl/semaphore_wait_op_model.hpp:57-68 | a signal with one of the three kinds set takes the waiter whose slot it reaches out of the ring and aborts it; any other signal, and any signal after completion, does nothing |
| SemaphoreRuns.CancelAbortsIff | lib/asioex/detail/impl/semaphore_wait_op_model.hpp:57-81 | after any run a signal aborts a waiting operation, and it alone, if and only if terminal, partial or total is set; otherwise the state stays as it was |
| Semaphores.Semaphore.Destroy | lib/asioex/impl/async_semaphore_base.hpp:25-34 | the intended loop ends with an empty ring and every waiter aborted, oldest first |
| Semaphores.Semaphore.DestructorWalk | lib/asioex/impl/async_semaphore_base.hpp:25-34 | the loop as written visits the sentinel and all but the newest waiter; it is right exactly when nobody waits |
| SemaphoreRuns.RunIsSettled | lib/asioex/impl/async_semaphore_base.hpp:48-78 | after any run the count is not negative, and nobody waits while a permit is free |
| SemaphoreRuns.PermitAccount | lib/asioex/impl/basic_async_semaphore.hpp:40-61 | initial permits and releases equal the count and the successes, but for immediate successes as written |
| SemaphoreRuns.AsWrittenConservesIff | lib/asioex/impl/basic_async_semaphore.hpp:43-47 | as written permits are conserved over a run if and only if no asynchronous acquire found one free |
| SemaphoreRuns.AsWrittenSharesPermit | lib/asioex/impl/basic_async_semaphore.hpp:43-47 | one permit serves two operations |
| SemaphoreRuns.RunInOrder | lib/asioex/async_semaphore.hpp:97-108 | over any run those served, then those waiting, are in order of arrival, cancelled ones skipped |
| SemaphoreRuns.RunCompletesOnce | lib/asioex/async_semaphore.hpp:97-108 | after any run every operation begun either waits or has completed, exactly once |
| SemaphoreRuns.CompletedIff | lib/asioex/async_semaphore.hpp:97-108 | over any run an operation succeeds if and only if it found a permit or was the oldest waiter at a release, and is aborted if and only if a signal of a known kind found it waiting |
| SemaphoreRuns.DestroyedAbortsAll | lib/asioex/async_semaphore.hpp:102-104 | destruction posts one abort for each waiter, in ring order, and nothing else |
| SemaphoreRuns.EveryOpCompletesOnce | lib/asioex/async_semaphore.hpp:97-108 | after any run and destruction every operation has completed exactly once, and destruction serves nobody |
| StringLists.StringList.Link | lib/util/truncate.cpp:50-56 | the node joins the front of a chain that stays free of cycles |
| StringLists.StringList.Unlink | lib/util/truncate.cpp:58-68 | the first free node leaves the chain with a null link, or there is none |
| StringLists.StringList.DeleteAll | lib/util/truncate.cpp:75-79 | the destructor deletes every free node once |
| StringLists.Pop | lib/util/truncate.cpp:81-88 | the new handle takes the first free node if there is one and a new node if not, no other handle owns it, and no node is lost |
| StringLists.MoveConstruct | lib/util/truncate.cpp:28-32 | ownership moves, and every node stays free or owned exactly once |
| StringLists.MoveAssign | lib/util/truncate.cpp:34-42 | every node stays free or owned exactly once if and only if the handles differ or the target is empty |
| StringLists.GiveBack | lib/util/truncate.cpp:44-48 | the end of a handle returns its node to the free chain |
| StringLists.Transform | lib/util/truncate.cpp:92-109 | the text shown is the text cut to the limit, or what the handle's buffer holds; a buffer is taken, from the free list first, exactly when an empty handle gets a text that is too long; no other handle's text changes |
| StringLists.Truncated | lib/util/truncate.cpp:95-101 | the text fits the limit, or three characters if that is less; it is unchanged exactly when it already did, and otherwise fills the limit with its beginning and three dots |
| MarketKeys.ParseSpotKey | arby/trading/spot_market_key.cpp:25-49 | the search and the lowering loops compute the parse |
| MarketKeys.Converter.NativeSymbol | arby/power_trade/native_symbol.cpp:25-31 | the buffer ends as the upper-case symbol and is what is returned |
| MarketKeys.ParsesIff | arby/trading/spot_market_key.cpp:28-43 | a text parses if and only if it holds a slash, a dash, a blank or an underscore; otherwise the error quotes it |
| MarketKeys.ParsedSpelling | arby/trading/spot_market_key.cpp:41-48 | what stands before the first separator is the base and what follows the term, with capitals made small and nothing else changed |
| MarketKeys.PrintSpelling | arby/trading/spot_market_key.cpp:71-75 | a printed key is base, slash, term |
| MarketKeys.NativeSpelling | arby/power_trade/native_symbol.cpp:25-31 | a symbol is base, dash, term with small letters made capitals and nothing else changed |
| MarketKeys.PrintThenParseIff | arby/trading/spot_market_key.cpp:71-75 | a key survives printing and parsing if and only if it is lower case with no separator in its base |
| MarketKeys.NativeThenParseIff | arby/power_trade/native_symbol.cpp:25-31 | a key survives its native symbol under exactly the same condition |
| MarketKeys.ParsedKeysRoundTrip | arby/trading/spot_market_key.cpp:25-49 | for every text that parses, printing or symbol and parsing again give the same key |
| MarketKeys.NativeIsInjective | arby/power_trade/native_symbol.cpp:25-31 | canonical keys have the same symbol only if they are the same key |
| MarketKeys.SameMarketIff | arby/trading/spot_market_key.cpp:25-49 | two texts parse to the same key if and only if they agree up to case and the choice of first separator |

## Left out

- Conservation.QuantityIsConserved: is about the intended `execute`; `AsWrittenKeepsDepthsIff`, `AsWrittenKeepsTotalIff` and `TotalsAsWritten` say what the written one does.
- Conservation.RemovalAssertionsHold: likewise; `RemovalAssertionsAsWrittenIff` is its counterpart for the written one.
- BookSides.BookSide.AssignAsWritten: what a later replay does through a stale entry is not modelled, only that the bijection is lost.
- Books.ExecuteAsWrittenIsRightIff: the lookup through the erased cache entry is taken to find the level it named; what reading freed memory does otherwise is not modelled.
- Semaphores.Semaphore.DestructorWalk: follows the loop as if completing a node left the ring alone; what calling `complete` on the sentinel does is not modelled.
- Listeners.Listener.OnTick: the snapshot the service hands out is a parameter; `ListenerBooks` joins the two for whole runs on values.
- Rounding of the decimal type, wrap-around of 64-bit sequence numbers and of the semaphore's `int`, and the wall-clock `timestamp` of a snapshot: quantities are exact, counters unbounded, and the timestamp is not part of a snapshot here.
- The order in which a `std::map` is walked: levels and caches are Dafny maps holding references; the ladder's order enters through `IsFirst`, and a bid ladder and an offer ladder share one class.
- `parents_` of a snapshot, which `deallocate_snapshot` clears and nothing in these files fills.
- Subscribers that keep a published snapshot: the listener's discipline has each one returned once its successor is shown. `ServiceRuns` covers holders who keep snapshots for any time.
- Cancellation slots that are not connected: such an operation is one to which no signal is sent.
- Stream extraction of a market key (`operator>>`), which reads a word first, and `market_key` variants: spot keys are the only kind there is.
- `to_string` of a truncated JSON object, which does not truncate, and all other printing and logging.
- Decoding of ticks from JSON, the connector, its send queue, web and TLS code, resolvers and coroutine scheduling: events are taken as already ordered handler calls.
- `lib/asioex/detail/impl/async_semaphore_base.hpp`, a near-duplicate of the semaphore modelled here.
- The FIX connector and the aggregate book, which decide nothing yet.
