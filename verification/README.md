# A proved model of the order book, its memory pool and its market data feed

The repository is a single-threaded central limit order book with price-time priority, whose orders
live in a fixed pool behind a lock-free free list, and whose market data leaves through a
single-producer single-consumer ring buffer drained by a consumer thread. This project models all
three in Dafny and proves the properties they exist for.

**The matching engine.** `OrderBooks.OrderBook` follows `order_book.cpp` over heap objects: pool-owned
orders linked through `prev` and `next`, price levels with cached aggregates, one ordered map of
levels per side, the id index, the statistics and the two callbacks (as logs). Its class invariant
ties the heap to a value, `BookSpec.Book`: one flat price-time queue per side, the index, the LIFO
free list, the trade log and a ledger of every order ever accepted. Each public method is proved to
take exactly one step of `BookSpec`. Everything else is proved about those steps and about whole runs
of commands: what matching computes, in closed form; price-time priority; fill-or-kill; the
invariant of every reachable book; conservation of traded quantity; which slots are held by whom;
what ticks, ids and statistics report; undo, amendment, splitting and mirror laws.

**The free list.** `MemoryPools.MemoryPool` is the pool as the engine uses it. `FreeListProtocol` is the
same list under its stated contract, one allocating thread and any number of deallocating threads:
each load, link access, compare-exchange (which may fail spuriously) and counter update is a step of
its own, and every interleaving is covered. `FreeListHistory` accounts for what the calls return.

**The ring and the feed.** `RingBuffers` and `MarketDataFeeds` are the calls one at a time;
`RingProtocol` and `FeedProtocol` interleave their loads and stores, with each thread's stale copy of
the other's index.

Quantities are 32-bit and wrap (`OrderTypes.Wrap`), ring sizes wrap at 64 bits (`Masks.Size`).

## Files

| file | contents |
|---|---|
| `OrderTypes.dfy` | order records, quantities, trades, ticks |
| `PriceTimeQueue.dfy` | the flat queue of one side, the greedy fill and its closed form |
| `BookSpec.dfy` | the book as a state machine over values, commands and runs |
| `BookInvariant.dfy`, `BookRuns.dfy` | the invariant of reachable books, kept by every step |
| `MatchTheorems.dfy` | matching is the greedy fill; price-time priority |
| `FillOrKill.dfy`, `LimitLaws.dfy` | all-or-nothing, and when the pre-check is wrong; no trade beyond a limit |
| `ReportLaws.dfy` | ticks, ids and statistics of a run |
| `BookLaws.dfy`, `OrderLaws.dfy`, `LeakLaws.dfy`, `SweepSplitting.dfy`, `MirrorSymmetry.dfy` | laws of runs and of several calls |
| `Levels.dfy`, `PriceLevels.dfy`, `LevelMaps.dfy`, `MemoryPools.dfy`, `OrderBooks.dfy`, `EngineRuns.dfy` | the engine on the heap, one call and a whole run |
| `FreeListProtocol.dfy`, `FreeListHistory.dfy` | the concurrent free list, and its calls and returns |
| `Masks.dfy`, `RingBuffers.dfy`, `RingProtocol.dfy` | index arithmetic and the ring |
| `MarketDataFeeds.dfy`, `FeedProtocol.dfy`, `FeedLiveness.dfy` | the feed |

## Where the code differs from its documentation

- `order_book.hpp:69` promises that FOK rejects only what cannot be filled. The pre-check adds 32-bit
  aggregates, so it can reject a fillable order (`FillOrKill.FokRejectsAFillableOrder`), but only if a
  single price within the limit holds more than 2^32 - qty units; `FillOrKill.FokWindows` gives the
  decision for every book. Acceptance is never wrong (`FillOrKill.FokDecision`).
- `order_book.hpp:93` says the returned id is never 0. It is 0 exactly on a zero quantity, a LIMIT
  without a positive price, or a full index (`BookLaws.AddRefusedExactly`).
- An order that is filled on arrival keeps its index entry and its pool slot for ever
  (`order_book.cpp:117-127`); `BookLaws.FilledOnArrivalExactly` and `BookLaws.StepFilledTakers` say which
  orders. A book can trade again if and only if two of its slots are not held that way
  (`LeakLaws.CanTradeAgain`); filled takers never hold the last slot, but for every capacity a run gets to
  all other slots, and the book is then dead (`LeakLaws.DeadBookIsReachable`).
- IOC ignores its price (`SweepSplitting.IocIsMarket`). It stays within it exactly when the depth within the
  limit covers it or is all there is (`FillOrKill.PriceBlindWithin`).
- `market_data_feed.hpp:48` says stop() flushes the remaining ticks. That holds when no publish is in
  progress (`FeedProtocol.StopFlushes`); otherwise an accepted tick can be left
  unhandled when stop() returns (`FeedProtocol.LateTickIsStranded`), until a later start() handles it
  (`FeedProtocol.RestartFlushes`).
- `spsc_ring_buffer.hpp:123` bounds the staleness of size_approx() by 1. On the two threads that use
  the ring it is exact at one of its loads (`RingProtocol.SizeIsExact`); on a third thread it holds
  exactly under the condition of `RingProtocol.SizeForAnyThread`, and can fail
  (`RingProtocol.ThirdThreadCanBeFarOff`).
- in_use() of the pool can exceed its capacity for a moment, and available() then wraps
  (`FreeListProtocol.CounterCanExceedCapacity`; `FreeListProtocol.CounterIsExactAtRest` says when).

## Model

| member | source | states |
|---|---|---|
| PriceTimeQueue.FillIsWaterfall | order_book.cpp:132-164 | the greedy fill in closed form, without recursion: the order at position k receives its share of a pour over the reachable orders, the trades are with the leading orders in queue order at their own prices, the survivors are the orders behind the exhausted ones, and the unfilled rest is demand minus reachable depth |
| PriceTimeQueue.SortedInsert | order_book.cpp:257-272 | an order that rests with the latest stamp keeps its side in price-time order |
| MatchTheorems.MatchIsFill | order_book.cpp:132-197 | matching one head at a time yields the same trades, remaining queue and unfilled rest as the greedy fill; exhausted makers leave the index and their slots return last-out first |
| MatchTheorems.AddExecutes | order_book.cpp:99-130 | an accepted order is either rejected by the FOK pre-check with no trade, or its trades, the opposing side, its own side, the index, the free list and its final record are those of the closed form; only the residual of a non-LIMIT is dropped, a filled order stays indexed |
| MatchTheorems.QuietAdd | order_book.cpp:117-120 | a LIMIT that reaches no opposing order only joins its own side |
| MatchTheorems.StepHasPriority | order_book.hpp:56 | for every operation and all four order types: whenever a maker trades, every order of its side with a better price, or the same price and an earlier stamp, was exhausted by an earlier trade of that call and no longer rests |
| MatchTheorems.RunHasPriority | order_book.hpp:56 | price-time priority of every trade of every run |
| BookRuns.StepKeepsInv | order_book.cpp:18-130 | add, cancel and amend keep the whole book invariant: sorted queues, records that agree with them, disjoint slots, exact ledger, no crossed sides, no exhausted order left |
| BookRuns.ReachableInv | order_book.cpp:132-138 | every reachable book satisfies it; in particular best bid < best ask whenever both sides are non-empty |
| BookInvariant.MatchKeeps | order_book.cpp:132-197 | matching keeps the invariant, touches nothing but the opposing side, the pool, the index and the records, and stops only when the taker is filled, the side is empty or a LIMIT is out of reach |
| FillOrKill.FokAcceptsOnlyFillable | order_book.cpp:199-215 | if the pre-check accepts, the true depth within the limit covers the order |
| FillOrKill.FokWindows | order_book.cpp:199-215 | the decision in terms of true depths only: accepted if and only if at some price within the limit the true depth lies in a window [m 2^32 + qty, (m + 1) 2^32) |
| FillOrKill.CompletingPrice | order_book.cpp:199-215 | at the price that completes the quantity the true depth exceeds it by less than that one price holds |
| FillOrKill.FokDecision | order_book.cpp:199-215 | the pre-check accepts only fillable orders; it accepts every order for which some price within the limit has a sufficient true depth below 2^32, so it is exact whenever no single price within the limit holds more than 2^32 - qty units, or the whole depth within the limit is below 2^32; in general it is right if and only if the order is unfillable or some true depth within the limit lies in a window [m 2^32 + qty, (m + 1) 2^32) |
| FillOrKill.FillWithin | order_book.cpp:166-171 | an order that ignores prices while matching still trades only within its limit and is filled, if the depth within the limit covers it |
| FillOrKill.PriceBlindWithin | order_book.cpp:132-139 | an order that ignores prices while matching stays within its limit if and only if the depth within the limit covers it or is all that rests |
| FillOrKill.FokAllOrNothing | order_book.cpp:99-115 | FOK ends FILLED with every trade at its price or better, or REJECTED with both sides, the log, the index, the free list, the clock and the ticks unchanged |
| FillOrKill.FokRejectsAFillableOrder | order_book.cpp:199-215 | a reachable book offering 2^32 units where a FOK for one unit is rejected |
| BookLaws.IndexIsRestingPlusFilled | order_book.cpp:117-127 | the index is the disjoint union of the resting orders and the orders filled on arrival, and with the free list it accounts for every slot |
| BookLaws.AddRefusedExactly | order_book.cpp:18-24 | add_order returns 0 if and only if the quantity is 0, a LIMIT has no positive price, or the index holds as many entries as the pool has slots |
| BookLaws.StepFilledTakers | order_book.cpp:117-127 | each operation adds to the set of filled takers exactly the order it filled on arrival, and removes none |
| BookLaws.LeakIsPermanent | order_book.cpp:18-24 | over any later run the resting orders and today's filled takers fit into the pool together |
| BookLaws.FilledOnArrivalExactly | order_book.cpp:117-127 | an admitted order is filled on arrival, and so leaks its slot, if and only if the FOK pre-check lets it through and its quantity is at most what it can reach |
| LeakLaws.LeakStaysBelowCapacity | order_book.cpp:117-127 | in every run filled takers hold fewer slots than the pool has |
| LeakLaws.DeadBook | order_book.cpp:22-24 | once fewer than two slots are not held by filled takers, no run of any commands trades again |
| LeakLaws.CanTradeAgain | order_book.cpp:22-24 | from any book some run trades again if and only if at least two slots are not held by filled takers |
| LeakLaws.DeadBookIsReachable | order_book.cpp:117-127 | for every capacity, capacity - 1 crossing pairs of one unit lead to an empty book that never trades again |
| BookLaws.TickShowsTheBest | order_book.cpp:288-308 | in every state between calls a tick shows the best price of each side, 0 exactly for an empty side, with everything that rests at that price modulo 2^32, its bid is below its ask, and it carries price and quantity of the last trade in the log, 0 before the first |
| BookLaws.LastTickIsCurrent | order_book.cpp:288-308 | after every run the last published tick is the current top of book, and where none was published that is all zero |
| ReportLaws.StepTicks | order_book.cpp:288-308 | an accepted order that is not rejected by the FOK pre-check, a cancellation and an amendment that succeed publish exactly one tick each, which shows the book they leave; every other call publishes none |
| ReportLaws.EveryTickIsTrue | order_book.cpp:288-308 | over every run there is one tick per such call, in order, and each shows the book as that call left it |
| ReportLaws.TickCarriesTheTrade | order_book.cpp:240-241 | the tick of an order that trades carries price and quantity of the last of its own trades, as the closed form of the fill lists them |
| ReportLaws.StatisticsCount | order_book.cpp:36-55 | over every run orders_added grows by the number of accepted orders and orders_cancelled by the number of cancellations that found their order resting, and no other call moves either |
| ReportLaws.IdsAreConsecutive | order_book.hpp:151 | add_order returns one more than the number of orders accepted before it |
| LimitLaws.NobodyTradesThrough | order_book.cpp:132-139 | over every run no LIMIT and no FOK order trades, as the incoming order, at a price worse than its own |
| BookLaws.TradesAreConserved | order_book.cpp:217-255 | over every run each order's fill is the logged volume naming it, at most its quantity and equal to it exactly when FILLED; bid fills, ask fills and the log's volume are equal; every trade pairs a bid with an ask at the maker's price |
| BookLaws.ClosedForever | order_book.cpp:150-155 | an id that is FILLED, CANCELLED or REJECTED keeps its record and names no later trade over any run, even when its slot is used again |
| OrderLaws.AddThenCancel | order_book.cpp:45-60 | a non-crossing LIMIT and its cancellation restore both queues, the index, the LIFO free list and the log exactly |
| OrderLaws.CancelRemovesExactly | order_book.cpp:45-60 | cancel succeeds exactly on a resting order, takes only that order out and is counted once |
| OrderLaws.AmendMoves | order_book.cpp:63-96 | amend succeeds exactly on a resting order and a quantity beyond its fill; more quantity moves it behind every order at its price or better under the latest stamp, with all other orders in their old order; less changes its quantity only; no statistic moves |
| SweepSplitting.FillInTwo | order_book.cpp:132-197 | filling with one taker and then another leaves the queue and takes from each maker what a taker wanting both quantities does, with at most one more trade |
| SweepSplitting.SplitSweep | order_book.cpp:99-130 | a MARKET or IOC quantity sent in two parts leaves the same two sides, the same traded volume of every earlier order and the same total, with at most one more trade |
| SweepSplitting.IocIsMarket | order_book.cpp:132-139 | an IOC order leaves the book, log, index and free list that a MARKET order of its quantity leaves, whatever its price |
| MirrorSymmetry.MirrorMatch | order_book.cpp:132-197 | matching the mirrored taker in the mirrored book is the mirror image of matching |
| MirrorSymmetry.MirrorStep | order_book.cpp:132-197 | each operation on the book with sides swapped and prices reflected is the mirror image of the operation, ticks included |
| MirrorSymmetry.MirrorRun | order_book.hpp:153-156 | whole runs of mirrored commands correspond step for step |
| MirrorSymmetry.MirrorTwice | order_book.hpp:153-156 | mirroring is an involution on the book, ticks aside, and a fresh book is its own mirror image |
| Levels.EnoughIsFokAccepts | order_book.cpp:199-215 | the pre-check over cached level aggregates decides the same as the one over the flat queue |
| Levels.StopsAfterIsFokAmount | order_book.cpp:199-215 | the amount accumulated over levels is the one defined on the flat queue |
| Levels.LadderReadsLevels | order_book.cpp:332-350 | reading the first levels of a side gives the depth ladder of its flat queue |
| PriceLevels.PriceLevel.PushBack | order_book.hpp:26-34 | appends to the linked FIFO: links, ends, count and the 32-bit aggregate |
| PriceLevels.PriceLevel.Unlink | order_book.hpp:37-41 | the neighbours of the removed order, or the ends of the level, step over it |
| PriceLevels.PriceLevel.Remove | order_book.hpp:37-45 | takes exactly that order out of the linked FIFO, through its own links, which end up null, and its remaining quantity out of the aggregate |
| LevelMaps.LevelMap.Available | order_book.cpp:199-215 | the result is the 32-bit sum over the levels up to the first within the limit where it reaches the wanted quantity, or over all within the limit |
| LevelMaps.LevelMap.Reduce | order_book.cpp:227-238 | lowering one level's aggregate makes it the sum modulo 2^32 of the level's new contents, and leaves every other level as it was |
| LevelMaps.LevelMap.RemoveOrder | order_book.cpp:274-286 | removes one position of the flat queue and leaves no empty level |
| LevelMaps.LevelMap.AtOrInsert | order_book.cpp:257-264 | finds the level of a price or creates it in order, without changing the flat queue |
| LevelMaps.LevelMap.RestOrder | order_book.cpp:257-272 | inserts into the flat queue at the back of the order's price, with the aggregate repaired for earlier fills |
| MemoryPools.MemoryPool.constructor | memory_pool.hpp:45-54 | links all slots in order into the free list |
| MemoryPools.MemoryPool.PopFreeSlot | memory_pool.hpp:111-124 | takes the top of the list, null when it is empty |
| MemoryPools.MemoryPool.PushFreeSlot | memory_pool.hpp:129-137 | puts a slot on top of the list |
| MemoryPools.MemoryPool.Allocate | memory_pool.hpp:70-76 | null exactly when the list is empty, otherwise its top slot, counted |
| MemoryPools.MemoryPool.Deallocate | memory_pool.hpp:82-94 | the slot becomes the top of the list and the count goes down, without underflow |
| MemoryPools.MemoryPool.Usage | memory_pool.hpp:96-104 | available() is the length of the free list, and with in_use() it adds up to the capacity |
| OrderBooks.OrderBook.constructor | order_book.cpp:8-15 | a fresh engine represents the empty book |
| OrderBooks.OrderBook.NewOrder | order_book.cpp:22-37 | null exactly when no slot is free; otherwise the new order sits in the top slot under a new id, indexed and recorded |
| OrderBooks.OrderBook.ExecuteTrade | order_book.cpp:217-246 | fills, statuses, the maker's level aggregate, last trade, statistics and trade log of one trade with the best opposing order |
| OrderBooks.OrderBook.RemoveFilled | order_book.cpp:150-155 | an exhausted maker leaves its level and the index, and its slot goes on top of the free list |
| OrderBooks.OrderBook.FillHead | order_book.cpp:144-158 | one turn of the inner loop is one step of the abstract match, and the next maker is the level's new head |
| OrderBooks.OrderBook.MatchLevel | order_book.cpp:144-158 | the inner loop consumes the best level: the rest of the match is what it was, the other levels are untouched, and an active taker leaves the level empty |
| OrderBooks.OrderBook.MatchAgainstAsks | order_book.cpp:132-164 | the nested loops over the ask levels compute the match of the abstract book |
| OrderBooks.OrderBook.MatchAgainstBids | order_book.cpp:166-197 | the nested loops over the bid levels compute the match of the abstract book |
| OrderBooks.OrderBook.CheckFokFillable | order_book.cpp:199-215 | the result is the 32-bit depth of the flat queue at the first price within the limit where it suffices, else at the last price within the limit, else 0; it covers the order exactly when the flat queue's pre-check accepts |
| OrderBooks.OrderBook.RestOrder | order_book.cpp:257-272 | the heap then represents the abstract rest, and no level is empty |
| OrderBooks.OrderBook.RemoveFromBook | order_book.cpp:274-286 | the heap then represents the abstract removal, and no level is empty |
| OrderBooks.OrderBook.Requeue | order_book.cpp:71-77 | removal, new quantity and rest together are the abstract upward amendment |
| OrderBooks.OrderBook.ReduceInPlace | order_book.cpp:78-92 | aggregate and quantity together are the abstract downward amendment |
| OrderBooks.OrderBook.SettleOrder | order_book.cpp:117-127 | a live LIMIT rests, any other live order is closed as CANCELLED, a filled order is left indexed |
| OrderBooks.OrderBook.PublishMarketData | order_book.cpp:288-308 | the tick sent is the top of the abstract book, which `BookLaws.TickShowsTheBest` describes |
| OrderBooks.OrderBook.MatchOrder | order_book.cpp:99-130 | one accepted order is processed as in the abstract book, and the class invariant is restored |
| OrderBooks.OrderBook.AddOrder | order_book.cpp:18-42 | keeps the class invariant and takes exactly the abstract step, result included |
| OrderBooks.OrderBook.CancelOrder | order_book.cpp:45-60 | keeps the class invariant and takes exactly the abstract step, result included |
| OrderBooks.OrderBook.AmendOrder | order_book.cpp:63-96 | keeps the class invariant and takes exactly the abstract step, result included |
| OrderBooks.OrderBook.HistoryIsKept | order_book.cpp:240-254 | between calls the callbacks have seen exactly the book's trades and ticks, and the statistics count them |
| EngineRuns.Execute | order_book.hpp:96-110 | a fresh engine given any list of commands ends in the state of the abstract run, with its trades and ticks published and its statistics counting trades, volume, accepted orders and successful cancellations: the run theorems hold of the heap |
| OrderBooks.OrderBook.BestPrices | order_book.cpp:311-330 | best prices with the sentinels of an empty side, the 32-bit quantities resting at them, and a positive spread between non-empty sides |
| OrderBooks.OrderBook.DepthSnapshot | order_book.cpp:332-350 | the ladder of the flat queue: price, 32-bit open quantity and number of orders of the best levels |
| OrderBooks.OrderBook.LevelsAreFaithful | order_book.hpp:19-48 | between calls every level is non-empty, its links and ends spell its FIFO, its count is the FIFO's length, its aggregate is the sum of remaining() modulo 2^32 and exact below it, and each order in it is indexed, active, partly open and at the level's price and side |
| OrderBooks.OrderBook.LevelsAreApart | order_book.hpp:153-156 | levels are strictly ordered by price and no order is linked twice |
| OrderBooks.OrderBook.PoolAgreesWithIndex | order_book.hpp:122 | in_use() equals order_count(), which counts the resting orders plus the filled takers |
| FreeListProtocol.StepKeepsInv | memory_pool.hpp:111-137 | the inductive invariant: acyclic list, one holder per slot, the allocator's candidate stays on the list with its link unchanged, exact counts |
| FreeListProtocol.ExchangesAreStackOperations | memory_pool.hpp:111-137 | in every interleaving the successful exchanges replay as operations of a sequential LIFO stack, which the links in memory spell |
| FreeListProtocol.SlotsArePartitioned | memory_pool.hpp:21 | each slot is on the list, just won by the allocator, with a client, or with the one thread that is freeing it, and in only one of these places |
| FreeListProtocol.NoDoubleHandOut | memory_pool.hpp:111-124 | between two allocations of a slot there is a free of it, in every interleaving |
| FreeListProtocol.ExchangesAreFresh | memory_pool.hpp:115-118 | a successful pop has the right top and the right next link although both were read earlier; a successful push has the current head in its link |
| FreeListHistory.CallsAreAccounted | memory_pool.hpp:70-94 | in every interleaving each call of allocate() but the one in progress has returned, null once per time the list was found empty and slot x once per time it was popped; each call of deallocate() but those in progress has returned and pushed its slot once; slot x was given out as often as given back, and once more exactly while a client has it |
| FreeListHistory.NullAfterEmpty | memory_pool.hpp:111-124 | a call of allocate() that returns null has found the list empty since it began |
| FreeListHistory.AllocateAlone | memory_pool.hpp:111-124 | from every state of the other threads, allocate() alone ends within five more steps |
| FreeListHistory.FreeAlone | memory_pool.hpp:129-137 | the same for any call of deallocate() |
| FreeListProtocol.HeadMovesBySuccess | memory_pool.hpp:111-137 | if the head differs between two states of a run, some exchange succeeded between them |
| FreeListProtocol.FailureIsProgress | memory_pool.hpp:21 | lock-freedom: a thread's exchange fails, other than spuriously, only if an exchange of another call succeeded since the thread read the head |
| FreeListProtocol.AbaHappens | memory_pool.hpp:129-137 | a schedule in which a pusher's head leaves the list, comes back, and its exchange succeeds |
| FreeListProtocol.NullMeansEmpty | memory_pool.hpp:111-124 | null is loaded only by the first load of allocate() and only from an empty list; allocate() ends only with the slot it won or after it has loaded null |
| FreeListProtocol.CounterIsExactAtRest | memory_pool.hpp:70-94 | the counter's exact lag behind the list at every step; exact when no call is in progress; never negative; within the capacity if and only if no more frees lag behind than slots are on the list or just won |
| FreeListProtocol.CounterCanExceedCapacity | memory_pool.hpp:96-104 | a schedule in which a pool of one slot counts two in use |
| Masks.PowerOfTwoTest | spsc_ring_buffer.hpp:33-34 | N & (N-1) == 0 holds exactly for powers of two |
| Masks.MaskIsModulo | spsc_ring_buffer.hpp:37 | masking with a power of two minus 1 is reduction modulo it |
| Masks.SizeFormula | spsc_ring_buffer.hpp:125-129 | the masked difference is the distance from tail to head although the subtraction wraps at 64 bits |
| RingBuffers.SPSCRingBuffer.Push | spsc_ring_buffer.hpp:58-73 | appends unless capacity - 1 items are held |
| RingBuffers.SPSCRingBuffer.Pop | spsc_ring_buffer.hpp:100-111 | removes the oldest item, or reports empty |
| RingBuffers.SPSCRingBuffer.Peek | spsc_ring_buffer.hpp:116-120 | the oldest item, or nothing exactly when empty |
| RingBuffers.SPSCRingBuffer.SizeApprox | spsc_ring_buffer.hpp:125-129 | the number of items |
| RingBuffers.SPSCRingBuffer.Empty | spsc_ring_buffer.hpp:131-134 | true exactly when nothing is held |
| RingBuffers.SPSCRingBuffer.Full | spsc_ring_buffer.hpp:136-140 | true exactly at capacity - 1 items |
| RingProtocol.StepKeepsInv | spsc_ring_buffer.hpp:58-111 | the inductive invariant of all interleavings, stale indices included |
| RingProtocol.FirstInFirstOut | spsc_ring_buffer.hpp:58-111 | in every interleaving the arguments of the accepted calls of push are, in order, what the calls of pop returned, the contents of the slots from tail to head and the item still to be published, with at most capacity - 1 items held |
| RingProtocol.NoSharedSlot | spsc_ring_buffer.hpp:58-111 | from its check on the producer may write its slot, from its check on the consumer may read its slot; they are different and in bounds |
| RingProtocol.RefusalsAreExact | spsc_ring_buffer.hpp:58-104 | push refuses exactly when full at its load of tail, pop exactly when empty at its load of head |
| RingProtocol.CallsEndRightly | spsc_ring_buffer.hpp:58-111 | push ends only by publishing or on a full ring, pop only by publishing or on an empty one; peek and size_approx store nothing |
| RingProtocol.NoCallWaits | spsc_ring_buffer.hpp:58-111 | in the middle of a call a thread always has a step, at most three are left, each brings the call nearer to its end, and the other thread's steps undo none |
| RingProtocol.PeekSeesTheNext | spsc_ring_buffer.hpp:116-120 | what peek points at is the next item to be popped and stays so until a pop |
| RingProtocol.SizeIsExact | spsc_ring_buffer.hpp:122-129 | called by producer or consumer, size_approx returns the exact count at its load of the other side's index |
| RingProtocol.SizeForAnyThread | spsc_ring_buffer.hpp:122-129 | for any thread, loading head in one state and tail in any later state: the result is the count at the first load minus the pops in between, and the count at the second minus the pushes in between, modulo the capacity; it is exact if and only if that number is a multiple of the capacity, and within 1 if and only if it is congruent to 0, to 1 with an item held, or to -1 with room left |
| RingProtocol.ThirdThreadCanBeFarOff | spsc_ring_buffer.hpp:122-129 | a schedule in which a third thread computes 5 while the ring never holds more than one item |
| MarketDataFeeds.MarketDataFeed.Publish | market_data_feed.cpp:30-37 | accepts exactly below capacity; published plus dropped counts the calls |
| MarketDataFeeds.MarketDataFeed.ConsumerLoop | market_data_feed.cpp:39-50 | whatever it first loads from running, once that reads false the loop has handed every accepted tick to the handler, in order, and ends with an empty ring |
| MarketDataFeeds.MarketDataFeed.constructor | market_data_feed.cpp:7-8 | a new feed is stopped, has accepted and handled nothing, and owns a ring of its own |
| MarketDataFeeds.MarketDataFeed.Stop | market_data_feed.cpp:23-28 | a running feed is flushed, a stopped one is left alone |
| FeedProtocol.MoveKeepsInv | market_data_feed.cpp:18-50 | the inductive invariant over publisher, consumer and controlling thread |
| FeedProtocol.CountersAgree | market_data_feed.cpp:30-50 | at every step: published plus a pending count is the pushes, consumed plus a pending count is the pops, published plus dropped is the number of calls of publish() that returned, dropped plus a pending count the number of those that met a full ring, handled is popped |
| FeedProtocol.TicksArriveInOrder | market_data_feed.cpp:30-50 | in every interleaving the arguments of the accepted calls of publish() are, in order, the ticks handled, the one about to be handled, those in the ring and the one still to be published |
| FeedLiveness.NoPublishWaits | market_data_feed.cpp:30-37 | in the middle of publish() there is always a next step, at most four are left, each brings the call nearer to its end, and no other thread's step undoes that |
| FeedLiveness.StartedFeedDelivers | market_data_feed.cpp:18-50 | after start(), whatever is published meanwhile, until stop() is called the consumer always has a step, and within 12 of its steps per slot everything that was in the ring has been handled in order |
| FeedProtocol.JoinedHasDrained | market_data_feed.cpp:23-28 | when the join succeeds everything pushed before the loop's last check was handled, that includes everything pushed before stop(), and all of it was handled if and only if nothing was pushed later |
| FeedProtocol.StopFlushes | market_data_feed.cpp:23-28 | stop with no publish in progress or later: exactly the accepted ticks are handled in publish order, and published equals consumed |
| FeedProtocol.StopTerminates | market_data_feed.cpp:39-50 | while stop() waits the consumer always has a step, each of its steps uses up bounded work, and nobody but a publisher adds any |
| FeedProtocol.StopEnds | market_data_feed.cpp:23-28 | in every run without a publish from a waiting stop(), the consumer takes fewer than 12 steps per slot of the ring, and until its loop ends it has a step to take; once it has ended stop() can return |
| FeedProtocol.ConsumerAlone | market_data_feed.cpp:39-50 | from every state in which stop() waits, the consumer's own steps lead to the end of its loop |
| FeedProtocol.LateTickIsStranded | market_data_feed.cpp:39-50 | a schedule in which a tick accepted during stop() is not handled when stop() returns |
| FeedProtocol.RestartFlushes | market_data_feed.cpp:18-28 | after any stop(), a restart and a stop() with no publish in progress have handled every tick accepted so far, in order |

## Left out

- Timestamps and `now_ns()`: a foreign clock. Time priority uses a counter of rests and upward amendments instead.
- Weak memory: every atomic step is sequentially consistent; acquire, release and relaxed are not distinguished.
- Cache-line alignment, false sharing, performance and the no-heap claim.
- Placement new, destructors and byte casts: slots are objects 0 to capacity - 1, and the link of a slot lies outside the object it stores.
- OrderBooks.OrderBook.AddOrder: takes the id before matching, where the source reads it after matching from a slot that may have been freed; the slot is not reused in between, so the value is the same.
- OrderBooks.OrderBook.MatchAgainstAsks: the matching of one level is a method of its own, shared with the bid side; the source writes that inner loop twice.
- OrderBooks.OrderBook.DepthSnapshot: one method with the side as a parameter for bid_depth and ask_depth, as for the other helpers the source duplicates per side.
- The callbacks are logs: a callback that calls back into the book is not modelled, nor a book without one.
- `std::map` is a sequence of levels kept in price order, `std::unordered_map` a map, threads are steps.
- Order ids and the 64-bit statistics are unbounded; prices in `BookSpec` are unbounded too, which only adds inputs.
- More than one allocating thread, or more than one thread starting and stopping the feed: outside the stated contracts.
- MarketDataFeeds.MarketDataFeed.ConsumerLoop: nothing is published while the loop goes on, and it ends; the loop interleaved with a publisher is in `FeedProtocol`.
- MarketDataFeeds.MarketDataFeed.Stop: drains the ring inside the call in place of joining the thread that drains it; the thread and the join are in `FeedProtocol` (`StopFlushes`, `StopEnds`).
- A feed without a handler: ticks are counted the same way.
- The trivial getters, `symbol()`, the deleted copies and defaulted moves, `latency_timer.hpp`, `main.cpp` and the repository's own test programs.
