# A verified model of the exchange pipeline

This project models a small exchange in Dafny and proves what its parts promise, alone and
together. Orders enter through single-producer queues, a sequencer stamps them into one total
order and publishes them on a broadcast ring, and independent consumers read that ring: the
matching engine, which owns the order book, and the write-ahead log.

How the layers fit:

- **Matching and the book.** `Matching` is the reference: a greedy fold over one flat list of
  resting orders in price-then-arrival order. `Books` and `Ledgers` carry its laws over single
  operations and over whole runs. `OrderBooks` is the running book (level maps, queues of pool
  slots, an id index, an intrusive free list) and is proved to do exactly what the fold does,
  under any ids; `LevelMaps`, `BookStores` and `BookIndexes` hold the value-level laws of its
  representation.
- **The matching engine.** `Engines` is one step of the engine on values, 32-bit wrap-around
  included. `ShadowLaws`, `EngineLaws`, `CancelLaws` and `AckLaws` hold over every event stream
  with increasing sequence numbers. `MatchingEngines` is the running consumer.
- **Concurrency.** `RingProtocol`, `Spsc`, `Sequencers`, `Harness`, `Replays` and `Pipelines` are step
  systems: one step for each atomic load or store, and every theorem is about every schedule of
  such steps. The sequencer is composed of the queues of `Spsc` and the ring of `RingProtocol`, and
  the pipeline of the sequencer and its consumers, so those schedules are of atomic steps too.
  `Deliveries` shows that whatever was pushed can still get through while the pipeline runs, and
  `Shutdowns` that it can be shut down from wherever it is; `Chunks` and `LogRuns` are about its
  consumer loops and what its log has on disk.
  `BroadcastRings` is the ring used from one thread, where the lazy gate is exact.
- **The rest.** `Strategies` and `MarketMakers` (quoting into the book), `Wals` (durability),
  `Buckets`, `Roundings` and `Histograms` (percentiles), `Frames` (stream reassembly).

The layers compose. The sequencer's contiguous numbers discharge the book's demand for fresh
ids, the book's invariant makes the engine's maps exact, and the ring's safety makes replaying
the log reproduce the engine.

Assumptions taken over from the code:

- Order ids need not be fresh for the book to do what the fold does; `Books.AddWellFormedIff` says exactly when a reused one leaves it well formed.
- In the step systems all ring readers register before the first publish; `BroadcastRing.RegisterConsumer` says exactly when a later one is safe. There are at most as many as the ring has cursors.
- Ring and queue capacities are at least 1. The code masks with a power of two; the model takes the remainder.
- Sequential consistency, and 64-bit counters that do not wrap.
- A log that starts empty: sequence numbers restart with the process while the log file is appended to.
- Header fields are little-endian.

Three promises do not hold unconditionally. Each is shown to fail, and the exact condition is told
from the state before the step or, for the last, from the sizes.

- An order the pool has no slot for is still acknowledged as open and kept in the engine's map.
  `DropIsAckedAsResting` says when, for a pool of any size; `OneBidTooMany` is a family of streams
  that reach it.
- A client that reuses the key of a live order loses the way to one of the two: to the older one
  by cancelling (`ReuseStrandsAnOrder`), to the newer one when the older fills
  (`FillStrandsTheNewer`). `ReuseIsTheOnlyLoss` and `CancelExact` say exactly when a cancel works.
- A single-producer queue of one slot, which its power-of-two check admits, holds nothing, so a feed
  through it is never done (`OneSlotNeverExits`); with two slots or more it can always be (`EngineExits`).

## Model

| member | source | states |
|---|---|---|
| `ObjectPools.ObjectPool.constructor` | include/object_pool.hpp:15-19 | every slot starts on the free chain, in index order, without repetition |
| `ObjectPools.ObjectPool.Acquire` | include/object_pool.hpp:22-28 | takes the head of the chain and fills that slot only; fails exactly when the chain is empty |
| `ObjectPools.ObjectPool.Release` | include/object_pool.hpp:30-37 | puts a slot in use back at the head; the chain stays acyclic and no stored object changes |
| `Matching.MatchConserves` | include/order_book.hpp:84-106 | traded plus leftover is the taker's quantity; what makers lost is what was traded |
| `Matching.MatchMaximal` | include/order_book.hpp:86-88 | the executed quantity is the minimum of the order and all crossing quantity anywhere on the side; a remainder means every price left is outside the limit |
| `Matching.KthTrade` | include/order_book.hpp:91-97 | closed form: trade k is against resting order k, inside the limit, at that order's price and the incoming order's time, buyer and seller as their sides say, for what those ahead left; so each resting order trades at most once |
| `Matching.MatchRemainder` | include/order_book.hpp:96-104 | makers ahead of the last are gone, the last keeps its remainder and place, everyone behind is untouched |
| `Matching.MatchLeaves` | include/order_book.hpp:86-104 | told from the side before the match: what will be left of the order, and that exactly the orders it may not trade with stay when something is |
| `LevelMaps.PushBackFlat` | include/order_book.hpp:108-114 | queueing at the back of a price level is insertion in price-time order, and keeps levels ordered, uniform and non-empty |
| `OrderBooks.OrderBook.constructor` | include/order_book.hpp:74-81 | an empty, valid book with every slot free |
| `OrderBooks.OrderBook.FillFrontOrder` | include/order_book.hpp:91-102 | one round of the inner loop is one unfolding of the greedy fold, with index and pool kept in step |
| `OrderBooks.OrderBook.MatchLevel` | include/order_book.hpp:89-103 | the inner loop advances the fold until the level or the taker is used up |
| `OrderBooks.OrderBook.MatchAgainst` | include/order_book.hpp:84-106 | the nested loops give exactly the trades, leftover and remaining side of the fold, and leave the own side alone |
| `OrderBooks.OrderBook.Rest` | include/order_book.hpp:108-114 | inserts in price-time order and indexes the id, fresh or not, or drops exactly when the pool is exhausted |
| `OrderBooks.OrderBook.AddLimitOrder` | include/order_book.hpp:26-37 | under any id, book, appended trades and index are those of the abstract add and slots stay shared out; a fresh id keeps the book well formed and the index exact |
| `OrderBooks.OrderBook.RemoveFrom` | include/order_book.hpp:116-130 | removes the first order of that id and price if and only if there is one, releasing its slot and an emptied level |
| `OrderBooks.OrderBook.Cancel` | include/order_book.hpp:40-48 | takes out the order the index leads to, if it is there; with an exact index, true exactly if the id rests and the book is then the same without that order |
| `OrderBooks.OrderBook.BestOf` | include/order_book.hpp:132-140 | the price of the first order, which no order on the side beats, and the whole quantity at that price modulo 2^32; none exactly when the side is empty |
| `OrderBooks.OrderBook.RestingOrders` | include/order_book.hpp:55 | with an exact index, its size is the number of resting orders and of slots in use |
| `OrderBooks.SlotOwnership` | include/order_book.hpp:80-81 | free chain and queues partition the slots, each slot in exactly one place |
| `BookIndexes.AddKeepsIndexed` | include/order_book.hpp:100-113 | the index moved by an add under a fresh id holds exactly the orders of the new book, at their sides and prices |
| `BookIndexes.CancelLawful` | include/order_book.hpp:40-48 | with an exact index, following it is the abstract cancel, and index and book stay exact and well formed |
| `Books.AddKeepsWellFormed` | include/order_book.hpp:26-37 | a fresh id keeps every bid below every ask, and the sides sorted, positive and uniquely keyed |
| `Books.AddWellFormedIff` | include/order_book.hpp:109-113 | the exact condition, on the book before the add: only an order that is larger than what it crosses, fits the pool, and shares its id with its own side or with an opposite order it does not cross breaks the book |
| `Books.AddKeepsCapacity` | include/order_book.hpp:110-111 | the book never outgrows the pool, and a remainder is dropped only when every slot holds a resting order |
| `Books.DropExact` | include/order_book.hpp:84-111 | told from the book before the add: what will be left, and that it is dropped exactly if its own side and the opposite orders it does not cross fill the pool |
| `Books.AddKeepsFifo` | include/order_book.hpp:108-114 | equal prices queue in arrival order |
| `Books.CancelKeepsWellFormed` | include/order_book.hpp:40-48 | cancelling keeps the book well formed and removes that id only |
| `Books.CancelIsolated` | include/order_book.hpp:116-130 | one order leaves; every other order keeps its place and quantity |
| `Ledgers.RunWellFormed` | include/order_book.hpp:26-48 | every run of adds with fresh ids and any cancels leaves a well-formed book of at most pool-capacity orders |
| `Ledgers.Conservation` | include/order_book.hpp:26-48 | over every run, for any set of orders: submitted is traded plus resting plus cancelled plus dropped |
| `Ledgers.SideTotals` | include/order_book.hpp:84-130 | both sides traded the same total, the sum of the trades |
| `ShadowLaws.MatchIsApplicable` | include/matching_engine_consumer.hpp:107-121 | every trade of a match finds its counterparty with enough quantity left, and the map ends level with the book |
| `ShadowLaws.OwnAckExact` | include/matching_engine_consumer.hpp:106-144 | the 32-bit fill count and leaves of the incoming order are exact |
| `EngineLaws.RunKeepsInv` | include/matching_engine_consumer.hpp:100-159 | over every stream: book well formed and first-in-first-out, each order with the side, price and time it was submitted with, map entries equal to book quantities with the submitting client as owner, client keys pointing at their own entries, map ids equal to book ids plus dropped ones |
| `CancelLaws.BookMatchesMaps` | include/matching_engine_consumer.hpp:117-134 | each resting order is in the map under the client of its submission event, with its side, price and exact remaining quantity |
| `CancelLaws.MapsCoincide` | include/matching_engine_consumer.hpp:131-134 | book ids are always in the map, and coincide with it exactly when no dropped order is outstanding, so always on a stream where no order overflows the pool on arrival |
| `CancelLaws.DropIsAckedAsResting` | include/order_book.hpp:110-111 | in any state of any run a new order is mapped without being in the book exactly if it overflows the pool, told before the step; it is then acked with its whole remainder as leaves |
| `CancelLaws.FullPoolAccepts` | include/matching_engine_consumer.hpp:131-144 | a full pool and an order that crosses nothing: accepted in full and mapped, the book as before |
| `CancelLaws.OneBidTooMany` | include/order_book.hpp:108-111 | for a pool of any size, every stream of one bid more than it has slots ends so; `Bids` builds one of every length |
| `CancelLaws.ReuseIsTheOnlyLoss` | include/matching_engine_consumer.hpp:125-134 | a step keeps every order reachable by its key if and only if it is not an order larger than what it crosses whose key leads to a live order that it does not trade away |
| `CancelLaws.CancelExact` | include/matching_engine_consumer.hpp:147-159 | a cancel is answered to the client that asked, with no fill: Canceled exactly when an order of its key rests, removing that one, and Rejected otherwise, if and only if the key leads to every order that rests for it |
| `CancelLaws.CancelsWorkWithoutReuse` | include/matching_engine_consumer.hpp:147-159 | so every cancel works after any stream that never reused a live key |
| `CancelLaws.KeysBijective` | include/matching_engine_consumer.hpp:131-134 | without reuse and exhaustion, client keys and book orders are in bijection |
| `CancelLaws.ReuseStrandsAnOrder` | include/matching_engine_consumer.hpp:132-133 | for any two bids under one key, the second cancel is rejected while the older order rests |
| `CancelLaws.FillStrandsTheNewer` | include/matching_engine_consumer.hpp:125-128 | for any two bids under one key, when the older fills the newer cannot be cancelled: rejected with id 0 while it rests |
| `AckLaws.AckLifecycle` | include/matching_engine_consumer.hpp:106-159 | each order's acks go to its submitter, only the first may accept and only the last may end it, each status agrees with its quantities and only a fill has a price, every report accounts for all fills so far, and they are open exactly while the order is in the map |
| `AckLaws.OwnAckFirst` | include/matching_engine_consumer.hpp:136-144 | the first ack of an order is its own |
| `AckLaws.AcksOfNewOrder` | include/matching_engine_consumer.hpp:106-144 | told from the book before a new order, after any stream: one ack for each resting order it meets, in the order they rest, to its owner, at its price, for what those ahead left, with what remains of it; then its own, last, with all it traded and all that is left |
| `AckLaws.RestingFillsAtLimit` | include/matching_engine_consumer.hpp:122-124 | over every stream, every fill an order gets after its own ack is at exactly its limit |
| `AckLaws.NoFillWorseThanLimit` | include/matching_engine_consumer.hpp:122-144 | no fill is reported at a price worse than the limit of the order it is for; the 32-bit price is lossless |
| `AckLaws.OwnPriceIsWorst` | include/matching_engine_consumer.hpp:139-144 | the one price on the aggregated ack is the worst the order traded at in that step |
| `AckLaws.FillsBalance` | include/matching_engine_consumer.hpp:106-144 | over every stream, the quantity acknowledged as filled to buyers equals that acknowledged to sellers |
| `AckLaws.FillsNeverMissOrWrap` | include/matching_engine_consumer.hpp:117-131 | in any stream the missing-entry branch is never taken and no subtraction wraps |
| `MatchingEngines.MatchingEngineConsumer.FillCounterparties` | include/matching_engine_consumer.hpp:106-129 | the loop over trades moves maps and acks as the abstract fold of fills |
| `MatchingEngines.MatchingEngineConsumer.Report` | include/matching_engine_consumer.hpp:131-145 | the new entry and the own ack, after all counterparty acks |
| `MatchingEngines.MatchingEngineConsumer.ApplyNewOrder` | include/matching_engine_consumer.hpp:100-145 | under any sequence number, book, maps and acks are those of the abstract step; a fresh one keeps the book well formed |
| `MatchingEngines.MatchingEngineConsumer.ApplyCancelOrder` | include/matching_engine_consumer.hpp:147-159 | unknown keys are rejected with id 0; otherwise the order the book's index leads to goes, whatever ids were used, which on a well-formed book is the abstract step |
| `MatchingEngines.MatchingEngineConsumer.Apply` | include/matching_engine_consumer.hpp:73-79 | dispatch on the event type, other types doing nothing; on a well-formed book the abstract step |
| `Drains.Drain` | include/matching_engine_consumer.hpp:86-98 | draining any increasing stream keeps every id fresh and ends in the abstract run's engine and acks |
| `Strategies.TickIsPassive` | include/strategy.hpp:20-43 | on any well-formed book a tick with a half spread of at least one makes no trade, truncating division included |
| `Strategies.WithoutSpreadTrades` | include/strategy.hpp:26-40 | for every smaller half spread there is a well-formed book on which the tick trades |
| `Strategies.TickDecision` | include/strategy.hpp:20-42 | from the best bid and ask: a tick does nothing exactly if a side is empty, or it is quoting and the sum of the two, halved towards zero, is less than the threshold away from the last mid; otherwise it takes two ids, remembers them and that mid, and enters a bid and then an ask a half spread around it into the book without its old quotes |
| `Strategies.TickQuotes` | include/strategy.hpp:31-40 | with a half spread of at least one those two rest whole, in price-time order, as far as the pool has slots, the bid first |
| `Strategies.TickKeepsWellFormed` | include/strategy.hpp:31-40 | a tick leaves a well-formed book whose ids are below the cursor |
| `Strategies.TickUndone` | include/strategy.hpp:31-42 | a tick moves nobody else: pulling its quotes gives back the book it entered them into, even if the pool dropped one |
| `Strategies.AtMostOneQuoteASide` | include/strategy.hpp:31-42 | over every run among other traders, and for every half spread, at most one maker order rests on each side |
| `Strategies.NeverAggressive` | include/strategy.hpp:20-43 | with a half spread of at least one, at every point of such a run the next tick makes no trade |
| `MarketMakers.MarketMaker.Decide` | include/strategy.hpp:22-29 | gives the halved sum of the best prices exactly when both sides exist and it is not less than the threshold away from the mid being quoted around |
| `MarketMakers.MarketMaker.PullQuotes` | include/strategy.hpp:31-34 | takes out what the index has under the two quote ids, filled or not; on a well-formed book exactly the quotes |
| `MarketMakers.MarketMaker.EnterQuotes` | include/strategy.hpp:35-40 | enters the two quotes under the next pair of ids; a fresh pair keeps the book well formed |
| `MarketMakers.MarketMaker.OnTick` | include/strategy.hpp:20-43 | on any book: decide, pull by the index, requote; on a well-formed one book, maker, id cursor and trades are those of the abstract tick |
| `RingProtocol.ConsumedIsPrefix` | include/broadcast_ring.hpp:22-47 | under every schedule a reader has consumed exactly a prefix of the published stream and is at most a ring behind |
| `RingProtocol.NoTornRead` | include/broadcast_ring.hpp:34-45 | under every schedule the writer never stores into a slot being copied, and the copied slot holds the right item |
| `RingProtocol.GateIsSafe` | include/broadcast_ring.hpp:28-32 | the cached minimum never exceeds a cursor; nothing is stored while a reader is a full ring behind |
| `RingProtocol.RefusalIsExact` | include/broadcast_ring.hpp:28-32 | a publish is refused only if, at a moment within that same call, the scan loaded a reader's cursor that was exactly a full ring behind |
| `BroadcastRings.BroadcastRing.RegisterConsumer` | include/broadcast_ring.hpp:18-20 | hands out the next cursor, at 0, at any time; the ring stays consistent exactly if nothing was overwritten yet and the cached gate is still at 0 |
| `BroadcastRings.BroadcastRing.ScanMinConsumerCursor` | include/broadcast_ring.hpp:52-60 | the minimum over registered cursors, or the write cursor when there are none |
| `BroadcastRings.BroadcastRing.TryPublish` | include/broadcast_ring.hpp:22-37 | the lazy gate accepts exactly when an eager rescan would, and then appends the item |
| `BroadcastRings.BroadcastRing.TryConsume` | include/broadcast_ring.hpp:39-47 | the item at the reader's cursor, or nothing exactly when caught up; other cursors unmoved |
| `Spsc.RefinesFifo` | include/spsc_ring_buffer.hpp:16-32 | every step of every interleaving is a step of a FIFO of capacity minus one, and the reported results are true of it |
| `Spsc.FullTest` | include/spsc_ring_buffer.hpp:18-19 | the full test holds exactly when capacity minus one items are queued |
| `Spsc.EmptyTest` | include/spsc_ring_buffer.hpp:34-36 | head equals tail exactly when the queue is empty |
| `Spsc.EmptyAnswer` | include/spsc_ring_buffer.hpp:34-36 | under every schedule, empty() answers true exactly if the queue was empty when it loaded the head |
| `Spsc.NoTornPop` | include/spsc_ring_buffer.hpp:20-30 | the producer never stores into the slot the consumer copies |
| `Harness.EngineHandlesWholeFeed` | src/main.cpp:103-145 | the engine thread handles the feed in order, once each, and exits only after all of it |
| `Harness.EngineExits` | src/main.cpp:103-145 | from every state any schedule reaches, some continuation has the engine thread leave its loop with the whole feed handled, if the ring has two slots or the feed is empty |
| `Harness.OneSlotNeverExits` | include/spsc_ring_buffer.hpp:16-23 | otherwise it never does: nothing gets through a ring of one slot |
| `Replays.ReplayIsSequential` | src/main.cpp:103-145 | for a feed with its own ids, under every schedule: the book and market maker are those of the one-threaded run over a prefix of the feed, over all of it at exit; the book is well formed and the maker has at most one order a side |
| `Replays.FeedIsLegal` | src/main.cpp:119-132 | a feed of distinct ids below the maker's cursor never meets a resting id, whatever the maker does |
| `Sequencers.TotalOrder` | include/sequencer.hpp:47-56 | the published stream carries 1, 2, 3, ... under every such schedule |
| `Sequencers.OrderPreservingMerge` | include/sequencer.hpp:38-59 | under every schedule of atomic steps of queues and ring: every published event is some producer's; per producer the type, session, client id, side, price and quantity of the published events, then of what is held, are those of its pops in order, and those its pushes in order; and at most one popped event is unpublished |
| `Sequencers.StampedOnce` | include/sequencer.hpp:44-49 | each published event was stamped at one step of the schedule: the event just popped from its producer's queue, those fields as they were, the next number, and the clock reading of that step |
| `Sequencers.TurnsOnlyWhenDone` | include/sequencer.hpp:41-45 | the sequencer turns from a producer to the next only if a pop came back empty-handed or the last 32 events stamped were that producer's |
| `Sequencers.BoundedWait` | include/sequencer.hpp:38-59 | over any stretch of any schedule in which the sequencer does not turn to a producer, at most 64 of the events stamped are of other producers |
| `Wals.LossWindow` | include/wal_consumer.hpp:70-113 | over every run of appends and polls with their clock readings: after each, either everything written is durable, or fewer than the configured number of records are not and the last sync, or the opening, ended less than the interval before |
| `Wals.SyncExact` | include/wal_consumer.hpp:106-113 | exactly when a run syncs: an operation under both thresholds leaves what is durable alone, any other makes everything written durable |
| `Wals.DurabilityOverRuns` | include/wal_consumer.hpp:61-75 | whatever the clock does, after any appends and polls the disk holds a prefix missing fewer than that many records, and all of it after close |
| `Wals.WalConsumer.AppendRecord` | include/wal_consumer.hpp:70-75 | writes the record, syncs unless few records are unsynced and the recorded end of the last sync is recent, and records the end of a sync |
| `Wals.WalConsumer.CloseFile` | include/wal_consumer.hpp:61-66 | makes the whole log durable |
| `Wals.Drive` | include/wal_consumer.hpp:36-75 | a running log opened and driven by any appends and polls holds the file, durable part and sync time of the abstract run |
| `Pipelines.ReplayReproduces` | include/wal_consumer.hpp:80-94 | at every point of every schedule the engine is the fold over the first n published events and the log the first m; replaying the log gives the engine when m is n |
| `Pipelines.EngineInvariantInPipeline` | include/matching_engine_consumer.hpp:86-98 | the sequencer's numbers keep ids fresh, so the engine invariant holds throughout the pipeline |
| `Pipelines.ShutdownDrainsEverything` | src/gateway_main.cpp:68-75 | after the ordered shutdown, engine and log have the entire published stream, all durable, nothing in flight |
| `Shutdowns.ShutdownCompletes` | src/gateway_main.cpp:68-75 | from every state any schedule reaches, some continuation completes the shutdown: no stall of sequencer, ring or consumers can block it for good |
| `Deliveries.EverythingDelivered` | include/sequencer.hpp:34-63 | from every state any schedule reaches before the shutdown, some continuation without further pushes publishes every event pushed, each producer's in order, and has engine and log handle all of them: nothing is stuck while the pipeline runs |
| `Chunks.ChunkIsBounded` | include/matching_engine_consumer.hpp:86-96 | under every schedule, a ring consumer handles at most 32 events between two tests of its flag |
| `Chunks.LeavesChunkOnlyWhenDone` | include/matching_engine_consumer.hpp:90-93 | and it stops draining only after 32 or when the ring gave it none |
| `Pipelines.LogIsDurablePrefix` | include/wal_consumer.hpp:70-113 | at every point the durable log is a prefix within the loss window |
| `LogRuns.PipelineLossWindow` | include/wal_consumer.hpp:80-94 | the loss window in the pipeline, under every schedule: the log appends every event it takes, polls whenever it finds none and after every chunk of 32, and after the last of these is within the window; once closed it is all durable |
| `LogRuns.PipelineSyncExact` | include/wal_consumer.hpp:80-113 | and a step of the log's thread under both thresholds leaves what is durable alone, any other append or poll does not |
| `Pipelines.CrashRecovery` | include/wal_consumer.hpp:70-113 | at every point, replaying just the durable records gives the engine over a prefix of the published stream, short of the log by fewer than the configured number of records; it meets the engine invariant and is the matcher's state if that has handled as many |
| `Buckets.RelativeError` | include/latency_histogram.hpp:77-100 | in range a sample is reported at most itself, within one part in 2^bits, and exactly below 2^(bits+1), for all parameters |
| `Buckets.EstimateIsLeast` | include/latency_histogram.hpp:77-100 | what is reported for a sample in range is the least value, from 1 up, that falls in its bucket |
| `Buckets.ZeroReportsOne` | include/latency_histogram.hpp:78 | 0 shares the bucket of 1 |
| `Buckets.IndexMono` | include/latency_histogram.hpp:77-92 | larger samples never fall in earlier buckets |
| `Buckets.EstimateMono` | include/latency_histogram.hpp:94-100 | reported values are monotone over all samples, clamped ones included |
| `Histograms.HighestBit` | include/latency_histogram.hpp:71-75 | the shifting loop computes the base-2 logarithm |
| `Histograms.LatencyHistogram.Record` | include/latency_histogram.hpp:23-29 | each bucket counts exactly its samples, the sum is theirs modulo 2^64, and minimum and maximum are their extremes |
| `Histograms.LatencyHistogram.Mean` | include/latency_histogram.hpp:34 | as long as the sum did not wrap: the exact mean where no operation rounds, and that up to 3 parts in 2^53 where they round to nearest; for sums up to 2^53, between the smallest and the largest sample |
| `Histograms.LatencyHistogram.Scan` | include/latency_histogram.hpp:41-46 | for every rank within the samples the cumulative scan returns the reported value of the exact order statistic x of that rank: at most x, off by less than one part in 2^bits and exact below 2^(bits+1) for 1 <= x < 2^octaves, and 1 for 0; beyond the samples it returns the maximum |
| `Histograms.LatencyHistogram.Percentile` | include/latency_histogram.hpp:37-47 | reports as the scan does for the rank computed in floating point, the first from 1 up that is not below the computed portion, which up to 100 percent is within the samples |
| `Histograms.LatencyHistogram.Quantiles` | include/latency_histogram.hpp:53-57 | the printed quantiles are those of Percentile, and in order |
| `Histograms.LatencyHistogram.Extremes` | include/latency_histogram.hpp:31-34 | count, exact minimum and maximum, zeros for no samples, and the mean as above |
| `Histograms.KthExists` | include/latency_histogram.hpp:38-40 | every rank within the samples has an order statistic |
| `Histograms.ReportedMono` | include/latency_histogram.hpp:41-45 | a larger rank is never reported as a smaller value |
| `Histograms.PercentMono` | include/latency_histogram.hpp:37-47 | nor a larger percentage, however floating point rounds |
| `Roundings.RankWithin` | include/latency_histogram.hpp:39-40 | however floating point rounds, as long as it keeps order and integers up to 2^53: ranks grow with the percentage and stay within the samples up to 100 |
| `Roundings.RankExact` | include/latency_histogram.hpp:39-40 | where no operation rounds, the rank is the least k from 1 up with p * total <= 100 * k |
| `Roundings.RankNearExact` | include/latency_histogram.hpp:39-40 | with operations rounded to nearest in 53 places, the rank differs from the exact one by at most one, for up to 2^51 samples |
| `Roundings.RankOffByOne` | include/latency_histogram.hpp:39-40 | and it does differ: 55 percent of 100 samples is the 56th, given the doubles involved |
| `Histograms.Measure` | include/latency_histogram.hpp:17-47 | a histogram with the default parameters, filled with any samples and scanned for any rank: the answer belongs to the exact order statistic x of the rank, is at most x and within 1/128 of it for 1 <= x < 2^36, and is x below 256 |
| `Frames.FrameReader.NextFrame` | include/frame_reader.hpp:20-39 | cuts off one frame, of seven bytes and the little-endian body length in the first two, exactly when it is complete |
| `Frames.Drive` | include/frame_reader.hpp:13-39 | the running reader under any feeds and polls hands out what the abstract run emits, losing no byte |
| `Frames.ChunkingIndependent` | include/frame_reader.hpp:13-39 | for any cuts and polls no byte is lost and the frames are a prefix of the one-shot parse |
| `Frames.DrainedAgree` | include/frame_reader.hpp:17-19 | readers fed the same bytes in different cuts agree once drained |
| `Frames.RoundTrip` | include/gateway_server.hpp:280-284 | a stream of encoded messages, however cut, comes out as exactly those frames, which read back as those messages |
| `Frames.Encode` | include/gateway_protocol.hpp:28-32 | bytes 0-1 are the body length, 2 the type and 3-6 the sequence number, low bytes first, and the body follows |
| `Frames.EncodeInjective` | include/gateway_server.hpp:280-284 | different messages have different frames |

## Left out

- The gateway's sockets, sessions, heartbeats and risk stub; the SQLite consumer, which in the pipeline is only a further ring reader; the feed generator and the CSV results: input and output plumbing.
- Delivery of acks: the engine's acks are the calls to `push_ack`, in order. The bounded spin, the dropped counters and the persistence copy are not modelled.
- `Books.AddKeepsWellFormed`: prices are unbounded integers, so 64-bit overflow of a price sum in the strategy is not modelled.
- `OrderBooks.OrderBook.MatchAgainst`: the level map is a sorted sequence of levels; the balanced tree inside the map type is not modelled.
- `Histograms.LatencyHistogram.Percentile`: floating point is any rounding that keeps order and integers up to 2^53; which double an operation gives, and so the rank of a given percentage, is not computed.
- `Wals.LossWindow`: opening the file, file errors and the record layout are not modelled; writes and syncs succeed.
- `Sequencers.OrderPreservingMerge`: says nothing of events still queued when the sequencer stops, which the code leaves behind.
- The ingress timestamp of an event, which no modelled code reads, and the stall and record counters of the sequencer.
- Weak memory orderings, cache-line placement and placement construction: abstracted to atomic steps and slot indices.
- Ring readers that register while the writer runs: the step systems start with all readers registered, as the code's own start-up order has it.
