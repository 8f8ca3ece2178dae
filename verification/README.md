# Verified model of the order-flow trading engine

A Dafny model of the data structures and state machines the engine is made of, with proofs that the
fast code agrees with a simple specification of it. Everything that the C++ updates in place is a
class here, whose methods follow the code branch by branch and are proved equal to functions on
values; the main results are theorems about those functions over every input, every run or every
interleaving.

| files | what they model |
|---|---|
| `SpscProtocol`, `SpscQueue` | the lock-free ring: one micro-step per atomic access, any stale but coherent index read, and the object itself |
| `LogFormat`, `BinaryLogger` | record framing, the wrap-around byte ring, the reader with its zero-copy and bounce paths |
| `MemoryPool` | the slab with its intrusive free list |
| `OrderBook`, `EventFeed`, `FixMdGateway`, `MessageEvents` | L3 entries aggregated to L2 levels; messages decoded to events, logged, applied, pushed to the ring queue |
| `BucketWindow`, `BucketRing`, `DeltaFactor`, `CancelFactor`, `Statistics` | the sliding-window factors over a ring of time buckets, z-scores, percentile |
| `SignalEngine`, `SignalReach`, `ReplayReach` | the signal decision, and what it takes for it to be taken at all |
| `Evaluation`, `SignalFeed`, `EnginePair`, `Replay`, `Backtest`, `Scoreboard` | the backtest loop: pending signals, search of the price history, counters |
| `RiskManager`, `ClOrdIds`, `OrderDesk`, `OrderManager`, `Trading`, `OrderHistory` | risk rules, order ids, the order table, and trading as one state machine |
| `Types`, `Arithmetic` | shared values, remainders and masks |

The square root is a parameter that returns roots, rounded up if at all; `Statistics.Root` is one
that can be computed. Time, best prices at the engine's boundary, session deliveries and what the
signal thread takes from the queue are inputs of the operations.

## Where the code and its documentation differ

- `rewind` is documented to go to the oldest record in the ring. It goes to the oldest byte, which is
  inside a record unless nothing was cut (`StartsAtOldestRecord`, `StartsOnRecordIff`,
  `StartInsideRecord`).
- An entry's data is documented to stay valid while its reader lives. A zero-copy entry shows its
  payload only until the writer laps it with other bytes, which cannot happen before the writer is a
  ring length past the payload's start. A bounced one shows it only while the buffer has not had to
  move to a larger block, and while the payload bounced last begins with the same bytes, in the same
  pass or after a rewind. Both conditions are exact (`InRingShowsIff`, `InBounceShowsIff`,
  `EntryLives`), and both failures occur in a ring of any size, 4096 among them
  (`LappedEntryShowsNext`, `RewindReplacesBounce`, `MovedEntryShowsNothing`). Within one pass over an
  intact ring none does (`StraddlesOnce`, `Drain`).
- One open position at a time, closed when it times out, are documented rules. The position they
  speak of is an order in flight: what has been filled is neither counted nor closed, so the account
  can hold any amount with never two orders open (`HoldingsAreNotPositions`). Two orders are open
  after a partial fill and another signal (`PartialFillAdmitsSecond`) or after a timeout
  (`TimeoutOpensSecond`), and exactly when a delivered order follows one that is still open
  (`StepOpensSecondIff`, `AtMostOneIff`). The position flag loses track of the table sooner
  (`StepKeepsOneIff`, `OneThroughoutIff`).
- The daily loss limit is documented as a fuse. A fill beyond the abort threshold returns before the
  fuse is looked at (`AbortSkipsFuse`, `LossRuleKeptIff`).
- Resetting the delta factor is documented to reset all state. The midprice stays, so the state is
  the initial one exactly when it was 0 (`DeltaFactor.Reset`).
- The gateway is documented to log raw FIX bytes. It logs parsed events.
- The report handler tests for the fill codes 1 and 2 (src/oms/order_manager.cpp:165). The FIX 4.4
  dictionary the trade session is configured with (config/fix_trade.cfg:10) has no such codes: it
  reports a fill as a trade, F, which has no branch (`TradeReportIgnored`, `ConformingNeverFills`). The codes behind the
  library's constants are those of the FIX standard; the library is not part of this model.
- The backtest prints a comparison with a delta-only engine. That engine never fires
  (`SingleFactorNeverCounts`).

## Model

| member | source | states |
|---|---|---|
| SpscProtocol.PoppedIsPrefixOfPushed | include/smartquant/common/spsc_queue.hpp:22-60 | in every interleaving of micro-steps with stale index reads, what was popped is a prefix of what was pushed and at most capacity - 1 items are between |
| SpscProtocol.NoSlotRace | include/smartquant/common/spsc_queue.hpp:27-29 | a slot about to be written has no read the producer does not know of, a slot about to be read no write the consumer does not know of, and the two are never the same slot |
| SpscProtocol.RefusalIsExact | include/smartquant/common/spsc_queue.hpp:25-26 | push gives up exactly when the tail it saw leaves capacity - 1 items, pop exactly when it has caught up with the head it saw |
| SpscProtocol.MaskedDifferenceCounts | include/smartquant/common/spsc_queue.hpp:62-70 | the masked unsigned difference of the latest indices is pushes minus pops, in every reachable state |
| SpscProtocol.OnlyOneReadable | include/smartquant/common/spsc_queue.hpp:43-50 | release and acquire leave one value a slot read may return |
| SpscProtocol.ReachableInv | include/smartquant/common/spsc_queue.hpp:22-60 | the protocol invariant holds after every run of micro-steps |
| SpscProtocol.PushAlone | include/smartquant/common/spsc_queue.hpp:22-30 | an undisturbed push appends unless the ring is full |
| SpscProtocol.PopAlone | include/smartquant/common/spsc_queue.hpp:43-50 | an undisturbed pop takes the oldest item unless the ring is empty |
| SpscQueue.SpscQueue.Push | include/smartquant/common/spsc_queue.hpp:22-30 | the array and index update is that run of micro-steps; contents grow at the back or the call is refused when full |
| SpscQueue.SpscQueue.Pop | include/smartquant/common/spsc_queue.hpp:43-60 | the array and index update is that run of micro-steps; the front item leaves, or none when empty |
| SpscQueue.SpscQueue.Empty | include/smartquant/common/spsc_queue.hpp:62-65 | true iff there are no contents |
| SpscQueue.SpscQueue.Size | include/smartquant/common/spsc_queue.hpp:67-70 | the masked difference is the number of contents |
| Arithmetic.MaskIsRemainder | include/smartquant/common/spsc_queue.hpp:17-18 | masking with a power of two minus one is the remainder by that power |
| MemoryPool.MemoryPool.constructor | include/smartquant/common/memory_pool.hpp:20-27 | all slots are free, in order, none live |
| MemoryPool.MemoryPool.Alloc | include/smartquant/common/memory_pool.hpp:30-37 | last freed first; never a live slot; null iff all slots are live; the object is zeroed and no other slot changes |
| MemoryPool.MemoryPool.AllocRaw | include/smartquant/common/memory_pool.hpp:40-46 | the same without touching the storage |
| MemoryPool.MemoryPool.Free | include/smartquant/common/memory_pool.hpp:49-56 | the slot goes to the front of the free list and leaves the live ones; live contents stay; null is ignored |
| MemoryPool.LiveCount | include/smartquant/common/memory_pool.hpp:58-60 | free and live slots partition the pool, so the free count fixes the number of live slots |
| MemoryPool.ChainIsUnique | include/smartquant/common/memory_pool.hpp:63-66 | the links determine the free list, so it has no cycle |
| LogFormat.LittleEndianRoundTrip | include/smartquant/log/binary_logger.hpp:40-48 | a header field read back is the number written |
| LogFormat.EncodedAt | include/smartquant/log/binary_logger.hpp:40-48 | byte by byte: eight of the stamp, four of the length, lowest first, then the payload |
| LogFormat.ParseEncoded | src/log/binary_logger.cpp:175-206 | parsing at the start of a framed record gives it back and stands at its end |
| LogFormat.ReplayFromBoundary | src/log/binary_logger.cpp:175-206 | repeated parsing from any record boundary yields exactly the records from there to the snapshot, then none |
| BinaryLogger.WriteAppends | src/log/binary_logger.cpp:75-87 | a wrap-around write keeps every byte of the last ring length of the stream at its position modulo the ring size |
| BinaryLogger.ParsesFromRing | src/log/binary_logger.cpp:163-186 | reading header and length through the ring is parsing the unbounded stream |
| BinaryLogger.StartsAtOldestRecord | src/log/binary_logger.cpp:149-153 | the reader starts at the oldest whole record iff nothing was cut: the log fits, or some suffix of records fills the ring to the byte |
| BinaryLogger.StartsOnRecordIff | src/log/binary_logger.cpp:208-212 | a start is on some record's boundary iff nothing was cut, for every log and ring |
| BinaryLogger.StartInsideRecord | src/log/binary_logger.cpp:208-212 | two records of 3000 bytes in a ring of 4096: the start lies inside the first |
| BinaryLogger.ReplaysEveryWholeRecord | src/log/binary_logger.cpp:149-206 | when nothing was cut, reading from the start yields every record still whole |
| BinaryLogger.StraddlesOnce | src/log/binary_logger.cpp:188-200 | of the payloads in one ring length at most one crosses the end, so one bounce buffer serves a pass |
| BinaryLogger.InRingShowsIff | src/log/binary_logger.cpp:191-194 | a zero-copy entry shows its payload, at any later time, iff the newest byte of every slot under it is the payload's byte |
| BinaryLogger.InBounceShowsIff | src/log/binary_logger.cpp:195-199 | a bounced entry shows its payload iff no later bounce was beyond the capacity its block had, and the payload bounced last begins with it |
| BinaryLogger.MovedEntryShowsNothing | src/log/binary_logger.cpp:197-197 | once the resize has moved the buffer, an earlier entry is left with nothing, even if its payload is bounced again |
| BinaryLogger.EntryShowsIff | src/log/binary_logger.cpp:188-200 | the exact lifetime of any entry over later writes, reads and rewinds, by the path it took |
| BinaryLogger.LappedEntryShowsNext | include/smartquant/log/binary_logger.hpp:87-91 | in a ring of any size, two records that fill it: the entry of the first shows the second once that is written |
| BinaryLogger.RewindReplacesBounce | include/smartquant/log/binary_logger.hpp:87-91 | in a ring of any size from 36 bytes, four records: a pass, a rewind and a pass, after which the bounced entry of the second shows the fourth |
| BinaryLogger.PassGoesOn | src/log/binary_logger.cpp:175-206 | one step of a pass delivers the next record and leaves earlier entries readable |
| BinaryLogger.RoundUpPage | src/log/binary_logger.cpp:17-21 | the least multiple of the page size that is no smaller |
| BinaryLogger.BinaryLogger.Open | src/log/binary_logger.cpp:25-30 | size zero is refused; otherwise the ring has the rounded size and an empty log |
| BinaryLogger.BinaryLogger.RingWrite | src/log/binary_logger.cpp:75-87 | the bytes land from the offset on, modulo the ring size, and no other byte changes |
| BinaryLogger.BinaryLogger.Write | src/log/binary_logger.cpp:89-103 | the ring again holds the newest bytes of the stream of all framed records, one longer |
| BinaryLogger.Reader.Rewind | src/log/binary_logger.cpp:208-212 | a new snapshot, and the cursor at the oldest byte still held |
| BinaryLogger.Reader.RingReadInto | src/log/binary_logger.cpp:163-173 | the bytes from the cursor on, through the wrap |
| BinaryLogger.Reader.TakePayload | src/log/binary_logger.cpp:188-200 | the pointer is the ring offset of the position, or the bounce buffer for a straddling payload, and both paths hand out the same bytes |
| BinaryLogger.Reader.Next | src/log/binary_logger.cpp:175-206 | the record at the cursor if it is complete, with where its payload is, else false with the cursor where it was; the account of what was handed out |
| BinaryLogger.Reader.EntryLives | include/smartquant/log/binary_logger.hpp:87-91 | what the k-th entry of a reader shows now, in the reader's own state; a zero-copy one read in time shows its payload while the writer is within a ring length of it |
| BinaryLogger.Reader.Drain | src/log/binary_logger.cpp:175-206 | reading until false terminates and yields exactly what parsing the stream yields, all entries readable at the end |
| BinaryLogger.Reader.DrainRecords | src/log/binary_logger.cpp:175-206 | from one record boundary to another a pass hands out exactly the records written between |
| OrderBook.KeepsSumsIff | src/md/order_book.cpp:5-69 | an event keeps each level equal to the sum of its live entries iff it is not a New over a live quote |
| OrderBook.ConsistentThroughoutIff | src/md/order_book.cpp:5-69 | levels equal sums at every point of a run iff the run never does that |
| OrderBook.SameEntriesSameBook | src/md/order_book.cpp:11-15 | consistent books with the same live entries are the same book |
| OrderBook.RunsAgree | src/md/order_book.cpp:5-69 | two clean histories that leave the same entries leave the same levels |
| OrderBook.DistinctIdsCommute | src/md/order_book.cpp:17-66 | events on different ids commute |
| OrderBook.ChangeIsDeleteThenNew | src/md/order_book.cpp:28-46 | a Change is a Delete and a New, in any book |
| OrderBook.BestPricesAreExtreme | src/md/order_book.cpp:71-77 | best bid and ask are the highest and lowest live prices, 0 for an empty side |
| OrderBook.OrderBook.Update | src/md/order_book.cpp:5-69 | the book after the event, whether a best price moved, and what the trade and cancel callbacks were given |
| OrderBook.OrderBook.LookupEntry | src/md/order_book.cpp:99-109 | the live entry of an id, or none |
| OrderBook.OrderBook.Clear | src/md/order_book.cpp:111-115 | the empty book |
| FixMdGateway.LogRebuildsBook | src/md/fix_md_gateway.cpp:265-266 | after any messages, the events logged since the last clear rebuild the gateway's book |
| FixMdGateway.WholeLogDoesNot | src/md/fix_md_gateway.cpp:280-280 | two snapshots after which the log as a whole brings a dead order back |
| FixMdGateway.WholeLogRebuildsIff | src/md/fix_md_gateway.cpp:276-326 | the whole log ends with the live orders iff every order it holds at the last clear is decided anew afterwards |
| FixMdGateway.CleanLogRebuildsBookIff | src/md/fix_md_gateway.cpp:276-326 | and with the whole book, levels and all, when the log has no New over a live quote |
| EventFeed.OfferedIsOrderly | src/md/fix_md_gateway.cpp:268-272 | one push: the queue holds the accepted events in log order, and drops one exactly when it is full |
| EventFeed.Feed.Take | apps/engine/main.cpp:52-56 | the other thread's pops take the front of the queue, as far as there is any |
| EventFeed.Feed.Push | src/md/fix_md_gateway.cpp:268-272 | the ring queue's own push decides; without a queue nothing gets in |
| EventFeed.Feed.Offer | src/md/fix_md_gateway.cpp:268-272 | pops and push together are the specified step |
| FixMdGateway.EnqueuedInOrder | src/md/fix_md_gateway.cpp:268-272 | after any messages and any pops in between, what was taken and what waits is the accepted part of the log in order, and an event was dropped iff the queue then held its capacity |
| FixMdGateway.LiveIffSet | src/md/order_book.cpp:17-66 | an order is live iff some event set it last, and is as that event said |
| FixMdGateway.EntryRoundTrip | src/md/fix_md_gateway.cpp:216-262 | an event written out as an entry decodes to itself, a Delete to its id and what the book has for it |
| FixMdGateway.DeletesCarryLatestQuote | src/md/fix_md_gateway.cpp:236-239 | a logged Delete of a live order carries the side, price and quantity it was last given; any other is a Bid of nothing |
| FixMdGateway.CancelsAreDeletes | src/alpha/cancel_factor.cpp:45-56 | ask cancels counted are Deletes of live Offers; bid cancels are those of live Bids plus those of unknown ids, genuine iff there were none |
| FixMdGateway.BookSumsIff | src/md/fix_md_gateway.cpp:205-330 | the gateway's levels are sums at every moment since the clear iff no New hit a live quote |
| FixMdGateway.MalformedCutsMessage | src/md/fix_md_gateway.cpp:205-232 | a missing field loses the rest of a refresh and nothing before it |
| FixMdGateway.MalformedCutsSnapshot | src/md/fix_md_gateway.cpp:276-304 | a missing type loses the rest of a snapshot and nothing before it |
| FixMdGateway.SnapshotForgets | src/md/fix_md_gateway.cpp:276-323 | after a snapshot the book is what the snapshot says, whatever came before |
| MessageEvents.SnapshotPublishes | src/md/fix_md_gateway.cpp:287-322 | after any messages a snapshot logs one New for each Bid and each Offer among its entries up to the first without a type, in order, with the id, price and quantity of the entry (0 where not set), and nothing for trades and unknown types |
| MessageEvents.SnapshotRoundTrip | src/md/fix_md_gateway.cpp:276-323 | any quotes written out as entries come back: exactly they are logged, and the book is what they build |
| MessageEvents.SnapshotRestores | src/md/fix_md_gateway.cpp:276-323 | a snapshot of the live orders of a book whose levels are their sums leaves that very book, whatever was there before |
| MessageEvents.RefreshPublishes | src/md/fix_md_gateway.cpp:205-274 | after any messages a refresh logs one event for each Delete and each New or Change of a known type up to the first malformed entry, in order, with the fields of the entry; the others are passed over |
| FixMdGateway.FixMdGateway.OnIncrementalRefresh | src/md/fix_md_gateway.cpp:205-274 | the entry loop: log, book and queue after a refresh |
| FixMdGateway.FixMdGateway.OnSnapshot | src/md/fix_md_gateway.cpp:276-323 | the clear and the entry loop of a snapshot |
| FixMdGateway.FixMdGateway.FromApp | src/md/fix_md_gateway.cpp:174-200 | the step of one message, refresh or snapshot |
| BucketWindow.AdvanceStamps | src/alpha/delta_factor.cpp:28-52 | capped advance keeps the stamps one bucket apart and the head never goes back, for any clock |
| BucketWindow.StampOf | src/alpha/delta_factor.cpp:47-51 | the i-th most recent bucket is i bucket lengths before the head |
| BucketWindow.BreakMissesNothing | src/alpha/delta_factor.cpp:76-81 | the early break selects exactly the buckets not older than the cutoff |
| BucketRing.Ring.Push | src/alpha/delta_factor.cpp:48-50 | a new head bucket in front; the oldest is lost when the ring is full |
| BucketRing.Ring.Advance | src/alpha/cancel_factor.cpp:19-40 | the advance loop over the ring is the advance of its bucket sequence |
| DeltaFactor.WindowExactIff | src/alpha/delta_factor.cpp:13-15 | the window sum is the signed volume of the whole trade history within the window, on every input, iff the window is shorter than 64 buckets |
| DeltaFactor.WindowExactWhenRingIsLonger | src/alpha/delta_factor.cpp:68-85 | the direction that holds: overwriting and capped advance lose nothing still in the window |
| DeltaFactor.LongWindowLosesTrade | src/alpha/delta_factor.cpp:48-50 | with a longer window a trade still within it is overwritten |
| DeltaFactor.HeadCoversIff | src/alpha/delta_factor.cpp:37-51 | after an event the newest bucket contains its time iff that was not before the bucket and at most the cap of buckets after it, on any clock |
| DeltaFactor.TradesLandInTheirBucket | src/alpha/delta_factor.cpp:28-63 | on any run every trade is counted in the bucket of its own stamp iff each came within that reach |
| DeltaFactor.SteadyClockLands | src/alpha/delta_factor.cpp:37-51 | which a clock without steps back or long gaps guarantees |
| DeltaFactor.NetIsOwnVolume | src/alpha/delta_factor.cpp:28-85 | with a window of whole buckets shorter than the ring, on every run whose trades came in reach, the net is the signed volume of exactly the trades whose own stamp is at or after the cutoff |
| DeltaFactor.HistoryIsFills | src/alpha/delta_factor.cpp:54-63 | on every run the trades recorded are those of the inputs: +quantity at or above the last midprice or with none positive, -quantity below it, nothing for other events |
| DeltaFactor.NetIsBoughtLessSold | src/alpha/delta_factor.cpp:54-85 | under the same conditions the net is the quantity bought less the quantity sold since the cutoff |
| DeltaFactor.LateTradeIsMisfiled | src/alpha/delta_factor.cpp:45-45 | a trade one bucket past the reach is counted in the bucket before its own |
| DeltaFactor.AccelerationIsSecondDifference | src/alpha/delta_factor.cpp:83-88 | the value is the second difference of the net volume over the last three events of the run |
| DeltaFactor.NumBuckets | src/alpha/delta_factor.cpp:13-15 | the ring is as long as the window and one bucket, at most 64 |
| DeltaFactor.BucketsSpanWindow | src/alpha/delta_factor.cpp:13-15 | short of the cap the buckets but one span the window, and one bucket fewer would not |
| DeltaFactor.DeltaFactor.Create | src/alpha/delta_factor.cpp:9-16 | bucket length zero is refused |
| DeltaFactor.DeltaFactor.OnEvent | src/alpha/delta_factor.cpp:54-66 | advance, classify by midprice, recompute: the specified step |
| DeltaFactor.DeltaFactor.Recompute | src/alpha/delta_factor.cpp:68-89 | net volume of the window, the history shifted, the second difference |
| DeltaFactor.DeltaFactor.SumSince | src/alpha/delta_factor.cpp:75-81 | the breaking loop sums exactly the buckets within the window |
| DeltaFactor.DeltaFactor.Reset | src/alpha/delta_factor.cpp:18-26 | everything but the midprice; the initial state iff that was 0 |
| Statistics.CauchySchwarz | src/alpha/cancel_factor.cpp:72-80 | the square of the sum is at most n times the sum of squares the loop builds |
| Statistics.Samuelson | src/alpha/cancel_factor.cpp:84-99 | how far one of n counts can be from their mean, with denominators cleared |
| Statistics.ZScoreBound | src/alpha/cancel_factor.cpp:84-99 | the computed score satisfies z squared <= n - 1 for the count of the newest bucket |
| Statistics.Sort | src/alpha/cancel_factor.cpp:124-124 | in order, and a rearrangement |
| Statistics.FewAbovePercentile | src/alpha/cancel_factor.cpp:124-127 | at most ceil((m - 1) / 20) of m values exceed the sorted element at 19 (m - 1) / 20 |
| Statistics.PercentileAtMost | src/alpha/cancel_factor.cpp:124-127 | with few values above a bound the percentile is not above it |
| CancelFactor.WindowSize | src/alpha/cancel_factor.cpp:64-82 | the ring's geometry puts 2 to 101 buckets into the window |
| CancelFactor.ZScoresWithinTen | src/alpha/cancel_factor.cpp:61-99 | on every event stream both scores are between -10 and 10 |
| CancelFactor.ZScoresWithinWindow | src/alpha/cancel_factor.cpp:61-99 | on every event stream with two buckets or more, z squared <= n - 1 for both scores and the current window size n |
| CancelFactor.BucketsCountDeletes | src/alpha/cancel_factor.cpp:42-56 | on every event stream the two counts of a bucket are the Bid and the Offer Deletes that came while it was the newest |
| CancelFactor.DeleteInOwnBucketIff | src/alpha/cancel_factor.cpp:19-40 | that bucket contains the stamp of the event iff the stamp is not before the previous head nor more than 200 buckets after it |
| CancelFactor.ScoresStandardise | src/alpha/cancel_factor.cpp:61-99 | on every event stream with two buckets or more, over the Deletes of a side in the buckets within one second of the head: score times sigma is the newest count less the mean, sigma the root of the variance or 1 if that is not positive; a score is positive iff the newest count is above the mean |
| CancelFactor.ExpireIsFilter | src/alpha/cancel_factor.cpp:106-112 | popping from the front drops exactly the old samples when stamps are in order |
| CancelFactor.SamplesAreRecentHistory | src/alpha/cancel_factor.cpp:101-112 | on every run the samples kept are all ever recorded within 30 s of the head, the current scores last |
| CancelFactor.FewExceedThreshold | src/alpha/cancel_factor.cpp:115-128 | few samples exceed the dynamic threshold |
| CancelFactor.CancelFactor.OnEvent | src/alpha/cancel_factor.cpp:42-59 | the specified step of ring, scores and samples |
| CancelFactor.CancelFactor.RecomputeZScores | src/alpha/cancel_factor.cpp:61-113 | scores and samples after the window loop, or unchanged with fewer than two buckets |
| CancelFactor.CancelFactor.SumWindow | src/alpha/cancel_factor.cpp:67-80 | counts, sums and sums of squares of exactly the buckets in the window |
| CancelFactor.CancelFactor.Record | src/alpha/cancel_factor.cpp:101-112 | the three queues together are the sample list with the new sample and the old ones dropped |
| CancelFactor.CancelFactor.DynamicThreshold | src/alpha/cancel_factor.cpp:115-128 | the percentile of the larger scores, 2 without samples |
| CancelFactor.CancelFactor.Reset | src/alpha/cancel_factor.cpp:10-17 | the initial state |
| SignalEngine.HighFloorNeverFires | src/alpha/signal_engine.cpp:26-44 | with a cancel floor of 10 or more no signal on any stream |
| SignalEngine.SignalIsRare | src/alpha/signal_engine.cpp:26-42 | when a signal fires the newest sample exceeds the threshold, and only few samples do |
| SignalEngine.MidIsHalfway | src/alpha/signal_engine.cpp:18-21 | on every run the midprice lies halfway between the two best prices last seen together, rounded down, and is 0 before |
| SignalEngine.SignalIsGenuine | src/alpha/signal_engine.cpp:26-53 | a buy iff acceleration and ask score pass their thresholds, a sell iff the mirror image and no buy; the signal left names the stamp, the best price of the side hit, and the two values |
| SignalEngine.SignalEngine.OnEvent | src/alpha/signal_engine.cpp:16-54 | both factors stepped, the decision taken, the last signal kept unless it fired |
| SignalEngine.SignalEngine.Reset | src/alpha/signal_engine.cpp:10-14 | the initial state but for the midprice |
| SignalReach.SilentIff | src/alpha/signal_engine.cpp:26-44 | an engine is silent on every stream iff its floor is at least 10 |
| SignalReach.LowFloorFires | src/alpha/signal_engine.cpp:36-42 | a stream of 101 events on which any lower floor fires |
| SignalReach.SignalFromHistory | src/alpha/signal_engine.cpp:16-44 | on every run a buy iff the second difference of the window volumes of the whole trade history passes its threshold and the ask score the floor and the percentile of all samples of the last 30 s; a sell iff the mirror image and no buy |
| ReplayReach.SilentOnLogsIff | src/alpha/signal_engine.cpp:16-44 | an engine that replays a log, with the best prices of the book the log builds, is silent on every log iff its floor is at least 10 |
| Evaluation.RunIsTally | apps/backtest/main.cpp:86-149 | on any clock the pending list is the open signals in order and each counter the sum of what each signal's fate is worth |
| Scoreboard.CountersCount | apps/backtest/main.cpp:112-130 | on any clock: wins are the signals scored with a gain of 100 or more, losses those with less, the single-factor counters the same among signals on which that engine fired, the move the sum of gains |
| Scoreboard.ScoredIff | apps/backtest/main.cpp:104-125 | on a steady clock a signal is scored with gain g iff the first event five seconds or more after it has both best prices and they give g: ask less entry for a buy, entry less bid for a sell |
| Scoreboard.BuysAndSells | apps/backtest/main.cpp:138-142 | buys and sells count the events that gave a buy or a sell |
| Scoreboard.BacktestCounts | apps/backtest/main.cpp:86-149 | on every log and any engines the report is those counts, over signals with the stamp, best prices and engine answers of each record |
| Evaluation.SignalsConserved | apps/backtest/main.cpp:86-149 | total = buys + sells = wins + losses + dropped + pending, and single-factor counts are within them |
| Evaluation.ResolvedIsFirst | apps/backtest/main.cpp:104-104 | the event that resolves a signal is the first past its horizon |
| Evaluation.FoundIsCurrent | apps/backtest/main.cpp:105-112 | on a steady clock the search returns the point of the resolving event itself, or none when it has no two best prices |
| Evaluation.FateIsSimple | apps/backtest/main.cpp:100-136 | so a signal is scored at that event's prices, or dropped |
| Evaluation.LoopRefinesSimple | apps/backtest/main.cpp:86-149 | the loop with history, bisection and erasure computes the counters of an evaluation without any of them |
| Evaluation.ErasesPrefix | apps/backtest/main.cpp:102-135 | what an event erases from a list in trigger order is a prefix of it |
| Evaluation.RunErasesPrefix | apps/backtest/main.cpp:86-136 | on every run with a steady clock the signals erased at the next event are a prefix of the pending list |
| Evaluation.SfNeedsShot | apps/backtest/main.cpp:126-129 | single-factor counters stay 0 unless that engine fired |
| Replay.ReplaySees | apps/backtest/main.cpp:91-92 | book and engine inputs of the replay are those of a run of the book |
| Replay.ReplayEvaluates | apps/backtest/main.cpp:86-149 | the evaluation inside the replay is the evaluation of what the replay sees |
| Replay.SfEngineIsSilent | apps/backtest/main.cpp:70-71 | the second engine emits nothing on any stream |
| Replay.SingleFactorNeverCounts | apps/backtest/main.cpp:126-148 | both single-factor counters are 0 on every log |
| Replay.BacktestConserves | apps/backtest/main.cpp:86-149 | conservation of signals on every log and with any engines |
| EnginePair.Pair.Feed | apps/backtest/main.cpp:138-148 | both engines see every event; the first one's signal with its stamp and price |
| Backtest.PassGoesOn | apps/backtest/main.cpp:101-136 | one round of the erase loop leaves the pass one signal further |
| Backtest.Backtester.ScoreElapsed | apps/backtest/main.cpp:105-130 | one elapsed signal added to the counters, or to none, and its move in ticks to the total |
| Backtest.Backtester.EvaluatePending | apps/backtest/main.cpp:100-136 | exactly the elapsed signals are gone, each scored once |
| Backtest.Backtester.OnRecord | apps/backtest/main.cpp:91-148 | one record: book, history, evaluation, engines, queueing |
| Backtest.Backtester.Run | apps/backtest/main.cpp:86-149 | the whole loop is the replay, and its single-factor counters are 0 |
| RiskManager.AccountsHold | src/risk/risk_manager.cpp:45-92 | after any calls: result = -tick * total slippage since reset, slip counter = trailing over-slipped run modulo its limit, cooldown start = last trigger, fused iff some fill that was no abort left the day past its limit |
| RiskManager.CounterBelowLimit | src/risk/risk_manager.cpp:71-80 | the counter never reaches its limit |
| RiskManager.FusedIff | src/risk/risk_manager.cpp:84-89 | fused iff the loss was past the limit at the last fill that was no abort |
| RiskManager.FusePersists | src/risk/risk_manager.cpp:106-113 | only a reset unblows the fuse |
| RiskManager.FuseAgainstLoss | src/risk/risk_manager.cpp:60-89 | fused implies a loss past the limit; such a loss without a fuse implies the last fill was an abort |
| RiskManager.AbortSkipsFuse | src/risk/risk_manager.cpp:60-67 | one fill 60 ticks off, past the default limit and not fused |
| RiskManager.LossRuleKeptIff | src/risk/risk_manager.cpp:60-89 | a fill keeps the rule unless it is an abort that carries an unfused day past the limit, and only then |
| RiskManager.AdmitsIff | src/risk/risk_manager.cpp:10-29 | whatever calls intervened and whatever the clock did, a signal is admitted iff not blown, nothing open and the cooldown of the day's last trigger does not cover the reading |
| RiskManager.AdmitsOnSteadyClock | src/risk/risk_manager.cpp:10-29 | on a clock that neither goes back nor reads 0: no trigger since reset is less than the cooldown back |
| RiskManager.CooldownCovers | src/risk/risk_manager.cpp:10-13 | the cooldown covers exactly the clock readings from its start to its end; an earlier reading wraps around and is let through |
| RiskManager.TimedOutIff | src/risk/risk_manager.cpp:98-101 | timed out iff the last call sent an order and the clock is not within the timeout from then on; a reading from before it counts as too late |
| RiskManager.SlippageMeasures | src/risk/risk_manager.cpp:37-43 | slippage times 100 is the distance of the two prices, either way; none iff a price is missing or they agree |
| RiskManager.RiskManager.OnFill | src/risk/risk_manager.cpp:45-92 | the new state of a fill, abort path included |
| RiskManager.RiskManager.CheckSignal | src/risk/risk_manager.cpp:15-29 | admission |
| RiskManager.RiskManager.OnTimer | src/risk/risk_manager.cpp:98-104 | the order to close, iff held for the timeout |
| RiskManager.RiskManager.ResetDaily | src/risk/risk_manager.cpp:106-113 | all of the day's state, the position among it |
| ClOrdIds.IdsAreDistinctAndFit | src/oms/order_manager.cpp:60-63 | ids are equal iff their counters are; at most 23 characters from 64 bits, so the 32-byte copy is exact |
| ClOrdIds.IdReadsBack | src/oms/order_manager.cpp:60-63 | the prefix and the counter in decimal |
| OrderManager.OrderManager.SendIoc | src/oms/order_manager.cpp:65-113 | id taken, order filed, risk manager told, all but the id taken back when the session is not there |
| OrderManager.OrderManager.CancelOrder | src/oms/order_manager.cpp:115-133 | a request with a fresh id iff the order is open; the table stays |
| OrderManager.OrderManager.OnExecutionReport | src/oms/order_manager.cpp:151-191 | fill, partial fill, rejection and expiry; unknown ids and other types change nothing |
| OrderManager.OrderManager.AlphaTurn | apps/engine/main.cpp:58-88 | timeout first, then the signal |
| Trading.PositionIsOpen | src/oms/order_manager.cpp:96-117 | on every interleaving an open position is an order of the table, and the same order |
| Trading.TimeoutCloses | apps/engine/main.cpp:61-73 | a timeout sends one cancel request for that order and, on a live session, one order the other way for the same quantity, measured against the best bid when it sells and the best ask when it buys |
| Trading.OrdersAreConserved | src/oms/order_manager.cpp:60-113 | every order sent is exactly one of open, filled, refused, undelivered; all ids on the wire differ |
| Trading.FatesAreFinal | src/oms/order_manager.cpp:151-191 | an order keeps its final fate on every continuation, and duplicate reports change nothing |
| Trading.LeavesIff | src/oms/order_manager.cpp:165-190 | an order leaves the table iff a fill, rejection or expiry of it is reported |
| Trading.RiskFollowsCalls | src/oms/order_manager.cpp:96-189 | the risk manager runs through exactly the calls trading makes, so its theorems hold there |
| Trading.TradesAreFills | src/risk/risk_manager.cpp:45-47 | trades of the day = accepted fill and partial fill reports since reset |
| OrderHistory.AcceptedReport | src/oms/order_manager.cpp:165-181 | a report with code 1 or 2 about an open order sent at s costs tick size times the ticks between the reported price and s, none if either is 0; code 1 leaves the order with that price and time and otherwise as it was, code 2 takes it out |
| OrderHistory.LeavesByCode | src/oms/order_manager.cpp:165-190 | of all codes exactly 2, 8 and C take an open order out of the table, as filled or refused; any other than these and 1 changes nothing |
| OrderHistory.ResultIsTicksLost | src/risk/risk_manager.cpp:37-55 | on every run the result of the day is minus the tick size times the ticks between reported and signalled prices over the accepted reports since reset |
| OrderHistory.OpenOrderIsAsSent | src/oms/order_manager.cpp:88-97 | on every run an open order has the time, side, quantity and price of the signal or timeout that sent it, and the price and time of the last partial fill reported since |
| OrderHistory.NoOrderOffSession | src/oms/order_manager.cpp:69-72 | after a logout, and before the first logon, no event sends an order or puts one into the table |
| Trading.SignalSendsIff | apps/engine/main.cpp:75-87 | on a live session and any clock a signal becomes one order iff not blown, nothing open and the last trigger's cooldown does not cover the reading |
| Trading.FilledIff | src/oms/order_manager.cpp:165-181 | some order counts as filled iff a report with code 2 came while its order was open |
| Trading.TradeReportIgnored | src/oms/order_manager.cpp:163-190 | a report with the dictionary's code for a trade, about an open order, changes nothing |
| Trading.ConformingNeverFills | config/spec/FIX44.xml:4271-4289 | on every run whose reports conform to the FIX 4.4 dictionary nothing is ever filled and no trade is counted |
| Trading.StepKeepsOneIff | src/oms/order_manager.cpp:165-189 | a step keeps one order at a time iff it is not a partial fill, a timeout on a live session or a reset with a position |
| Trading.OneThroughoutIff | src/risk/risk_manager.cpp:31-35 | a run has one order at a time throughout, with the position flag telling, iff no step of it is one of those |
| Trading.StepOpensSecondIff | include/smartquant/risk/risk_manager.hpp:10-17 | from at most one open order a step leads to two iff it sends a delivered order on a live session, for an admitted signal while one is open or for a timeout |
| Trading.AtMostOneIff | include/smartquant/risk/risk_manager.hpp:10-17 | a run never has two orders open iff no step of it is one of those |
| Trading.TimeoutOpensSecond | apps/engine/main.cpp:61-73 | a position held to its timeout, after which two orders are open |
| Trading.PartialFillAdmitsSecond | src/oms/order_manager.cpp:165-178 | a run after which two orders are open |
| Trading.HoldingsAreNotPositions | src/risk/risk_manager.cpp:31-35 | for any size a run with never two orders open after which the filled orders add up to it, the table is empty and no timer tick does anything |

## Left out

- Floating point: volumes, counts, prices and profit are exact integers or reals, and the percentile index is 19 (m - 1) / 20 rounded down. Rounding is not modelled.
- The square root: any function that returns a root at every positive number, or a bit more. Rounding down is not modelled.
- SignalReach.SilentIff: for a root that is exact at the one variance of the witness stream, 100/10201; HighFloorNeverFires needs no exact root.
- 64-bit wrap-around of stamps, quantities, prices and positions in the log, except the unsigned differences of the horizon, cooldown, timeout and queue size, the sum that gives a signal's target stamp, and the order counter, which are modelled.
- Trading.OrdersAreConserved: holds until 2^64 ids have been taken, when the order counter comes round and ids repeat.
- OrderHistory.OpenOrderIsAsSent: under the same bound, for the same reason.
- Trading.StepKeepsOneIff: under the same bound.
- Trading.StepOpensSecondIff: under the same bound.
- RiskManager.AdmitsIff: for stamps that leave room for a cooldown below 2^64 ns.
- Trading.SignalSendsIff: under the same bound.
- Evaluation.FoundIsCurrent: for a clock that does not go back; RunIsTally and SignalsConserved hold for any clock.
- BinaryLogger.BinaryLogger.Write: a payload longer than the ring is not modelled, as the copy would leave the ring.
- BinaryLogger.ReplaysEveryWholeRecord: reading from inside a record parses payload bytes as headers; what comes out then is not described.
- BinaryLogger.EntryShowsIff: a storage block that was given back counts as gone for good, and bytes past what the buffer holds as not shown; that an allocator may hand out the same addresses again is not modelled.
- Memory mapping, file opening, magic and version checks, flushing: the mapping is an array of bytes. A reader and a writer at the same time are not modelled.
- The LobEventLogger source is not part of this model; the event log is a sequence.
- Concurrent access to the book, the risk manager and the order table: each handler is one step. Only the queue gets micro-steps; inside a handler the signal thread's pops come in between pushes.
- The bucket ring of the two factors is one class here; the source has the same loops twice.
- Library algorithms: the ordered maps of the book are maps with a least and a greatest key, the sort an insertion sort, the bound search a bisection, the queues of samples sequences.
- The move-assigning push: moves are copies here.
- QuickFIX sessions, credentials, subscriptions, symbol lookup, rejects of market data and cancels: only decoded messages and reports enter. A message whose group count and groups disagree is not modelled.
- TscClock, thread pinning, signal handling, console output, CSV, rates of the report, setters of the thresholds.
