# Verified models of the network manager's stateful core

The network manager divides quantities over time, folds them, caches them and
hands them out, and promises that nothing is lost, duplicated or reordered on
the way. This project models those parts in Dafny and proves the promises for
every input, every run or every reachable state.

`dafny verify dfyconfig.toml` checks the whole project.

## What is modelled

**The flow collector** (`FlowAggregate`, `FlowSplit`, `FlowFlush`, `FlowPairs`,
`FlowAggregator`, `FlowShares`, `FlowBalance`, `FlowLedger`, `FlowCrowd`,
`FlowWorker`). A record's bytes and packets are split over at most three open
minutes with cumulative integer rounding; a minute is flushed once, cut to the
top conversations per interface pair and overall, and handed to the writer in
one batch with the same minute of every exporter. `FlowWorker.Collector` keeps a
ghost ledger of every record accepted, with its exporter and the window it was
booked in. That decides what the record is due to bring to each minute: the part
of its bytes and packets that its time in the minute is of its whole time
(`FlowShares.DueIsShare`). Over any run of datagrams, ticks, new exporters and a
final shutdown, with a clock that may step back or stall, the rows handed over
for each minute of each exporter sum to exactly what is due to it; while at most
20,000 interface pairs are booked in the minute they do so pair by pair.
Counters hold less, never more, only where what that one minute is due passes
the largest int64. Past the epoch the next flush never moves back, every open
minute is one of the three from it on, and each minute is flushed at most once,
in order, shutdown included.

**The port-counter collector** (`PortSpread`, `PortStats`). Counter increases
are spread over the minutes they overlap. Under every interleaving of readings,
expiry and the two halves of a flush, each minute of each port holds, open or
written, exactly the bytes due to it, and a port that is never lost sight of
gains exactly what its counters rose; with flushes in one piece and a clock that
never steps back, flushed minutes are final and a device read within its hold
time never has a share carried.

**The measured views** (`FlowView`, `FlowGroup`, `Coverage`, `Sankey`,
`SankeyBuild`). Filters commute with aggregation, a subtraction over runs of
buckets is a direct sum, groups and the Sankey graph conserve bytes, and what is
shown does not depend on map order. The database's aggregates enter as any
answer that groups by key and sums bytes (`GroupBy`).

**Bounded structures that must agree with a history** (`LogReader`, `DupFilter`,
`FlowCache`). Each class carries the full history as ghost state; the ring,
buffer, marks and maps are proved to be a window onto it.

**The address plan** (`Prefixes`, `AddressPlan`, `PlanBuild`). The host map and
the sorted scan are longest-prefix match; the host rows change the class of no
address; the order of the reports does not matter.

**Smaller state machines** (`IpFollow`, `PortMonitor`, `TierClock`,
`ClassGate`).

`Arith`, `Sums`, `Sorting`, `TopN`, `GroupBy`, `Strings`, `Moments` and
`Addresses` hold the mathematics they share.

## How it is modelled

- A part that updates fields in place is a class with `modifies` clauses; its
  loops are loops. Parts that only compute are functions. Each method is tied
  to a specification function or relation, and the promises are proved of that.
- A step taken under a lock is one atomic step. Where the lock is released in
  the middle (the port flush, a cache load) the step is two.
- Map iteration order is arbitrary: `Enumerate` and the choice of a key return
  any order, and results that must not depend on it are proved not to.
- Times are integers (nanoseconds in the flow collector and the port
  collector, milliseconds or unspecified units elsewhere) and parameters of
  every step. 64-bit saturation of flow counters is written out; other sums are
  unbounded.
- Parsers, the network, the database and the clock are parameters: a read of a
  device's log, an aggregate's answer, a query's result, whether an interface
  type is a VPN type, where a host attaches.

## Where the code and its documentation differ

- A flushed minute's per-pair totals are described as exact. They are so, for
  every order of folding, if and only if no folded pair is new to the minute's
  table of other rows or the pairs of both are at most 20,000
  (`FlowPairs.EveryFlushExact`; `FlowPairs.FlushConservesPairs` for one order).
  Once the table is full a pair without a row loses all that is folded of it to
  the catch-all pair (`FlowPairs.CrowdedLoses`); records of 20,001 pairs in one
  minute are enough (`FlowWorker.CrowdedMinute`). Totals over all pairs are
  always exact.
- The open window relies on the next flush only moving forward. The value 0 also
  means "not set", so a collector standing at the epoch can move back
  (`FlowWorker.StepBackAtEpoch`); `FlowLedger.NextFlushMonotone` and
  `FlowLedger.FlushKeepsWindowIff` give the exact conditions.
- A port flush releases its lock between taking minutes and advancing the
  watermark, so a reading in between can leave an open minute behind the
  watermark (`PortStats.ReadingAfterHold`); `PortStats.ReadingDuringFlush` says
  exactly when, and `PortStats.ExpectedDuringFlush` that an expected device is
  never the one.
- Administrative writes clear the aggregate cache, but a load that starts after
  the clear still follows a query begun before it
  (`FlowCache.FollowAfterClear`); no such result is stored.

## Model

| member | source | states |
|---|---|---|
| `FlowAggregate.SatAdd` | backend/internal/flow/aggregate.go:36-41 | 64-bit addition that wraps and checks is min(exact sum, largest int64) |
| `FlowAggregate.MulDiv` | backend/internal/flow/aggregate.go:131-136 | the exact floor of x·num/den; the 128-by-64-bit division inside it can never fault |
| `FlowAggregate.FloorMinute` | backend/internal/flow/aggregate.go:96 | the minute holding a time, also before the epoch where the remainder is negative |
| `FlowAggregate.Window` | backend/internal/flow/aggregate.go:98-111 | the open window starts at or after the next flush, spans at most three minutes, and is aligned, whatever the clock says |
| `FlowAggregate.BookTotal` | backend/internal/flow/aggregate.go:158-183 | booking a share adds exactly it to the minute, whether it lands on a conversation, a new one, or the other row past the key limit |
| `FlowAggregate.BookKeepsMeta` | backend/internal/flow/aggregate.go:158-183 | the byte and record counters of a minute agree with the sum of its rows, booking after booking |
| `FlowAggregate.BookIs` | backend/internal/flow/aggregate.go:65-78 | a share joins its conversation, or the pair's other row without endpoints or past 20,000 conversations, or the row of pair (0, 0) past 20,000 pairs; no other row changes |
| `FlowAggregate.BookCounts` | backend/internal/flow/aggregate.go:158-183 | the minute counts the share's bytes, the record once, the overflow of a conversation too many, and the largest sampling rate |
| `FlowSplit.ShareNearProportion` | backend/internal/flow/aggregate.go:189-198 | each share differs from the exact proportion of its time by less than one byte or packet |
| `FlowSplit.Normalise` | backend/internal/flow/aggregate.go:144-156 | start, end, bytes and packets after clamping form a valid interval whose credit is the rounding of the share loop; FlowShares tells it from the record's fields |
| `FlowSplit.SplitTotal` | backend/internal/flow/aggregate.go:185-213 | the shares of a record sum to exactly its clamped bytes and packets and to one flow |
| `FlowSplit.NothingLeft` | backend/internal/flow/aggregate.go:199-210 | the elapsed time reaches the full duration by the last minute, so the residual booking after the loop is never reached |
| `FlowSplit.SplitByMinute` | backend/internal/flow/aggregate.go:167-213 | each open minute is credited exactly its part of the record, the part before the window in its first minute |
| `FlowFlush.KeptAheadOfFolded` | backend/internal/flow/aggregate.go:266-308 | the kept conversations come with more bytes first, ties by key; a pair keeps at most topN and a minute at most maxRows; a folded one carries no more than any its pair kept, and no more than any kept at all unless topN of its own pair carry more |
| `FlowFlush.RowsAre` | backend/internal/flow/aggregate.go:309-351 | a row for each kept conversation in order, then one for each pair whose other row is not empty in pair order, and the minute's own counters unless it is neither alive nor has rows |
| `FlowFlush.CutUnique` | backend/internal/flow/aggregate.go:286-308 | which conversations are kept and folded does not depend on map order |
| `FlowFlush.FoldOrderFree` | backend/internal/flow/aggregate.go:291-308 | with room for every pair the folded table does not depend on the order of folding |
| `FlowFlush.FlushOrderFree` | backend/internal/flow/aggregate.go:279-351 | with room for every pair the rows and the meta row do not depend on map order at all |
| `FlowFlush.FlushConserves` | backend/internal/flow/aggregate.go:279-351 | the rows of a flushed minute hold exactly what the minute held, less only by saturation |
| `FlowFlush.RowsMatchMeta` | backend/internal/flow/aggregate.go:279-351 | below saturation the rows sum to the bytes and the records of their meta row |
| `FlowFlush.SortAndCut` | backend/internal/flow/aggregate.go:291-308 | the first n in order: nothing cut comes before anything kept |
| `FlowFlush.CutPairs` | backend/internal/flow/aggregate.go:286-301 | the top topN of every pair are kept and exactly the others are folded |
| `FlowFlush.Flush` | backend/internal/flow/aggregate.go:279-351 | the rows and meta row of a minute: the kept conversations in order, then the other rows in pair order; and exactly the interfaces its rows passed bytes on |
| `FlowAggregator.AddedWithin` | backend/internal/flow/aggregate.go:144-218 | a record touches only minutes of the open window and leaves every other minute as it was |
| `FlowAggregator.AddedTotal` | backend/internal/flow/aggregate.go:144-218 | adding a record adds exactly its clamped bytes and packets and one flow to the open minutes, less only by saturation |
| `FlowAggregator.AddedByMinute` | backend/internal/flow/aggregate.go:144-218 | each minute of the window gains exactly its due part of the record |
| `FlowAggregator.AddedExact` | backend/internal/flow/aggregate.go:144-218 | while no minute's own total passes the largest counter, the open minutes gain all of a record |
| `FlowAggregator.MarkedKeeps` | backend/internal/flow/aggregate.go:112-121 | marking a datagram books nothing |
| `FlowAggregator.MarkedAt` | backend/internal/flow/aggregate.go:112-121 | marking makes every minute of the window alive and counts the datagram in the current one |
| `FlowAggregator.Aggregator.Put` | backend/internal/flow/aggregate.go:158-183 | one share booked in its minute, clamped to the window |
| `FlowAggregator.Aggregator.MarkAlive` | backend/internal/flow/aggregate.go:112-121 | the minutes after a datagram at a time |
| `FlowAggregator.Aggregator.FlushMinute` | backend/internal/flow/aggregate.go:279-351 | the minute is removed and its rows are a result of flushing it |
| `FlowAggregator.Aggregator.AddShares` | backend/internal/flow/aggregate.go:185-213 | the share loop books the whole split of the record |
| `FlowAggregator.Aggregator.Add` | backend/internal/flow/aggregate.go:137-218 | the minutes after a record, and whether it was late |
| `FlowShares.WindowIs` | backend/internal/flow/aggregate.go:98-111 | a minute is open if and only if it is not flushed yet, began within the last three minutes, and is not ahead of the clock unless it is the next to be flushed |
| `FlowShares.DueIsShare` | backend/internal/flow/aggregate.go:138-218 | from the record's own fields: an open minute is due, within one unit, the clamped bytes or packets times the part of the record's time in it, the first minute also for all before it and the last for all after; the record is counted in the minute of its end |
| `FlowShares.AddedShare` | backend/internal/flow/aggregate.go:138-218 | booking a record gives each open minute that share and every other minute nothing |
| `FlowShares.AddedLate` | backend/internal/flow/aggregate.go:138-157 | a record that began before every open minute is counted late once, in the first of them |
| `FlowPairs.ExactIffRoom` | backend/internal/flow/aggregate.go:65-78 | below saturation a fold is right pair by pair if and only if no folded pair is new to the table, or table and fold together hold at most 20,000 pairs, or one more with the catch-all pair last |
| `FlowPairs.EveryOrder` | backend/internal/flow/aggregate.go:291-308 | every order of folding is right pair by pair if and only if no folded pair is new or all pairs are at most 20,000 |
| `FlowPairs.FlushConservesPairs` | backend/internal/flow/aggregate.go:273-351 | below saturation the rows of a flushed minute are right for every interface pair if and only if there was room for the pairs folded |
| `FlowPairs.EveryFlushExact` | backend/internal/flow/aggregate.go:273-351 | so whatever the map order, if and only if no folded pair is new to the table or all pairs are at most 20,000 |
| `FlowPairs.CrowdedLoses` | backend/internal/flow/aggregate.go:65-78 | once a minute's table of other rows is full, every flush takes from a pair without a row all that is folded of it and gives it to the catch-all pair, counters saturated or not |
| `FlowPairs.OtherRowExact` | backend/internal/flow/aggregate.go:65-78 | one addition reaches its own pair if and only if the pair is known, there is room, or it is the catch-all pair |
| `FlowBalance.BalancedAdd` | backend/internal/flow/worker.go:412-490 | an accepted record adds what is due: per exporter and minute, per interface pair, and in all, less only where what a minute is due passes the largest counter |
| `FlowBalance.BalancedFlush` | backend/internal/flow/worker.go:594-666 | a minute handed over moves what it held to the same exporter, minute and pair on the other side |
| `FlowBalance.NothingOpen` | backend/internal/flow/worker.go:575-591 | with nothing open everything due has been handed over |
| `FlowLedger.FlushKeepsWindow` | backend/internal/flow/worker.go:553-571 | a flush check leaves every open minute in {next, +60, +120} of the new next flush, for any clock |
| `FlowLedger.NextFlushMonotone` | backend/internal/flow/worker.go:553-571 | the next flush never moves back if and only if it is not the unset value 0 with the clock before two minutes past the epoch |
| `FlowLedger.FlushedWhen` | backend/internal/flow/worker.go:552-571 | a flush check flushes minute m if and only if m + 180 s has come |
| `FlowLedger.FlushKeepsWindowIff` | backend/internal/flow/worker.go:553-571 | the window invariant survives a flush check if and only if the next flush is set or the open minutes lie around the clock |
| `FlowLedger.ReceivedWithin` | backend/internal/flow/worker.go:412-490 | a datagram touches no minute outside that window |
| `FlowLedger.OrderlyFlush` | backend/internal/flow/worker.go:553-571 | flushed minutes come in ascending order, each once, all before the next flush |
| `FlowLedger.BalancedReceive` | backend/internal/flow/worker.go:412-490 | the records of a datagram bring the minutes of its exporter, and no other, what is due |
| `FlowLedger.EpochMovesBack` | backend/internal/flow/worker.go:553-558 | where it does not: at next flush 0 a clock stepped back to second 0 moves it to -120, past an open minute |
| `FlowWorker.Collector.constructor` | backend/internal/flow/collector.go:203 | starts two minutes before the current minute with nothing open |
| `FlowWorker.Collector.FlushMinute` | backend/internal/flow/worker.go:594-666 | the minute leaves every exporter and becomes one batch; nothing is lost between |
| `FlowWorker.Collector.CatchUp` | backend/internal/flow/worker.go:558-566 | the jump after a stall skips no open minute |
| `FlowWorker.Collector.FlushDue` | backend/internal/flow/worker.go:553-571 | after it exactly the minutes before the next flush are gone, each in one batch, oldest first |
| `FlowWorker.Collector.FlushAll` | backend/internal/flow/worker.go:575-591 | nothing stays open, every minute that was open is in one batch, and the batches follow those before in order |
| `FlowWorker.Collector.ProcessDatagram` | backend/internal/flow/worker.go:412-490 | flush check, then mark and book for a known enabled exporter; the window invariant and the balance survive |
| `FlowWorker.Collector.AddExporter` | backend/internal/flow/worker.go:258-276 | a new exporter starts empty and the others keep their minutes |
| `FlowWorker.Collector.Step` | backend/internal/flow/worker.go:775-803 | one event keeps the balance, the window and the order of batches, and past the epoch never moves the next flush back |
| `FlowWorker.Collector.Steps` | backend/internal/flow/worker.go:775-803 | so does any sequence of events, at any times |
| `FlowWorker.Collector.Run` | backend/internal/flow/worker.go:775-803 | after any run and shutdown nothing is in memory, and every minute of every exporter was handed exactly what the accepted records are due to bring it, unless that passes the largest counter; pair by pair too, if at most 20,000 pairs were booked in it; each minute was handed over at most once, in order, shutdown included |
| `FlowWorker.StepBackAtEpoch` | backend/internal/flow/worker.go:553-558 | a collector that reaches the failing case: started in the third minute after the epoch, one datagram, then a clock stepped back |
| `FlowWorker.CrowdedMinute` | backend/internal/flow/aggregate.go:65-78 | a collector that reaches a full table: after records of 20,001 interface pairs in one minute and a shutdown, a pair was handed fewer bytes than it is due and the catch-all pair the others, for every top-N below 20,000 and every row cap |
| `PortSpread.RoundDiv` | backend/internal/poller/portstats.go:681-686 | the quotient rounded half away from zero |
| `PortSpread.SpreadExact` | backend/internal/poller/portstats.go:667-714 | an increase is spread into non-negative shares that sum exactly to it, the covered time is the interval, and exactly one sample is counted |
| `PortSpread.ShareNearProportion` | backend/internal/poller/portstats.go:681-696 | each share is within one unit of the exact proportion of its time |
| `PortSpread.MinuteShare` | backend/internal/poller/portstats.go:653-714 | a minute's share of an increase is within one unit of the increase times the part of the interval in the minute |
| `PortStats.NotCarried` | backend/internal/poller/portstats.go:698-702 | while no minute from the interval's start on was flushed, every share goes to the minute it overlaps |
| `PortStats.BookedOpen` | backend/internal/poller/portstats.go:698-702 | booking opens no minute before the watermark |
| `PortStats.ReadingDuringFlush` | backend/internal/poller/portstats.go:818-835 | a reading between the two halves of a flush leaves a minute behind the watermark if and only if its interval starts before the boundary |
| `PortStats.ExpectedDuringFlush` | backend/internal/poller/portstats.go:800-835 | such a reading leaves none behind when its device was expected as the flush chose its boundary |
| `PortStats.ExpectedIs` | backend/internal/poller/portstats_device.go:85-94 | the next reading is expected for the interval, a tenth of it and 10 s after the last |
| `PortStats.ReadingBetween` | backend/internal/poller/portstats.go:818-835 | a collector that reaches the failing case: whenever the boundary was chosen after the hold ran out and the reading is usable all the same, a minute stays open behind the watermark |
| `PortStats.ReadingAfterHold` | backend/internal/poller/portstats.go:818-835 | the case with numbers: read at 0 s every 60 s, flushed at 130 s, read again at 140 s |
| `PortStats.SpreadDue` | backend/internal/poller/portstats.go:653-714 | told directly, a minute is due the time it shares with the interval, and the watermark's minute everything before its end |
| `PortStats.DueInPlace` | backend/internal/poller/portstats.go:653-714 | booked while its minutes are open, an interval gives every minute exactly its own time |
| `PortStats.TimeInPlace` | backend/internal/poller/portstats.go:653-714 | an interval covers of each minute the time they share and counts as one sample, in the minute it ends in |
| `PortStats.ReadAllDue` | backend/internal/poller/portstats.go:598-646 | a device reading brings every minute of every port exactly what its increases are due there |
| `PortStats.ReadAllBrings` | backend/internal/poller/portstats.go:598-646 | a reading brings each port the rise of its counters, receive and transmit each in its own, if the port runs, both readings have counters, no byte counter fell and at most three intervals passed; otherwise nothing |
| `PortStats.ReadAllSamples` | backend/internal/poller/portstats.go:598-646 | every port read has a sample of the reading's time, every other port the sample it had |
| `PortStats.ReadAllTotal` | backend/internal/poller/portstats.go:598-646 | a device reading books exactly the usable increases it counts |
| `PortStats.ReadAllInPlace` | backend/internal/poller/portstats.go:598-714 | while the device's interval is held open no share of its reading is carried |
| `PortStats.HeldFlush` | backend/internal/poller/portstats.go:800-835 | and through a flush of any device's cycle |
| `PortStats.Collector.Accumulate` | backend/internal/poller/portstats.go:667-714 | the share loop books the spread of the interval |
| `PortStats.Collector.ReadStat` | backend/internal/poller/portstats.go:608-644 | the sample is replaced and a usable increase booked; an unusable one books nothing |
| `PortStats.Collector.Ingest` | backend/internal/poller/portstats.go:598-646 | the samples and minutes after a reading: each port gains exactly what its counters rose or nothing, in the slots it is due, and in place while the device is held |
| `PortStats.Collector.FlushBoundary` | backend/internal/poller/portstats.go:800-816 | the greatest boundary that leaves open every minute an expected reading will credit |
| `PortStats.Collector.TakeMinutesBefore` | backend/internal/poller/portstats.go:863-892 | the minutes before the boundary are gone and each of their slots that moved bytes is one row, in order of minute, device and interface |
| `PortStats.Collector.Flush` | backend/internal/poller/portstats.go:818-861 | as one step: no open minute lies behind the watermark, and holds survive |
| `PortStats.Collector.Expire` | backend/internal/poller/portstats.go:751-776 | only samples and readings older than three intervals go, and a paused device's stay |
| `PortStats.Collector.Interleave` | backend/internal/poller/portstats.go:598-892 | under any interleaving of readings, expiry and the halves of flushes, open minutes plus written rows hold the increases counted, for every minute of every port; of a port never lost sight of they rise by exactly what its counters rose from first to last |
| `PortStats.Collector.RunAtomically` | backend/internal/poller/portstats.go:598-892 | with atomic flushes and a clock that never steps back, flushed minutes are final, every expected reading finds its minutes open, and each one of the run was booked in place |
| `FlowView.Select` | backend/internal/flowview/flowview.go:86-123 | exactly the rows of the point and direction that pass its filters, in order |
| `FlowView.SelectedFaces` | backend/internal/flowview/flowview.go:67-123 | a selected row has its local endpoint on the direction's side, past the point's filters; a folded row has none |
| `FlowView.CountsInView` | backend/internal/flowview/flowview.go:47-62 | facing up a row downloads if and only if it enters through an interface of the point and uploads if it leaves through one, facing down the reverse; the filters look at the destination of a download and the source of an upload |
| `FlowView.SelectedIs` | backend/internal/flowview/flowview.go:86-123 | the selected rows are the stored rows in view, each once and in order, with their own bytes, packets, flows and ends |
| `FlowView.Totals` | backend/internal/flowview/flowview.go:251-258 | the sum of the rows |
| `FlowView.SumByBucket` | backend/internal/flowview/flowview.go:124-152 | bucket by bucket and in both directions the total of the rows Select would return |
| `FlowView.TotalIsSum` | backend/internal/flowview/flowview.go:86-123 | the filters depend on a row's key alone: the selected total is a sum over keys |
| `FlowGroup.GroupRows` | backend/internal/flowview/flowview.go:210-230 | one group for each key some row has, and no other, with the exact sums of its rows |
| `FlowGroup.Group` | backend/internal/flowview/flowview.go:204-249 | distinct exact groups with more bytes first, ties by key, none left out larger than one returned; for every limit top plus other is the total |
| `Coverage.WholeWindow` | backend/internal/database/queries/flows.go:1062-1100 | filtering the whole window's aggregate gives the sum over its stored rows |
| `Coverage.OneRange` | backend/internal/api/flows_view.go:375-381 | filtering a range's aggregate gives the sum over its stored rows, with or without endpoints in it |
| `Coverage.MissingRuns` | backend/internal/api/flows_view.go:1101-1116 | the ranges hold exactly the buckets not kept, and neighbours never touch |
| `Coverage.Subtraction` | backend/internal/api/flows_view.go:1068-1083 | the whole window less the missing runs is the direct sum over the kept buckets |
| `Coverage.PortCoverage` | backend/internal/api/flows_view.go:1034-1083 | the flow bytes of each direction are the sum of the stored rows in view, in the buckets both sides covered, of hours only full ones if there are any; the clamp at 0 never acts |
| `LogReader.GotIs` | backend/internal/poller/logreader.go:92-156 | a consumer is handed lines in order and none twice, and of the lines since it joined exactly those it did not miss; it misses one only when more than 4000 lines came between two of its own calls |
| `LogReader.GapFree` | backend/internal/poller/logreader.go:92-156 | what it was handed is the unbroken stretch of the history since it joined if and only if never more than 4000 lines came between two of its calls |
| `LogReader.Device.constructor` | backend/internal/poller/logreader.go:70-79 | nothing read, nothing logged, nobody known |
| `LogReader.Device.Absorb` | backend/internal/poller/logreader.go:115-131 | a read appends its news, or only primes; only what exceeds the limit is dropped |
| `LogReader.Device.Trim` | backend/internal/poller/logreader.go:158-176 | the buffer then begins at the least mark or the latest read, unless it began later: no line some known consumer has not seen is dropped and nothing is kept longer |
| `LogReader.Device.Refresh` | backend/internal/poller/logreader.go:114-132 | the device is read exactly when the copy is a window old |
| `LogReader.CallReads` | backend/internal/poller/logreader.go:106-131 | the device is read if and only if it was not yet or the last read is a window ago, 30 s if the window is not positive; what a read brings joins the history unless it is the first or failed |
| `LogReader.Device.Serve` | backend/internal/poller/logreader.go:134-150 | a known consumer gets the newest 4000 of the lines since its last call, whatever other consumers do; a new one all that is buffered |
| `LogReader.Device.EntriesFor` | backend/internal/poller/logreader.go:106-156 | the reply is the text of exactly the lines newly accounted for, or the error if and only if there is nothing new and the last read failed; the history grows by what was read exactly when the copy is a window old, and a consumer up to date is handed the newest 4000 lines of it; a new consumer gets all lines some known consumer had not seen and the latest read, as far as the limit keeps them |
| `LogReader.Device.Run` | backend/internal/poller/logreader.go:92-156 | over any run of calls, reads, errors and windows each consumer is handed what its own calls entitle it to, from where its first call joined, and the whole stretch if and only if it kept up itself |
| `LogReader.FirstJoins` | backend/internal/poller/logreader.go:92-145 | the first to ask a device not read yet joins at line 1 |
| `DupFilter.RecordedSpaced` | backend/internal/flow/normalize.go:133-152 | two successive records of a hash within the capacity are a full TTL apart |
| `DupFilter.RecordedAllSpaced` | backend/internal/flow/normalize.go:133-152 | over any run of calls |
| `DupFilter.TimelySpaced` | backend/internal/flow/normalize.go:133-152 | with a clock that never goes back, any two records of a hash within the capacity are |
| `DupFilter.RepeatsTimely` | backend/internal/flow/normalize.go:133-152 | and a flow is dropped if and only if some record among the last capacity ones has its hash and is younger than the TTL |
| `DupFilter.Filter.Bounded` | backend/internal/flow/normalize.go:120-131 | the map never exceeds the ring |
| `DupFilter.Filter.Seen` | backend/internal/flow/normalize.go:133-152 | true if and only if the latest record of the hash is among the last capacity ones and younger than the TTL; recorded otherwise |
| `DupFilter.Filter.Run` | backend/internal/flow/normalize.go:133-152 | the answer to every call of any run, from the history alone |
| `FlowCache.Cache.Get` | backend/internal/api/flows_view.go:253-263 | the unexpired entry of the key; an expired one is gone |
| `FlowCache.Cache.Sweep` | backend/internal/api/flows_view.go:286-290 | exactly the expired entries go |
| `FlowCache.Cache.Evict` | backend/internal/api/flows_view.go:291-300 | oldest first, only as many as needed, and it terminates with room |
| `FlowCache.Cache.Put` | backend/internal/api/flows_view.go:278-304 | the new entry is held, live entries go oldest first and only as needed, the bound holds |
| `FlowCache.Cache.Clear` | backend/internal/api/flows_view.go:306-312 | no entry survives, and the keys in flight are now stale |
| `FlowCache.Cache.Begin` | backend/internal/api/flows_view.go:317-334 | a hit, the one query in flight for the key, or a new one; a follower shares a query older than the last clear if and only if its key was in flight at the clear and has not landed since |
| `FlowCache.Cache.Finish` | backend/internal/api/flows_view.go:336-348 | followers get the leader's result; it is stored only if it succeeded and no clear came since it began |
| `FlowCache.FollowAfterClear` | backend/internal/api/flows_view.go:317-334 | a load that starts after a clear can be handed a result queried before it |
| `Prefixes.ContainsRange` | backend/internal/flowview/plan.go:36-46 | a prefix holds the 2^(width - bits) addresses of its family from its first on |
| `Prefixes.MaskedSame` | backend/internal/flowview/plan.go:36-46 | masking gives the canonical prefix of the same addresses |
| `Prefixes.SameLength` | backend/internal/flowview/plan.go:139-146 | two canonical prefixes of one length sharing an address are equal |
| `Prefixes.BroadcastLast` | backend/internal/flowview/plan.go:59-70 | the directed broadcast address is the last address of the prefix |
| `AddressPlan.NewPlan` | backend/internal/flowview/plan.go:76-106 | valid rows masked and split into a host map and networks sorted most specific first, with the broadcasts of internal networks |
| `AddressPlan.LongestMatch` | backend/internal/flowview/plan.go:191-198 | the host map and the scan find the class of a most specific row, and nothing if and only if no row holds the address |
| `AddressPlan.DistinctMatch` | backend/internal/flowview/plan.go:191-198 | on distinct prefixes they are longest-prefix match |
| `AddressPlan.LookupIsNaive` | backend/internal/flowview/plan.go:76-106 | on every plan, repeated prefixes included, they find what a row-by-row search finds: the latest host row, else the earliest of the most specific networks |
| `AddressPlan.BroadcastsAre` | backend/internal/flowview/plan.go:88-92 | the broadcast set is the last addresses of the internal IPv4 networks of at most 30 bits |
| `AddressPlan.ClassMeans` | backend/internal/flowview/plan.go:159-203 | each class from the rows and settings alone: multicast, self, external, internal, most specific row, known host, in this precedence |
| `AddressPlan.MulticastIs` | backend/internal/flowview/plan.go:171-175 | multicast is 224.0.0.0 to 239.255.255.255 and ff00::/8 |
| `PlanBuild.KindMeans` | backend/internal/flow/plan.go:60-114 | vpn: a vpn interface or uplink; transit: a default route that is no vpn, with no gateway in a network of the interface another device is in, on a network no other device is in; all else internal |
| `PlanBuild.InsideExternalIs` | backend/internal/flow/plan.go:73-80 | an internal prefix gives way when all of it lies in an external prefix no longer than it |
| `PlanBuild.DropLanRoutes` | backend/internal/flow/plan.go:94-114 | the default routes left are those with no gateway in a shared prefix of their own interface |
| `PlanBuild.MergeAll` | backend/internal/flow/plan.go:121-137 | each prefix has the first of its rows of the highest rank |
| `PlanBuild.MergedIs` | backend/internal/flow/plan.go:115-137 | the class of a merged prefix: internal over vpn over transit, except that internal gives way inside an external prefix |
| `PlanBuild.AddHosts` | backend/internal/flow/plan.go:138-156 | host rows with the class of the most specific network, for exactly the addresses some network holds |
| `PlanBuild.HostsKeepClass` | backend/internal/flow/plan.go:43-57 | host rows change what the view says of no address, whatever the settings |
| `PlanBuild.BuildPlan` | backend/internal/flow/plan.go:58-168 | the merged networks and host rows, each prefix once, ordered by address and length |
| `PlanBuild.PlanOrderFree` | backend/internal/flow/plan.go:58-168 | the same reports in any order give the same prefixes, order and classes |
| `IpFollow.PlannedFacts` | backend/internal/poller/ip_follow.go:165-195 | a device moves only if its usable sightings name exactly one address and not its current one; at most one move a device, no shared target, no target owned by another |
| `IpFollow.PlannedOrderFree` | backend/internal/poller/ip_follow.go:131-195 | the neighbor order does not matter, the recorded MAC aside |
| `IpFollow.MovesIff` | backend/internal/poller/ip_follow.go:165-195 | a device moves to x if and only if its sightings choose x, no other device owns it, and no earlier device was promised it |
| `IpFollow.SightedIs` | backend/internal/poller/ip_follow.go:130-163 | a device is sighted at an address by a recent neighbor entry with that followable address and a hardware address of this device alone |
| `IpFollow.PlanMoves` | backend/internal/poller/ip_follow.go:116-195 | the plan, the targets reserved, and for each move a MAC that was sighted |
| `IpFollow.CommitKeepsDistinct` | backend/internal/poller/ip_follow.go:188-195 | committing any of the moves in any order keeps the managed addresses distinct |
| `IpFollow.AllCommitted` | backend/internal/poller/ip_follow.go:188-195 | committed one by one, every move of a plan takes effect |
| `PortMonitor.Reprocessing` | backend/internal/poller/port_monitor.go:181-297 | processing one snapshot again at its read time emits nothing and changes neither state nor row |
| `PortMonitor.CountIsFull` | backend/internal/poller/port_monitor.go:117-131 | with times that never go back the pruned count is the count over the full history |
| `PortMonitor.FlapBacked` | backend/internal/poller/port_monitor.go:253-274 | every flap event is backed by the threshold of link-downs booked in the trailing window of the full history |
| `PortMonitor.FiresWhen` | backend/internal/poller/port_monitor.go:253-274 | a flap event comes if and only if a reading other than the device's first books a flap, the trailing window of the full history reaches the threshold, and no earlier event still stands: since it the window never fell below the threshold and is not over |
| `PortMonitor.CountBeforeIs` | backend/internal/poller/port_monitor.go:250-256 | the flaps a reading meets in the window, by which an event stands or not, are those of the full history |
| `PortMonitor.ObservedIs` | backend/internal/poller/port_monitor.go:133-157 | the flaps of a reading: what the counters rose, or a link gone down without counters, or none after a gap or a reset |
| `PortMonitor.TransitionsAre` | backend/internal/poller/port_monitor.go:208-251 | each other event if and only if its change happened, and none on first sight |
| `PortMonitor.CounterBooked` | backend/internal/poller/port_monitor.go:133-157 | with steady readings the booked flaps are the device's own link-down count: none lost between reads |
| `PortMonitor.FlapsSpaced` | backend/internal/poller/port_monitor.go:257-274 | successive flap events are more than a window apart unless the count fell below the threshold between |
| `PortMonitor.PortState.ObservedFlaps` | backend/internal/poller/port_monitor.go:133-157 | the link-downs since the previous reading, with the baseline moved |
| `PortMonitor.PortState.Book` | backend/internal/poller/port_monitor.go:253-274 | the alarm after a reading, and whether it fires |
| `PortMonitor.PortState.Process` | backend/internal/poller/port_monitor.go:190-297 | state, events and row after a reading |
| `PortMonitor.Monitor.ProcessInterface` | backend/internal/poller/port_monitor.go:190-297 | a reading moves the state of its own interface and of no other |
| `TierClock.NextRun` | backend/internal/devclass/cadence.go:195-211 | within a tenth of the interval of one interval after the end |
| `TierClock.NextRunMoves` | backend/internal/devclass/cadence.go:195-211 | the phase moves the next run over 2001 places a ten-thousandth of the interval apart, around the interval |
| `TierClock.NextIs` | backend/internal/poller/schedule.go:137-147 | a retry comes when it was asked for, a tier that never ran at once, any other within a tenth of its interval |
| `TierClock.Clock.Due` | backend/internal/poller/schedule.go:149-163 | due if and only if not paused and the next run has come; the next run is published |
| `TierClock.Clock.Turn` | backend/internal/poller/schedule.go:138-188 | through any failed starts and pauses each run starts at least interval − interval/10 after the previous run's end |
| `TierClock.DueInTime` | backend/internal/poller/schedule.go:137-147 | a tier not run for the interval and a tenth is due unless a retry was asked for |
| `TierClock.LogReadAgain` | backend/internal/poller/logreader.go:81-90 | runs so spaced never come before the log read window has passed |
| `ClassGate.Gate.Judge` | backend/internal/poller/classprobe.go:49-83 | applied if and only if never classified, or the same other class has been pending for a day; confirmed if and only if it agrees |
| `ClassGate.Gate.Take` | backend/internal/poller/classprobe.go:102-138 | a known class changes only after a day in which every informative probe agreed, whatever stores fail |
| `Sankey.NodesDistinct` | backend/internal/flowview/sankey.go:236-319 | no two nodes have the same id |
| `Sankey.PointBalance` | backend/internal/flowview/sankey.go:262-295 | what flows into the point is one side's groups and rest, what flows out the other's |
| `Sankey.GraphIs` | backend/internal/flowview/sankey.go:258-317 | each shown group has a node of its kind and an edge with its bytes on its side of the point, and what is not shown one each |
| `Sankey.PortBalance` | backend/internal/flowview/sankey.go:296-308 | a shown port receives the bytes of its shown hosts |
| `Sankey.Rate` | backend/internal/flowview/sankey.go:186-188 | the average bit rate to the nearest unit, and never below 1 |
| `Sankey.UploadReverses` | backend/internal/flowview/sankey.go:310-329 | the upload graph has the download graph's nodes and its links reversed |
| `SankeyBuild.Gather` | backend/internal/flowview/sankey.go:149-182 | each side's groups hold exactly the positive bytes of their key, and with the folded rows everything |
| `SankeyBuild.TopGroups` | backend/internal/flowview/sankey.go:100-122 | the n largest and exactly the bytes of the others |
| `SankeyBuild.PartsUnique` | backend/internal/flowview/sankey.go:133-235 | the rows and options decide what is shown |
| `SankeyBuild.PartsAre` | backend/internal/flowview/sankey.go:133-235 | each side holds every positive byte, and names are distinct |
| `SankeyBuild.PartsShow` | backend/internal/flowview/sankey.go:133-193 | the remote ends, applications or local ends with the most bytes are shown, largest first and ties by name, each with all bytes of its rows, 12 and 15 of them by default |
| `SankeyBuild.PortsShow` | backend/internal/flowview/sankey.go:195-230 | the ports with the most bytes of the hosts shown, largest first and ties by name |
| `SankeyBuild.SankeyBalances` | backend/internal/flowview/sankey.go:124-132 | remote bytes in and local bytes out are both the total positive bytes |
| `SankeyBuild.LinksOf` | backend/internal/flowview/sankey.go:320-329 | one link per edge, Source < Target < number of nodes in both directions |
| `SankeyBuild.BuildSankey` | backend/internal/flowview/sankey.go:133-331 | empty without time or bytes; otherwise distinct ids, forward links and a balanced point |
| `SankeyBuild.BothWays` | backend/internal/flowview/sankey.go:133-331 | building the same rows for upload gives the same nodes with every link of download reversed |

## Left out

- Sockets, decoders, goroutine wiring, SQL, logging, WebSocket publishing, HTTP handlers, settings and the frontend.
- The rest of flow normalisation: the self-export drop, the NAT inside view, the service-port choice and the interface hints; a record enters as normalised.
- Exporter deletion, an exporter's change of address and writer drops, which discard state on purpose; conservation is stated up to the hand-over to the writer.
- FlowWorker.Collector.ProcessDatagram: accepting a candidate exporter on its first datagram and the live counters are left out; a new exporter is an event of its own.
- FlowWorker.Collector.FlushMinute: the interface rows, new observation points and rollup hour that accompany a batch are left out.
- The per-exporter rate ring, live counters and status rebuilding.
- PortSpread.RoundDiv: exact rationals stand for the float64 shares, because rounding of floats is not the point.
- PortStats.Collector.Ingest: bit and packet rates and their per-minute maxima are not modelled, because they are display values.
- PortStats.Collector.Flush: the hourly rollup and the write to the database are not modelled.
- Coverage.PortCoverage: the counter side (series sums and ratios) and the capability test before it are not modelled.
- LogReader.Device.EntriesFor: the cursor that decides which entries of a device's log are new is a parameter; forgetting and pruning devices are left out.
- FlowCache.Cache.Finish: a panicking query is a failed result; the limit of two heavy queries at once is left out.
- DupFilter.Filter.Seen: hashes are keys; collisions of the hash function are not modelled.
- AddressPlan.NewPlan: addresses are canonical, so the unmapping of IPv4-mapped addresses (section 2.5.5.2 of RFC 4291) is left out, as is parsing of prefix lists.
- PlanBuild.BuildPlan: reading the devices and carrying over the rows of paused ones are left out; a gateway that does not parse is no address.
- IpFollow.PlanMoves: building the MAC index, the verifying dial and the audit rows are left out; normalisation, recency and followability are parameters.
- PortMonitor.Monitor.ProcessInterface: the interface filter, the texts of events and restoring from the database are left out; the loop-status test is a parameter.
- TierClock.Clock.Turn: the hash that gives a device its phase is a parameter.
- ClassGate.Gate.Take: deriving a class from resource facts is left out; the classes are opaque.
- SankeyBuild.BuildSankey: display names, endpoint classes and labels are left out; endpoints and applications are their texts.
- Sankey.Rate: exact rationals stand for the float64 rate.
- Token buckets, the sliding-window limiter, the unknown-sender ring, capability probing and the board and cadence tables, which would add only easy members.
