/** The flow collector's worker: datagrams, flush ticks and shutdown over all exporters
    (backend/internal/flow/worker.go:412-666, backend/internal/flow/collector.go:203). */
module FlowWorker {
  import opened Arith
  import opened TopN
  import opened FlowAggregate
  import opened FlowFlush
  import opened FlowAggregator
  import opened FlowBalance
  import opened FlowLedger
  import opened FlowCrowd
  import opened FlowPairs

  class Collector {
    var exps: map<int, Aggregator>
    var nextFlush: int
    var topN: nat
    var maxRows: nat
    var batches: seq<Batch>        // what the writer was handed, in order
    ghost var ledger: seq<Booking> // every record accepted since the start

    ghost function Open(): View
      reads this`exps, exps.Values
    {
      map id | id in exps :: exps[id].minutes
    }

    ghost predicate Valid()
      reads this, exps.Values
    {
      && Separate()
      && nextFlush % 60 == 0
      && Sound(Open())
      && AllBalanced(ledger, Open(), batches)
    }

    constructor (now: Instant, topN: nat, maxRows: nat)
      ensures Valid() && exps == map[] && batches == [] && ledger == []
      ensures nextFlush == FloorMinute(Unix(now)) - (MAX_OPEN_MINUTES - 1) * 60
      ensures this.topN == topN && this.maxRows == maxRows
    {
      hide AllBalanced, Sound, FloorMinute;
      StartAligned(Unix(now));
      exps := map[];
      nextFlush := FloorMinute(Unix(now)) - (MAX_OPEN_MINUTES - 1) * 60;
      this.topN, this.maxRows := topN, maxRows;
      batches, ledger := [], [];
      new;
      NothingYet();
      NothingSound();
      assert Open() == map[];
    }

    ghost predicate Separate()
      reads this`exps
    {
      forall i, j :: i in exps && j in exps && i != j ==> exps[i] != exps[j]
    }

    /** Takes minute m from one exporter. */
    method TakeMinute(id: int, m: int, n: nat, r: nat) returns (rows: seq<Row>, meta: Meta)
      requires id in exps && Separate()
      modifies exps[id]
      ensures Open() == old(Open())[id := old(Open())[id] - {m}]
      ensures m in old(Open())[id] ==> IsFlushResult(old(Open())[id][m], n, r, rows, meta)
      ensures m !in old(Open())[id] ==> rows == [] && meta == NoMeta
    {
      hide IsFlushResult;
      rows, meta := exps[id].FlushMinute(m, n, r);
      forall j | j in exps && j != id
        ensures exps[j].minutes == old(exps[j].minutes)
      {
      }
    }

    /** Takes minute m from the next exporter and adds what it wrote to the items. */
    method TakeNext(m: int, n: nat, r: nat, id: int, items: seq<Item>, ghost v: View, ghost done: set<int>)
      returns (items': seq<Item>)
      requires Separate() && id in exps && v.Keys == exps.Keys && id !in done && (forall x :: x in done ==> x < id)
      requires Open() == Partly(v, done, m)
      requires ItemsOf(items, v, done, m, n, r) && AllBalanced(ledger, Open(), batches + [Batch(m, items)])
      modifies exps[id]
      ensures Open() == Partly(v, done + {id}, m)
      ensures ItemsOf(items', v, done + {id}, m, n, r) && AllBalanced(ledger, Open(), batches + [Batch(m, items')])
    {
      hide ItemsOf, IsFlushResult, AllBalanced, Partly, Separate;
      ghost var before := Open();
      PartlyStep(v, done, m, id);
      var rows, meta := TakeMinute(id, m, n, r);
      ItemsStep(items, v, done, m, n, r, id, rows, meta);
      BalancedFlush(ledger, before, batches, items, id, m, n, r, rows, meta);
      if meta == NoMeta && |rows| == 0 {
        items' := items;
      } else {
        items' := items + [Item(id, rows, meta)];
      }
    }

    /** Takes minute m from every exporter, in the order of their ids. */
    method TakeAll(m: int, n: nat, r: nat) returns (items: seq<Item>)
      requires Separate() && AllBalanced(ledger, Open(), batches)
      modifies exps.Values
      ensures Open() == Without(old(Open()), m)
      ensures ItemsOf(items, old(Open()), old(Open()).Keys, m, n, r)
      ensures AllBalanced(ledger, Open(), batches + [Batch(m, items)])
    {
      hide ItemsOf, AllBalanced, Partly, Without, Separate, FirstIds, Rising;
      ghost var v := Open();
      var ids := SortedIds(exps.Keys);
      ListLength(ids, exps.Keys);
      FirstIdsEnds(ids, v.Keys);
      items := [];
      PartlyEnds(v, m);
      NoItems(v, m, n, r);
      NoItemsYet(ledger, v, batches, m);
      for i := 0 to |ids|
        invariant Open() == Partly(v, FirstIds(ids, i), m)
        invariant ItemsOf(items, v, FirstIds(ids, i), m, n, r)
        invariant AllBalanced(ledger, Open(), batches + [Batch(m, items)])
      {
        assert ids[i] in ids;
        FirstIdsStep(ids, i);
        items := TakeNext(m, n, r, ids[i], items, v, FirstIds(ids, i));
      }
    }

    /** Flushes minute m of every exporter into one batch for the writer. */
    method FlushMinute(m: int)
      requires Valid()
      modifies this`batches, exps.Values
      ensures Valid()
      ensures Open() == Without(old(Open()), m)
      ensures |batches| == |old(batches)| + 1 && batches[..|old(batches)|] == old(batches)
      ensures batches[|old(batches)|].minute == m
      ensures BatchOf(batches[|old(batches)|], old(Open()), Max(topN, 1), Max(maxRows, 1))
    {
      hide ItemsOf, AllBalanced, Sound;
      ghost var v := Open();
      var items := TakeAll(m, Max(topN, 1), Max(maxRows, 1));
      WithoutSound(v, m);
      batches := batches + [Batch(m, items)];
    }

    /** The oldest open minute of all exporters, or bound when none is older. */
    method OldestOr(bound: int) returns (o: int)
      ensures o <= bound
      ensures o == bound || exists id :: id in exps && o in exps[id].minutes
      ensures forall id, m :: id in exps && m in exps[id].minutes ==> o <= m
    {
      o := bound;
      var ids := Enumerate(exps.Keys);
      ListLength(ids, exps.Keys);
      for i := 0 to |ids|
        invariant o <= bound
        invariant o == bound || exists id :: id in exps && o in exps[id].minutes
        invariant forall j :: 0 <= j < i ==> forall m :: m in exps[ids[j]].minutes ==> o <= m
      {
        assert ids[i] in ids;
        var id := ids[i];
        var best, ok := exps[id].Oldest();
        if ok && best < o {
          o := best;
          assert id in exps && o in exps[id].minutes;
        }
      }
    }

    /** Flushes minute m, the next of a range that started at a. */
    method FlushNext(ghost a: int, m: int, ghost v: View, ghost before: seq<Batch>)
      requires Valid() && a <= m && m % 60 == 0 && Sound(v)
      requires Open() == Outside(v, a, m) && before <= batches
      requires BatchesOf(batches[|before|..], v, a, m, Max(topN, 1), Max(maxRows, 1))
      modifies this`batches, exps.Values
      ensures Valid() && Open() == Outside(v, a, m + 60) && before <= batches
      ensures BatchesOf(batches[|before|..], v, a, m + 60, Max(topN, 1), Max(maxRows, 1))
    {
      hide BatchOf, BatchesOf, Sound, Separate, AllBalanced, Outside, Without;
      ghost var s := batches[|before|..];
      FlushMinute(m);
      ghost var b := batches[|batches| - 1];
      assert batches[|before|..] == s + [b];
      SoundAligned(v);
      OutsideNext(v, a, m);
      BatchOfOutside(b, v, a, Max(topN, 1), Max(maxRows, 1));
      BatchesStep(s, b, v, a, Max(topN, 1), Max(maxRows, 1));
    }

    /** After a long stall, jumps ahead to the oldest minute with data. */
    method CatchUp(nowU: int)
      requires Valid()
      modifies this`nextFlush
      ensures nextFlush % 60 == 0
      ensures old(nextFlush) <= nextFlush <= Max(old(nextFlush), FloorMinute(nowU) - FLUSH_DELAY)
      ensures forall id, x :: id in Open() && x in Open()[id] ==> !(old(nextFlush) <= x < nextFlush)
      // only a stall of more than a quarter of an hour, and then as far as there is nothing to flush
      ensures nowU <= old(nextFlush) + 900 ==> nextFlush == old(nextFlush)
      ensures old(nextFlush) + 900 < nowU ==>
        || nextFlush == Max(old(nextFlush), FloorMinute(nowU) - 180)
        || exists x :: x <= nextFlush && SomeOpen(Open(), x)
    {
      hide Separate, AllBalanced, Sound;
      if nowU - nextFlush > CATCH_UP_LIMIT {
        var target := OldestOr(FloorMinute(nowU) - FLUSH_DELAY);
        assert forall id :: id in exps ==> Open()[id] == exps[id].minutes;
        MinuteOrBound(Open(), target, FloorMinute(nowU) - FLUSH_DELAY);
        nextFlush := Max(nextFlush, target);
        if target != FloorMinute(nowU) - FLUSH_DELAY {
          ghost var id :| id in exps && target in exps[id].minutes;
          assert target in Open()[id] && SomeOpen(Open(), target);
        }
      }
    }

    /** The flush loop. */
    method FlushUntil(nowU: int, ghost start: int, ghost v: View)
      requires Valid() && Sound(v) && Open() == Outside(v, start, nextFlush)
      requires start <= nextFlush <= Max(start, FloorMinute(nowU) - (MAX_OPEN_MINUTES - 1) * 60)
      requires BatchesOf([], v, start, nextFlush, Max(topN, 1), Max(maxRows, 1))
      modifies this`batches, this`nextFlush, exps.Values
      ensures Valid() && old(batches) <= batches
      ensures nextFlush == Max(start, FloorMinute(nowU) - (MAX_OPEN_MINUTES - 1) * 60)
      ensures Open() == Outside(v, start, nextFlush)
      ensures BatchesOf(batches[|old(batches)|..], v, start, nextFlush, Max(topN, 1), Max(maxRows, 1))
    {
      hide BatchOf, BatchesOf, Sound, Separate, AllBalanced, Outside;
      assert batches[|old(batches)|..] == [];
      while nextFlush + FLUSH_DELAY <= nowU
        invariant Valid() && start <= nextFlush <= Max(start, FloorMinute(nowU) - (MAX_OPEN_MINUTES - 1) * 60)
        invariant Open() == Outside(v, start, nextFlush) && old(batches) <= batches
        invariant BatchesOf(batches[|old(batches)|..], v, start, nextFlush, Max(topN, 1), Max(maxRows, 1))
      {
        FlushNext(start, nextFlush, v, old(batches));
        Later(nextFlush, nowU);
        nextFlush := nextFlush + 60;
      }
      FlushEnd(start, nextFlush, nowU);
    }

    /** Flushes every minute M with now >= M + 180 s, oldest first. */
    method FlushDue(now: Instant)
      requires Valid()
      modifies this`batches, this`nextFlush, exps.Values
      ensures Valid()
      ensures nextFlush == NextFlush(old(nextFlush), now)
      ensures Open() == AfterFlush(old(Open()), old(nextFlush), now)
      ensures old(batches) <= batches
      ensures BatchesOf(batches[|old(batches)|..], old(Open()), StartFlush(old(nextFlush), now), nextFlush,
                        Max(topN, 1), Max(maxRows, 1))
    {
      hide BatchOf, BatchesOf, Sound, Separate, AllBalanced, Outside;
      ghost var v := Open();
      if nextFlush == 0 {
        nextFlush := FloorMinute(Unix(now)) - (MAX_OPEN_MINUTES - 1) * 60;
      }
      ghost var start := nextFlush;
      CatchUp(Unix(now));
      assert Open() == v;
      OutsideNothing(v, start, nextFlush);
      NoBatches(v, start, nextFlush, Max(topN, 1), Max(maxRows, 1));
      FlushUntil(Unix(now), start, v);
    }

    /** Flushes every open minute (shutdown). */
    method FlushAll(now: Instant)
      requires Valid()
      modifies this`batches, exps.Values
      ensures Valid() && old(batches) <= batches
      ensures forall id :: id in Open() ==> Open()[id] == map[]
      ensures exists first, end ::
        && (forall id, m :: id in old(Open()) && m in old(Open())[id] ==> first <= m < end)
        && BatchesOf(batches[|old(batches)|..], old(Open()), first, end, Max(topN, 1), Max(maxRows, 1))
      ensures Orderly(old(Open()), old(nextFlush), old(batches)) ==> InTurn(batches)
    {
      hide BatchOf, BatchesOf, Sound, Separate, AllBalanced, Outside, Orderly, InTurn;
      ghost var v := Open();
      var last := NewestOr(FloorMinute(Unix(now)));
      var first := OldestOr(nextFlush);
      SoundAligned(v);
      assert first == nextFlush || exists id :: id in v && first in v[id] by {
        if id :| id in exps && first in exps[id].minutes {
          assert first in v[id];
        }
      }
      var m := first;
      OutsideNothing(v, first, first);
      NoBatches(v, first, first, Max(topN, 1), Max(maxRows, 1));
      assert batches[|old(batches)|..] == [];
      while m <= last
        invariant Valid() && first <= m && m % 60 == 0
        invariant Open() == Outside(v, first, m) && old(batches) <= batches
        invariant BatchesOf(batches[|old(batches)|..], v, first, m, Max(topN, 1), Max(maxRows, 1))
      {
        FlushNext(first, m, v, old(batches));
        m := m + 60;
      }
      assert forall id, x :: id in v && x in v[id] ==> first <= x < m;
      OutsideAll(v, first, m);
      if Orderly(v, nextFlush, old(batches)) {
        OldestInWindow(v, nextFlush, old(batches), first);
        InTurnMore(v, nextFlush, old(batches), batches, first, m, Max(topN, 1), Max(maxRows, 1));
      }
    }

    /** The newest open minute of all exporters, or bound when none is newer. */
    method NewestOr(bound: int) returns (o: int)
      ensures forall id, m :: id in exps && m in exps[id].minutes ==> m <= o
    {
      o := bound;
      var ids := Enumerate(exps.Keys);
      ListLength(ids, exps.Keys);
      for i := 0 to |ids|
        invariant forall j :: 0 <= j < i ==> forall m :: m in exps[ids[j]].minutes ==> m <= o
      {
        assert ids[i] in ids;
        var ms := Enumerate(exps[ids[i]].minutes.Keys);
        ListLength(ms, exps[ids[i]].minutes.Keys);
        for l := 0 to |ms|
          invariant forall j :: 0 <= j < i ==> forall m :: m in exps[ids[j]].minutes ==> m <= o
          invariant forall j :: 0 <= j < l ==> ms[j] <= o
        {
          o := Max(o, ms[l]);
        }
      }
    }

    /** Marks the datagram and books its records. */
    method Receive(id: int, now: Instant, flows: seq<NormFlow>)
      requires id in exps && nextFlush % 60 == 0 && Separate()
      modifies exps[id]
      ensures Open() == old(Open())[id := Received(old(Open())[id], flows, now, nextFlush)]
    {
      hide Marked, Added;
      var a := exps[id];
      a.MarkAlive(now, nextFlush);
      for i := 0 to |flows|
        invariant a.minutes == Received(old(a.minutes), flows[..i], now, nextFlush)
      {
        assert flows[..i + 1][..i] == flows[..i];
        var late := a.Add(flows[i], now, nextFlush);
      }
      assert flows[..|flows|] == flows;
      forall j | j in exps && j != id
        ensures exps[j].minutes == old(exps[j].minutes)
      {
      }
    }

    /** One datagram: the flush check first, then, for a known and enabled exporter, the
        mark and the records. */
    method ProcessDatagram(id: int, enabled: bool, now: Instant, flows: seq<NormFlow>)
      requires Valid()
      modifies this`batches, this`nextFlush, this`ledger, exps.Values
      ensures Valid()
      ensures nextFlush == NextFlush(old(nextFlush), now)
      ensures var v := AfterFlush(old(Open()), old(nextFlush), now);
        Open() == if id in exps && enabled then v[id := Received(v[id], flows, now, nextFlush)] else v
      ensures ledger == old(ledger) + if id in exps && enabled then Bookings(id, flows, now, nextFlush) else []
      ensures old(batches) <= batches
      ensures BatchesOf(batches[|old(batches)|..], old(Open()), StartFlush(old(nextFlush), now), nextFlush,
                        Max(topN, 1), Max(maxRows, 1))
      ensures Orderly(old(Open()), old(nextFlush), old(batches)) ==> Orderly(Open(), nextFlush, batches)
    {
      hide BatchOf, BatchesOf, Sound, Separate, AllBalanced, Outside, Orderly, Received;
      ghost var v0 := Open();
      FlushDue(now);
      if Orderly(v0, old(nextFlush), old(batches)) {
        OrderlyFlush(v0, old(nextFlush), now, old(batches), batches, Max(topN, 1), Max(maxRows, 1));
      }
      if id in exps && enabled {
        ghost var v := Open();
        Receive(id, now, flows);
        BalancedReceive(v, id, flows, now, nextFlush, ledger, batches);
        ReceivedSound(v, id, flows, now, nextFlush, batches);
        ledger := ledger + Bookings(id, flows, now, nextFlush);
      }
    }

    /** A new exporter starts with no open minutes; a known one is left as it is. */
    method AddExporter(id: int)
      requires Valid()
      modifies this`exps
      ensures Valid()
      ensures exps.Keys == old(exps.Keys) + {id}
      ensures forall j :: j in old(Open()) ==> Open()[j] == old(Open())[j]
      ensures id !in old(Open()) ==> Open()[id] == map[]
      ensures forall a :: a in exps.Values ==> a in old(exps.Values) || fresh(a)
    {
      if id !in exps {
        ghost var v := Open();
        var a := new Aggregator();
        exps := exps[id := a];
        assert Open() == v[id := map[]];
        EmptyExporter(v, id);
        BalancedExporter(ledger, v, batches, id);
      }
    }

    /** One event. */
    method Step(e: Event)
      requires Valid()
      modifies this`exps, this`batches, this`nextFlush, this`ledger, exps.Values
      ensures Valid() && old(batches) <= batches
      ensures ledger == old(ledger) + Gained(e, old(exps.Keys), old(nextFlush)) && exps.Keys == IdsAfter(e, old(exps.Keys))
      ensures nextFlush == NextAfter(e, old(nextFlush))
      // once past the epoch the next flush never moves back, whatever the clock does
      ensures 0 < old(nextFlush) ==> old(nextFlush) <= nextFlush
      ensures Orderly(old(Open()), old(nextFlush), old(batches)) ==> Orderly(Open(), nextFlush, batches)
      ensures forall a :: a in exps.Values ==> a in old(exps.Values) || fresh(a)
    {
      hide Sound, Separate, AllBalanced, Orderly, Received, AfterFlush, NextFlush, BatchesOf;
      ghost var v := Open();
      if 0 < nextFlush {
        NeverBack(e, nextFlush);
      }
      match e
      case Datagram(id, enabled, now, flows) =>
        ProcessDatagram(id, enabled, now, flows);
      case Tick(now) =>
        FlushDue(now);
        if Orderly(v, old(nextFlush), old(batches)) {
          OrderlyFlush(v, old(nextFlush), now, old(batches), batches, Max(topN, 1), Max(maxRows, 1));
        }
      case NewExporter(id) =>
        AddExporter(id);
        OrderlyMore(v, Open(), nextFlush, batches);
    }

    /** Any sequence of datagrams, ticks and new exporters, at any times. */
    method Steps(events: seq<Event>)
      requires Valid()
      modifies this`exps, this`batches, this`nextFlush, this`ledger, exps.Values
      ensures Valid() && old(batches) <= batches
      ensures ledger == old(ledger) + Accepted(events, old(exps.Keys), old(nextFlush))
      ensures 0 < old(nextFlush) ==> old(nextFlush) <= nextFlush
      ensures Orderly(old(Open()), old(nextFlush), old(batches)) ==> Orderly(Open(), nextFlush, batches)
      ensures forall a :: a in exps.Values ==> a in old(exps.Values) || fresh(a)
    {
      hide Valid, Orderly, Gained, IdsAfter, NextAfter;
      ghost var orderly := Orderly(Open(), nextFlush, batches);
      assert events[0..] == events;
      for i := 0 to |events|
        invariant Valid() && old(batches) <= batches
        invariant ledger + Accepted(events[i..], exps.Keys, nextFlush) ==
                  old(ledger) + Accepted(events, old(exps.Keys), old(nextFlush))
        invariant 0 < old(nextFlush) ==> old(nextFlush) <= nextFlush
        invariant orderly ==> Orderly(Open(), nextFlush, batches)
        invariant forall a :: a in exps.Values ==> a in old(exps.Values) || fresh(a)
      {
        AcceptedStep(events, i, exps.Keys, nextFlush, ledger);
        Step(events[i]);
      }
    }

    /** A whole life of the collector: any run, then shutdown. Everything the accepted records
        are due to bring to each minute of each exporter has been handed to the writer, and
        nothing stays in memory; each minute was handed over at most once, in order. */
    method Run(events: seq<Event>, end: Instant)
      requires Valid()
      modifies this`exps, this`batches, this`nextFlush, this`ledger, exps.Values
      ensures Valid()
      ensures ledger == old(ledger) + Accepted(events, old(exps.Keys), old(nextFlush))
      ensures forall id :: id in Open() ==> Open()[id] == map[]
      ensures forall k :: Settled(ledger, batches, k)
      ensures Orderly(old(Open()), old(nextFlush), old(batches)) ==> InTurn(batches)
    {
      hide Sound, Separate, BatchesOf, AllBalanced, Settled, Orderly, InTurn;
      Steps(events);
      FlushAll(end);
      NothingOpen(ledger, Open(), batches);
    }
  }

  /** A collector started in the third minute after the epoch, one datagram, and a clock that
      steps back: the next flush goes below zero and leaves a minute with data outside the window. */
  method StepBackAtEpoch(f: NormFlow) returns (c: Collector)
    requires f.end == EARLY
    ensures c.Valid() && c.nextFlush == -120
    ensures 1 in c.Open() && 120 in c.Open()[1] && MinuteTotal(c.Open()[1][120], Flows) == 1
    ensures !InWindow(c.Open(), c.nextFlush)
  {
    hide Received, AfterFlush, MinuteTotal, Orderly, NextFlush, InWindow;
    c := new Collector(EARLY, 1, 1);
    EpochStart(c.Open());
    c.AddExporter(1);
    EpochStart(c.Open());
    ghost var a := c.Open()[1];
    c.ProcessDatagram(1, true, EARLY, [f]);
    EpochMinute(a, f);
    EpochMovesBack(c.Open(), 1);
    c.FlushDue(0);
  }

  /** A collector that has received records of 20,001 interface pairs in a minute, one by one. */
  method CrowdedOpen(now: Instant, topN: nat, maxRows: nat) returns (c: Collector)
    requires 0 < topN < MAX_KEYS_PER_MINUTE && 0 < maxRows
    ensures c.Valid() && fresh(c) && fresh(c.exps.Values) && c.topN == topN && c.maxRows == maxRows && c.batches == []
    ensures c.ledger == CrowdLedger(1, now, MAX_KEYS_PER_MINUTE + topN + 1)
    ensures 1 in c.Open() && Minute0(now) in c.Open()[1] && Crowded(c.Open()[1], now, MAX_KEYS_PER_MINUTE + topN + 1)
  {
    hide Received, AfterFlush, Orderly, NextFlush, BatchesOf, FloorMinute, CrowdLedger, Bookings, AllBalanced, Sound, Crowded;
    c := new Collector(now, topN, maxRows);
    c.AddExporter(1);
    var n := MAX_KEYS_PER_MINUTE + topN + 1;
    NobodyYet(now);
    for i := 0 to n
      invariant c.Valid() && fresh(c) && fresh(c.exps.Values) && c.topN == topN && c.maxRows == maxRows
      invariant c.batches == [] && c.nextFlush == Next0(now) && c.ledger == CrowdLedger(1, now, i)
      invariant 1 in c.Open() && (i > 0 ==> Minute0(now) in c.Open()[1]) && Crowded(c.Open()[1], now, i)
    {
      ghost var v := c.Open();
      CrowdCheck(v, now);
      CrowdReceived(v[1], now, i);
      LedgerNext(1, now, i + 1);
      c.ProcessDatagram(1, true, now, [Nth(now, i)]);
      assert c.batches[0..] == c.batches;
      EmptyRange(c.batches, v, Next0(now), topN, maxRows);
    }
  }

  /** Records of 20,001 interface pairs in a minute, then shutdown: whatever the caps, the pair of
      the conversations is due a byte for each of them and is handed those that were kept; the
      catch-all pair is handed the others. */
  method CrowdedMinute(now: Instant, topN: nat, maxRows: nat) returns (c: Collector)
    requires 0 < topN < MAX_KEYS_PER_MINUTE && 0 < maxRows
    ensures c.Valid()
    ensures |PairsBooked(c.ledger, 1, FloorMinute(Unix(now)))| == MAX_KEYS_PER_MINUTE + 1
    ensures var m, q := FloorMinute(Unix(now)), Talked();
      && PairDue(c.ledger, 1, m, q, Bytes) == topN + 1
      && PairHanded(c.batches, 1, m, q, Bytes) == Least(maxRows, topN)
      && PairHanded(c.batches, 1, m, CatchAll(), Bytes) == topN + 1 - Least(maxRows, topN)
  {
    hide BatchesOf, FloorMinute, CrowdLedger, AllBalanced, Sound, Orderly, InTurn, PairsBooked, PairHanded, Crowded,
      PairDue, Least;
    c := CrowdedOpen(now, topN, maxRows);
    ghost var v := c.Open();
    CrowdLedgerIs(1, now, topN);
    c.FlushAll(now);
    assert c.batches[0..] == c.batches;
    CrowdHanded(c.batches, v, 1, now, topN, maxRows);
  }
}
