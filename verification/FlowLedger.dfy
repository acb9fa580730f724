/** What the flow collector's worker keeps: the open minutes of all exporters, the batches
    handed to the writer, the next flush, and what datagrams and ticks do to them
    (backend/internal/flow/worker.go:412-666). */
module FlowLedger {
  import opened Arith
  import opened Sorting
  import opened TopN
  import opened FlowAggregate
  import opened FlowSplit
  import opened FlowFlush
  import opened FlowAggregator
  import opened FlowBalance

  const FLUSH_DELAY := 180
  const CATCH_UP_LIMIT := 15 * 60

  // ---------- what a batch holds ----------

  /** The items of minute m of view v for the exporters of done: one per exporter,
      ascending, that had something to write. */
  ghost predicate ItemsOf(items: seq<Item>, v: View, done: set<int>, m: int, topN: nat, maxRows: nat) {
    && (forall i :: 0 <= i < |items| ==>
          && items[i].id in done && items[i].id in v && m in v[items[i].id]
          && IsFlushResult(v[items[i].id][m], topN, maxRows, items[i].rows, items[i].meta))
    && (forall i, j :: 0 <= i < j < |items| ==> items[i].id < items[j].id)
    && (forall id :: id in done && id in v && m in v[id] ==>
          || (exists i :: 0 <= i < |items| && items[i].id == id)
          || IsFlushResult(v[id][m], topN, maxRows, [], NoMeta))
  }

  ghost predicate BatchOf(b: Batch, v: View, topN: nat, maxRows: nat) {
    ItemsOf(b.items, v, v.Keys, b.minute, topN, maxRows)
  }

  lemma ItemsStep(items: seq<Item>, v: View, done: set<int>, m: int, topN: nat, maxRows: nat,
                  id: int, rows: seq<Row>, meta: Meta)
    requires ItemsOf(items, v, done, m, topN, maxRows) && id in v && forall x :: x in done ==> x < id
    requires m in v[id] ==> IsFlushResult(v[id][m], topN, maxRows, rows, meta)
    requires m !in v[id] ==> rows == [] && meta == NoMeta
    ensures ItemsOf(NextItems(items, id, rows, meta), v, done + {id}, m, topN, maxRows)
  {
    hide IsFlushResult;
    var items' := NextItems(items, id, rows, meta);
    forall x | x in done + {id} && x in v && m in v[x]
      ensures (exists i :: 0 <= i < |items'| && items'[i].id == x) || IsFlushResult(v[x][m], topN, maxRows, [], NoMeta)
    {
      if x == id {
        if items' != items {
          assert items'[|items|].id == x;
        }
      } else if i :| 0 <= i < |items| && items[i].id == x {
        assert items'[i].id == x;
      }
    }
  }

  const Ascending := (a: int, b: int) => a <= b

  lemma AscendingOrders()
    ensures TotalPreorder(Ascending)
  {
  }

  ghost predicate Rising(ids: seq<int>) { forall i, j :: 0 <= i < j < |ids| ==> ids[i] < ids[j] }

  method SortedIds(S: set<int>) returns (ids: seq<int>)
    ensures Lists(ids, S) && Rising(ids)
  {
    ids := Enumerate(S);
    ghost var list := ids;
    ids := SortBy(ids, Ascending);
    SortPermutes(list, Ascending);
    AscendingOrders();
    SortSorts(list, Ascending);
    StrictlySorted(ids, S);
  }

  lemma StrictlySorted(ids: seq<int>, S: set<int>)
    requires Lists(ids, S) && SortedBy(ids, Ascending)
    ensures Rising(ids)
  {
    ListDistinct(ids, S);
  }

  // ---------- the worker ----------

  /** Every open minute is one of the three from the next flush on. */
  ghost predicate InWindow(v: View, nextFlush: int) {
    forall id, m :: id in v && m in v[id] ==> nextFlush <= m <= nextFlush + 120
  }

  ghost predicate SomeOpen(v: View, m: int) { exists id :: id in v && m in v[id] }

  /** The view without the minutes of [a, b). */
  ghost function Outside(v: View, a: int, b: int): View {
    map id | id in v :: map x | x in v[id] && !(a <= x < b) :: v[id][x]
  }

  ghost function Without(v: View, m: int): View { map id | id in v :: v[id] - {m} }

  /** The view once the exporters of done have given up minute m. */
  ghost function Partly(v: View, done: set<int>, m: int): View {
    map id | id in v :: if id in done then v[id] - {m} else v[id]
  }

  lemma PartlyStep(v: View, done: set<int>, m: int, id: int)
    requires id in v && id !in done
    ensures Partly(v, done, m)[id] == v[id]
    ensures Partly(v, done + {id}, m) == Partly(v, done, m)[id := v[id] - {m}]
  {
  }

  lemma OutsideNext(v: View, a: int, m: int)
    requires a <= m && m % 60 == 0 && forall id, x :: id in v && x in v[id] ==> x % 60 == 0
    ensures Without(Outside(v, a, m), m) == Outside(v, a, m + 60)
  {
    var w, w' := Without(Outside(v, a, m), m), Outside(v, a, m + 60);
    forall id | id in v
      ensures w[id] == w'[id]
    {
      forall x | x in v[id] && m < x
        ensures m + 60 <= x
      {
        Apart(m, x);
      }
    }
  }

  lemma OutsideAll(v: View, a: int, b: int)
    requires forall id, x :: id in v && x in v[id] ==> a <= x < b
    ensures forall id :: id in v ==> Outside(v, a, b)[id] == map[]
  {
  }

  lemma OutsideNothing(v: View, a: int, b: int)
    requires forall id, x :: id in v && x in v[id] ==> !(a <= x < b)
    ensures Outside(v, a, b) == v
  {
    var w := Outside(v, a, b);
    forall id | id in v
      ensures w[id] == v[id]
    {
    }
  }

  lemma Apart(a: int, b: int)
    requires a % 60 == 0 && b % 60 == 0 && a < b
    ensures a + 60 <= b
  {
  }

  lemma PartlyEnds(v: View, m: int)
    ensures Partly(v, {}, m) == v && Partly(v, v.Keys, m) == Without(v, m)
  {
  }

  lemma StartAligned(u: int)
    ensures (FloorMinute(u) - (MAX_OPEN_MINUTES - 1) * 60) % 60 == 0
  {
  }

  lemma NothingSound()
    ensures Sound(map[])
  {
  }

  /** An oldest open minute is a minute, as its bound is. */
  lemma MinuteOrBound(v: View, x: int, bound: int)
    requires Sound(v) && bound % 60 == 0 && (x == bound || exists id :: id in v && x in v[id])
    ensures x % 60 == 0
  {
  }

  /** The first i exporters. */
  ghost function FirstIds(ids: seq<int>, i: nat): set<int>
    requires i <= |ids|
  {
    set x | x in ids[..i]
  }

  lemma FirstIdsStep(ids: seq<int>, i: nat)
    requires Rising(ids) && i < |ids|
    ensures FirstIds(ids, i + 1) == FirstIds(ids, i) + {ids[i]}
    ensures ids[i] !in FirstIds(ids, i) && forall x :: x in FirstIds(ids, i) ==> x < ids[i]
  {
    assert ids[..i + 1] == ids[..i] + [ids[i]];
    forall x | x in FirstIds(ids, i)
      ensures x < ids[i]
    {
      var j :| 0 <= j < i && ids[..i][j] == x;
      assert ids[j] == x;
    }
  }

  lemma FirstIdsEnds(ids: seq<int>, S: set<int>)
    requires Lists(ids, S)
    ensures FirstIds(ids, 0) == {} && FirstIds(ids, |ids|) == S
  {
    ListLength(ids, S);
    assert ids[..|ids|] == ids;
  }

  lemma NoItems(v: View, m: int, n: nat, r: nat)
    ensures ItemsOf([], v, {}, m, n, r)
  {
  }

  lemma SoundAligned(v: View)
    requires Sound(v)
    ensures forall id, m :: id in v && m in v[id] ==> m % 60 == 0
  {
  }

  /** Taking a minute away leaves the others as they were. */
  lemma WithoutSound(v: View, m: int)
    requires Sound(v)
    ensures Sound(Without(v, m))
  {
  }

  /** Open minutes start on the minute and their own totals are right. */
  ghost predicate Sound(v: View) {
    && (forall id, m :: id in v && m in v[id] ==> m % 60 == 0)
    && (forall id :: id in v ==> AllMetaAgree(v[id]))
  }

  // ---------- flushing a range of minutes ----------

  /** Batches of the minutes of [a, b), ascending, none with open data left out. */
  ghost predicate BatchesOf(s: seq<Batch>, v: View, a: int, b: int, n: nat, r: nat) {
    && (forall i :: 0 <= i < |s| ==> a <= s[i].minute < b && BatchOf(s[i], v, n, r))
    && (forall i, j :: 0 <= i < j < |s| ==> s[i].minute < s[j].minute)
    && (forall id, m :: id in v && m in v[id] && a <= m < b ==> exists i :: 0 <= i < |s| && s[i].minute == m)
  }

  lemma NoBatches(v: View, a: int, b: int, n: nat, r: nat)
    requires forall id, x :: id in v && x in v[id] ==> !(a <= x < b)
    ensures BatchesOf([], v, a, b, n, r)
  {
  }

  lemma BatchOfOutside(b: Batch, v: View, a: int, n: nat, r: nat)
    requires BatchOf(b, Outside(v, a, b.minute), n, r)
    ensures BatchOf(b, v, n, r)
  {
    hide IsFlushResult;
    var w := Outside(v, a, b.minute);
    assert w.Keys == v.Keys;
    assert forall id :: id in v ==> (b.minute in w[id] <==> b.minute in v[id]);
  }

  lemma BatchesStep(s: seq<Batch>, b: Batch, v: View, a: int, n: nat, r: nat)
    requires BatchesOf(s, v, a, b.minute, n, r) && BatchOf(b, v, n, r) && a <= b.minute && b.minute % 60 == 0
    requires forall id, x :: id in v && x in v[id] ==> x % 60 == 0
    ensures BatchesOf(s + [b], v, a, b.minute + 60, n, r)
  {
    hide BatchOf;
    var t := s + [b];
    forall id, m | id in v && m in v[id] && a <= m < b.minute + 60
      ensures exists i :: 0 <= i < |t| && t[i].minute == m
    {
      if m < b.minute {
        var i :| 0 <= i < |s| && s[i].minute == m;
        assert t[i].minute == m;
      } else {
        assert m == b.minute by {
          if b.minute < m {
            Apart(b.minute, m);
          }
        }
        assert t[|s|].minute == m;
      }
    }
  }

  // ---------- the next flush ----------

  /** Where a flush check at now starts: 0 means not set yet. */
  function StartFlush(nextFlush: int, now: Instant): int {
    if nextFlush == 0 then FloorMinute(Unix(now)) - (MAX_OPEN_MINUTES - 1) * 60 else nextFlush
  }

  /** The oldest unflushed minute after a flush check at now. */
  function NextFlush(nextFlush: int, now: Instant): int {
    Max(StartFlush(nextFlush, now), FloorMinute(Unix(now)) - (MAX_OPEN_MINUTES - 1) * 60)
  }

  /** A flush check flushes exactly the minutes that ended two minutes ago or earlier. */
  lemma FlushedWhen(nextFlush: int, now: Instant, m: int)
    requires nextFlush != 0 && nextFlush % 60 == 0 && m % 60 == 0 && nextFlush <= m
    ensures StartFlush(nextFlush, now) == nextFlush
    ensures m < NextFlush(nextFlush, now) <==> m + 180 <= now / 1_000_000_000
  {
    var u := Unix(now);
    var start := FloorMinute(u);
    if m + 180 <= u && start < m + 180 {
      Apart(start, m + 180);
    }
    if m < start - 120 {
      Apart(m, start - 120);
    }
  }

  /** One turn of the flush loop. */
  lemma Later(m: int, nowU: int)
    requires m % 60 == 0 && m + FLUSH_DELAY <= nowU
    ensures (m + 60) % 60 == 0 && m + 60 <= FloorMinute(nowU) - (MAX_OPEN_MINUTES - 1) * 60
  {
  }

  lemma FlushEnd(start: int, m: int, nowU: int)
    requires m % 60 == 0 && start <= m <= Max(start, FloorMinute(nowU) - (MAX_OPEN_MINUTES - 1) * 60)
    requires nowU < m + FLUSH_DELAY
    ensures m == Max(start, FloorMinute(nowU) - (MAX_OPEN_MINUTES - 1) * 60)
  {
  }

  /** The view after a flush check at now. */
  ghost function AfterFlush(v: View, nextFlush: int, now: Instant): View {
    Outside(v, StartFlush(nextFlush, now), NextFlush(nextFlush, now))
  }

  /** A flush check keeps every open minute in the window. */
  lemma FlushKeepsWindow(v: View, nextFlush: int, now: Instant)
    requires InWindow(v, nextFlush) && nextFlush != 0
    ensures InWindow(AfterFlush(v, nextFlush, now), NextFlush(nextFlush, now))
    ensures nextFlush <= NextFlush(nextFlush, now)
  {
    hide FloorMinute;
  }

  /** The next flush never moves back, whatever the clock does, unless it stands at 0 (which
      is read as not set) and the clock is within two minutes of the epoch or before it. */
  lemma NextFlushMonotone(nextFlush: int, now: Instant)
    ensures nextFlush <= NextFlush(nextFlush, now) <==> !(nextFlush == 0 && FloorMinute(Unix(now)) < 120)
  {
  }

  /** A flush check keeps the open minutes in the window exactly when the next flush is set,
      or every open minute happens to lie in the window around the clock. */
  lemma FlushKeepsWindowIff(v: View, nextFlush: int, now: Instant)
    requires InWindow(v, nextFlush)
    ensures InWindow(AfterFlush(v, nextFlush, now), NextFlush(nextFlush, now)) <==>
            nextFlush != 0 || InWindow(v, FloorMinute(Unix(now)) - (MAX_OPEN_MINUTES - 1) * 60)
  {
    hide FloorMinute;
    if nextFlush != 0 {
      FlushKeepsWindow(v, nextFlush, now);
    } else {
      OutsideNothing(v, StartFlush(nextFlush, now), NextFlush(nextFlush, now));
    }
  }

  // ---------- what a datagram does ----------

  function AddedAll(a: Minutes, fs: seq<NormFlow>, now: Instant, nextFlush: int): Minutes {
    if fs == [] then a else Added(AddedAll(a, fs[..|fs| - 1], now, nextFlush), fs[|fs| - 1], now, nextFlush)
  }

  /** The exporter's minutes after a datagram with records fs. */
  function Received(a: Minutes, fs: seq<NormFlow>, now: Instant, nextFlush: int): Minutes {
    AddedAll(Marked(a, now, nextFlush), fs, now, nextFlush)
  }

  /** The minutes a datagram may touch are not flushed yet: after the flush check its
      window lies in the three minutes from the next flush on. */
  lemma WindowIsOpen(now: Instant, nextFlush: int)
    requires nextFlush % 60 == 0 && FloorMinute(Unix(now)) <= nextFlush + 120
    ensures var w := Window(now, nextFlush); nextFlush <= w.0 <= w.1 <= nextFlush + 120
  {
  }

  lemma {:induction false} ReceivedWithin(a: Minutes, fs: seq<NormFlow>, now: Instant, nextFlush: int)
    requires nextFlush % 60 == 0
    ensures var w := Window(now, nextFlush); Within(a, Received(a, fs, now, nextFlush), w.0, w.1)
    ensures AllMetaAgree(a) ==> AllMetaAgree(Received(a, fs, now, nextFlush))
    decreases |fs|
  {
    hide Window, Added, Marked, AllMetaAgree;
    MarkedKeeps(a, now, nextFlush);
    if fs != [] {
      var rest := fs[..|fs| - 1];
      ReceivedWithin(a, rest, now, nextFlush);
      AddedWithin(Received(a, rest, now, nextFlush), fs[|fs| - 1], now, nextFlush);
    }
  }

  function Bookings(id: int, fs: seq<NormFlow>, now: Instant, nextFlush: int): (bs: seq<Booking>)
    ensures |bs| == |fs|
  {
    seq(|fs|, i requires 0 <= i < |fs| => Booking(id, fs[i], now, nextFlush))
  }

  /** What the records of a datagram add to the minutes of its exporter is what is due. */
  lemma {:induction false} BalancedReceive(v: View, id: int, fs: seq<NormFlow>, now: Instant, nextFlush: int,
                                           ledger: seq<Booking>, handed: seq<Batch>)
    requires id in v && nextFlush % 60 == 0 && AllBalanced(ledger, v, handed)
    ensures AllBalanced(ledger + Bookings(id, fs, now, nextFlush), v[id := Received(v[id], fs, now, nextFlush)], handed)
    decreases |fs|
  {
    hide Added, Marked, AllBalanced;
    if fs == [] {
      assert ledger + Bookings(id, fs, now, nextFlush) == ledger;
      BalancedMark(ledger, v, handed, id, now, nextFlush);
    } else {
      var rest, b := fs[..|fs| - 1], Booking(id, fs[|fs| - 1], now, nextFlush);
      BalancedReceive(v, id, rest, now, nextFlush, ledger, handed);
      var w, l := v[id := Received(v[id], rest, now, nextFlush)], ledger + Bookings(id, rest, now, nextFlush);
      BalancedAdd(l, w, handed, b);
      assert l + [b] == ledger + Bookings(id, fs, now, nextFlush);
      assert AddedTo(w, b) == v[id := Received(v[id], fs, now, nextFlush)];
    }
  }

  /** A view with one exporter replaced, touched only inside the window. */
  lemma ReceivedKeeps(v: View, id: int, a: Minutes, lo: int, hi: int, nextFlush: int)
    requires id in v && Sound(v) && Within(v[id], a, lo, hi) && AllMetaAgree(a)
    ensures Sound(v[id := a])
    ensures InWindow(v, nextFlush) && nextFlush <= lo && hi <= nextFlush + 120 ==> InWindow(v[id := a], nextFlush)
  {
    hide AllMetaAgree;
  }

  lemma ReceivedSound(v: View, id: int, fs: seq<NormFlow>, now: Instant, nextFlush: int, batches: seq<Batch>)
    requires id in v && Sound(v) && nextFlush % 60 == 0
    ensures Sound(v[id := Received(v[id], fs, now, nextFlush)])
    ensures FloorMinute(Unix(now)) <= nextFlush + 120 && Orderly(v, nextFlush, batches) ==>
            Orderly(v[id := Received(v[id], fs, now, nextFlush)], nextFlush, batches)
  {
    hide Window, Received, AllMetaAgree, FloorMinute;
    var w := Window(now, nextFlush);
    ReceivedWithin(v[id], fs, now, nextFlush);
    if FloorMinute(Unix(now)) <= nextFlush + 120 {
      WindowIsOpen(now, nextFlush);
    }
    ReceivedKeeps(v, id, Received(v[id], fs, now, nextFlush), w.0, w.1, nextFlush);
  }

  lemma EmptyExporter(v: View, id: int)
    requires Sound(v)
    ensures Sound(v[id := map[]])
  {
  }

  // ---------- at the epoch ----------

  const EARLY: Instant := 150 * SECOND

  /** A record that ends at second 150 counts in minute 120. */
  lemma EpochDue(f: NormFlow)
    requires f.end == EARLY
    ensures Window(EARLY, 0) == (0, 120) && DueOf(f, EARLY, 0, 120, Flows) == 1
  {
    assert Unix(EARLY) == 150 && FloorMinute(150) == 120;
    var r := Normalise(f, EARLY);
    assert r.endMin == 120;
  }

  /** A datagram with one record opens every minute of the window and brings it what is due. */
  lemma ReceivedOne(a: Minutes, f: NormFlow, now: Instant, nextFlush: int, x: int, k: Metric)
    requires nextFlush % 60 == 0 && x % 60 == 0
    requires var w := Window(now, nextFlush); w.0 <= x <= w.1
    requires MinuteTotal(MinuteOf(a, x), k) + DueOf(f, now, nextFlush, x, k) <= MAX_INT64
    ensures var b := Received(a, [f], now, nextFlush);
      x in b && MinuteTotal(b[x], k) == MinuteTotal(MinuteOf(a, x), k) + DueOf(f, now, nextFlush, x, k)
  {
    hide Window, Marked, Added, DueOf, MinuteTotal;
    var m := Marked(a, now, nextFlush);
    MarkedAt(a, now, nextFlush, x);
    MarkedBooks(a, now, nextFlush, x);
    SameMinuteTotal(MinuteOf(m, x), MinuteOf(a, x));
    var fs := [f];
    assert fs[..|fs| - 1] == [] && AddedAll(m, [], now, nextFlush) == m;
    assert Received(a, fs, now, nextFlush) == Added(m, f, now, nextFlush);
    AddedDue(m, f, now, nextFlush, x, k);
    AddedWithin(m, f, now, nextFlush);
  }

  lemma SameMinuteTotal(a: Minute, b: Minute)
    requires a.keys == b.keys && a.other == b.other
    ensures forall k :: MinuteTotal(a, k) == MinuteTotal(b, k)
  {
  }

  /** The minutes of an exporter after one datagram at second 150, with the next flush at 0. */
  lemma EpochMinute(a: Minutes, f: NormFlow)
    requires f.end == EARLY && a == map[]
    ensures var b := Received(a, [f], EARLY, 0); 120 in b && MinuteTotal(b[120], Flows) == 1
  {
    hide Received, DueOf, Window, MinuteTotal;
    EpochDue(f);
    EmptyMeta(120);
    ReceivedOne(a, f, EARLY, 0, 120, Flows);
  }

  lemma EpochStart(v: View)
    requires forall id :: id in v ==> v[id] == map[]
    ensures FloorMinute(Unix(EARLY)) == 120 && NextFlush(0, EARLY) == 0 && AfterFlush(v, 0, EARLY) == v
  {
    assert Unix(EARLY) == 150 && FloorMinute(150) == 120;
    OutsideNothing(v, 0, 0);
  }

  lemma EpochClock()
    ensures StartFlush(0, 0) == NextFlush(0, 0) == -120
  {
    assert Unix(0) == 0 && FloorMinute(0) == 0;
  }

  /** A clock that steps back to second 0 then moves the next flush back with it, and a minute
      with data that was in the window no longer is. */
  lemma EpochMovesBack(v: View, id: int)
    requires id in v && 120 in v[id]
    ensures NextFlush(0, 0) == -120 && AfterFlush(v, 0, 0) == v && !InWindow(v, -120)
  {
    EpochClock();
    hide FloorMinute, Outside;
    OutsideNothing(v, -120, -120);
  }

  // ---------- runs ----------

  datatype Event =
    | Datagram(id: int, enabled: bool, now: Instant, flows: seq<NormFlow>)
    | Tick(now: Instant)
    | NewExporter(id: int)

  /** The next flush after an event: datagrams and ticks start with a flush check. */
  function NextAfter(e: Event, nextFlush: int): int {
    if e.NewExporter? then nextFlush else NextFlush(nextFlush, e.now)
  }

  lemma NeverBack(e: Event, nextFlush: int)
    requires 0 < nextFlush
    ensures nextFlush <= NextAfter(e, nextFlush)
  {
  }

  /** The records of an event that reach an aggregator: those of known, enabled exporters. */
  function Gained(e: Event, ids: set<int>, nextFlush: int): seq<Booking> {
    if e.Datagram? && e.id in ids && e.enabled then Bookings(e.id, e.flows, e.now, NextAfter(e, nextFlush)) else []
  }

  function IdsAfter(e: Event, ids: set<int>): set<int> { if e.NewExporter? then ids + {e.id} else ids }

  /** The records a run accepts, each with its exporter and the window it is booked in. */
  function Accepted(events: seq<Event>, ids: set<int>, nextFlush: int): seq<Booking> {
    if events == [] then []
    else
      Gained(events[0], ids, nextFlush)
      + Accepted(events[1..], IdsAfter(events[0], ids), NextAfter(events[0], nextFlush))
  }

  /** Each minute is flushed at most once, in order. */
  ghost predicate InTurn(batches: seq<Batch>) {
    forall i, j :: 0 <= i < j < |batches| ==> batches[i].minute < batches[j].minute
  }

  /** Flushed minutes come in order and are over; open ones are in the window. */
  ghost predicate Orderly(v: View, nextFlush: int, batches: seq<Batch>) {
    && 0 < nextFlush && InWindow(v, nextFlush)
    && (forall i :: 0 <= i < |batches| ==> batches[i].minute < nextFlush)
    && InTurn(batches)
  }

  /** The batches of a range of minutes from the next flush on come after all before them. */
  lemma InTurnMore(v: View, nextFlush: int, batches: seq<Batch>, batches': seq<Batch>, a: int, b: int, n: nat, r: nat)
    requires Orderly(v, nextFlush, batches) && batches <= batches' && nextFlush <= a
    requires BatchesOf(batches'[|batches|..], v, a, b, n, r)
    ensures InTurn(batches') && forall i :: 0 <= i < |batches'| ==> batches'[i].minute < nextFlush || batches'[i].minute < b
  {
    hide BatchOf;
    var s, k := batches'[|batches|..], |batches|;
    forall i | 0 <= i < |batches'|
      ensures batches'[i].minute < nextFlush || batches'[i].minute < b
      ensures k <= i ==> nextFlush <= batches'[i].minute
    {
      if k <= i {
        assert s[i - k] == batches'[i];
      }
    }
    forall i, j | 0 <= i < j < |batches'|
      ensures batches'[i].minute < batches'[j].minute
    {
      if k <= i {
        assert s[i - k] == batches'[i] && s[j - k] == batches'[j];
      }
    }
  }

  /** While the open minutes are in the window, none is older than the next flush. */
  lemma OldestInWindow(v: View, nextFlush: int, batches: seq<Batch>, o: int)
    requires Orderly(v, nextFlush, batches) && (o == nextFlush || exists id :: id in v && o in v[id])
    ensures nextFlush <= o
  {
  }

  lemma OrderlyFlush(v: View, nextFlush: int, now: Instant, batches: seq<Batch>, batches': seq<Batch>, n: nat, r: nat)
    requires Orderly(v, nextFlush, batches) && batches <= batches'
    requires BatchesOf(batches'[|batches|..], v, StartFlush(nextFlush, now), NextFlush(nextFlush, now), n, r)
    ensures Orderly(AfterFlush(v, nextFlush, now), NextFlush(nextFlush, now), batches')
  {
    hide BatchesOf, FloorMinute, InTurn;
    FlushKeepsWindow(v, nextFlush, now);
    InTurnMore(v, nextFlush, batches, batches', nextFlush, NextFlush(nextFlush, now), n, r);
  }

  lemma AcceptedStep(events: seq<Event>, i: nat, ids: set<int>, nextFlush: int, ledger: seq<Booking>)
    requires i < |events|
    ensures ledger + Accepted(events[i..], ids, nextFlush) ==
            (ledger + Gained(events[i], ids, nextFlush))
            + Accepted(events[i + 1..], IdsAfter(events[i], ids), NextAfter(events[i], nextFlush))
  {
    assert events[i..][1..] == events[i + 1..];
  }

  lemma OrderlyMore(v: View, w: View, nextFlush: int, batches: seq<Batch>)
    requires v.Keys <= w.Keys && (forall j :: j in v ==> w[j] == v[j]) && (forall j :: j in w && j !in v ==> w[j] == map[])
    ensures Orderly(v, nextFlush, batches) ==> Orderly(w, nextFlush, batches)
  {
  }
}
