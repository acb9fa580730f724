/** The balance of the flow collector: every record accepted is due to certain minutes of its
    exporter, and what is open and what was handed over make up what is due, exporter by
    exporter, minute by minute and interface pair by interface pair. */
module FlowBalance {
  import opened Arith
  import opened Sums
  import opened TopN
  import opened FlowAggregate
  import opened FlowSplit
  import opened FlowFlush
  import opened FlowPairs
  import opened FlowAggregator

  /** What one exporter contributed to a flushed minute. */
  datatype Item = Item(id: int, rows: seq<Row>, meta: Meta)

  /** One minute of all exporters, as handed to the writer. */
  datatype Batch = Batch(minute: int, items: seq<Item>)

  type View = map<int, Minutes>

  /** A record accepted from an exporter, with the clock and the next flush at that time. */
  datatype Booking = Booking(id: int, f: NormFlow, now: Instant, nextFlush: int)

  // ---------- what is due ----------

  function DueAt(b: Booking, x: int, k: Metric): int { DueOf(b.f, b.now, b.nextFlush, x, k) }

  function DueGauge(id: int, x: int, k: Metric): Booking -> int {
    (b: Booking) => if b.id == id then DueAt(b, x, k) else 0
  }

  /** What the records of an exporter are due to bring to minute x. */
  ghost function SlotDue(ledger: seq<Booking>, id: int, x: int, k: Metric): int { SeqSum(ledger, DueGauge(id, x, k)) }

  function PairDueGauge(id: int, x: int, p: PairKey, k: Metric): Booking -> int {
    (b: Booking) => if b.id == id && PairOf(b.f.key) == p then DueAt(b, x, k) else 0
  }

  ghost function PairDue(ledger: seq<Booking>, id: int, x: int, p: PairKey, k: Metric): int {
    SeqSum(ledger, PairDueGauge(id, x, p, k))
  }

  /** The record brings something to minute x. */
  ghost predicate Touches(b: Booking, x: int) { exists k :: DueAt(b, x, k) != 0 }

  /** The interface pairs of the records that bring something to minute x of an exporter. */
  ghost function PairsBooked(ledger: seq<Booking>, id: int, x: int): set<PairKey> {
    set b | b in ledger && b.id == id && Touches(b, x) :: PairOf(b.f.key)
  }

  /** What a record adds: its clamped bytes and packets, and one flow. */
  function Worth(f: NormFlow, k: Metric): nat {
    match k
    case Bytes => Clamp(f.bytes, 0, MAX_FLOW_VALUE)
    case Packets => Clamp(f.packets, 0, MAX_FLOW_VALUE)
    case Flows => 1
  }

  function WorthGauge(k: Metric): Booking -> int { (b: Booking) => Worth(b.f, k) }

  ghost function Ledger(ledger: seq<Booking>, k: Metric): int { SeqSum(ledger, WorthGauge(k)) }

  // ---------- what is open and what was handed over ----------

  ghost function OpenAt(v: View, id: int, x: int, k: Metric): int {
    if id in v then MinuteTotal(MinuteOf(v[id], x), k) else 0
  }

  ghost function PairOpen(v: View, id: int, x: int, p: PairKey, k: Metric): int {
    if id in v then PairTotal(MinuteOf(v[id], x), p, k) else 0
  }

  ghost function AggGauge(k: Metric): Minutes -> int { (a: Minutes) => AggTotal(a, k) }

  ghost function OpenTotal(v: View, k: Metric): int { MapSum(v, AggGauge(k)) }

  ghost function ItemGauge(id: int, g: Row -> int): Item -> int {
    (i: Item) => if i.id == id then SeqSum(i.rows, g) else 0
  }

  ghost function BatchGauge(id: int, x: int, g: Row -> int): Batch -> int {
    (b: Batch) => if b.minute == x then SeqSum(b.items, ItemGauge(id, g)) else 0
  }

  /** A sum over the rows handed over for minute x of an exporter. */
  ghost function HandedSum(handed: seq<Batch>, id: int, x: int, g: Row -> int): int {
    SeqSum(handed, BatchGauge(id, x, g))
  }

  ghost function HandedAt(handed: seq<Batch>, id: int, x: int, k: Metric): int { HandedSum(handed, id, x, RowGauge(k)) }

  ghost function PairHanded(handed: seq<Batch>, id: int, x: int, p: PairKey, k: Metric): int {
    HandedSum(handed, id, x, RowPairGauge(p, k))
  }

  ghost function AnyItemGauge(k: Metric): Item -> int { (i: Item) => RowsTotal(i.rows, k) }

  ghost function AnyBatchGauge(k: Metric): Batch -> int { (b: Batch) => SeqSum(b.items, AnyItemGauge(k)) }

  /** All rows of all batches. */
  ghost function Handed(handed: seq<Batch>, k: Metric): int { SeqSum(handed, AnyBatchGauge(k)) }

  // ---------- the balance ----------

  /** What is open and handed over is what is due; a counter that saturates may hold less,
      never more, and none does while what is due fits it. */
  predicate Balanced(due: int, open: int, handed: int) {
    0 <= open && 0 <= handed && open + handed <= due && (due <= MAX_INT64 ==> open + handed == due)
  }

  ghost predicate SlotsBalanced(ledger: seq<Booking>, v: View, handed: seq<Batch>, k: Metric) {
    forall id, x :: Balanced(SlotDue(ledger, id, x, k), OpenAt(v, id, x, k), HandedAt(handed, id, x, k))
  }

  /** No minute of any exporter is due more than a counter holds. */
  ghost predicate Unclipped(ledger: seq<Booking>, k: Metric) {
    forall id, x :: SlotDue(ledger, id, x, k) <= MAX_INT64
  }

  ghost predicate WholeBalanced(ledger: seq<Booking>, v: View, handed: seq<Batch>, k: Metric) {
    && OpenTotal(v, k) + Handed(handed, k) <= Ledger(ledger, k)
    && (Unclipped(ledger, k) ==> OpenTotal(v, k) + Handed(handed, k) == Ledger(ledger, k))
  }

  /** The minute's pairs fit the table of other rows, and what is due its counters. */
  ghost predicate Roomy(ledger: seq<Booking>, id: int, x: int, k: Metric) {
    |PairsBooked(ledger, id, x)| <= MAX_KEYS_PER_MINUTE && SlotDue(ledger, id, x, k) <= MAX_INT64
  }

  ghost predicate PairsBalanced(ledger: seq<Booking>, v: View, handed: seq<Batch>, k: Metric) {
    forall id, x, p :: Roomy(ledger, id, x, k) ==>
      PairOpen(v, id, x, p, k) + PairHanded(handed, id, x, p, k) == PairDue(ledger, id, x, p, k)
  }

  /** While its pairs fit the table, an open minute knows no pair that was not booked there. */
  ghost predicate PairsKnown(ledger: seq<Booking>, v: View) {
    forall id, x :: id in v && |PairsBooked(ledger, id, x)| <= MAX_KEYS_PER_MINUTE ==>
                    MinutePairs(MinuteOf(v[id], x)) <= PairsBooked(ledger, id, x)
  }

  ghost predicate AllBalanced(ledger: seq<Booking>, v: View, handed: seq<Batch>) {
    && PairsKnown(ledger, v)
    && forall k :: SlotsBalanced(ledger, v, handed, k) && WholeBalanced(ledger, v, handed, k)
                   && PairsBalanced(ledger, v, handed, k)
  }

  /** Before anything was booked. */
  lemma NothingYet()
    ensures AllBalanced([], map[], [])
  {
  }

  // ---------- a record booked ----------

  lemma LedgerMore(ledger: seq<Booking>, b: Booking, id: int, x: int, p: PairKey, k: Metric)
    ensures SlotDue(ledger + [b], id, x, k) == SlotDue(ledger, id, x, k) + if b.id == id then DueAt(b, x, k) else 0
    ensures PairDue(ledger + [b], id, x, p, k) ==
            PairDue(ledger, id, x, p, k) + if b.id == id && PairOf(b.f.key) == p then DueAt(b, x, k) else 0
    ensures Ledger(ledger + [b], k) == Ledger(ledger, k) + Worth(b.f, k)
  {
    hide DueAt, Worth;
    SeqSumLast(ledger, b, DueGauge(id, x, k));
    SeqSumLast(ledger, b, PairDueGauge(id, x, p, k));
    SeqSumLast(ledger, b, WorthGauge(k));
  }

  lemma PairsMoreBooked(ledger: seq<Booking>, b: Booking, id: int, x: int)
    ensures PairsBooked(ledger, id, x) <= PairsBooked(ledger + [b], id, x)
    ensures b.id == id && Touches(b, x) ==> PairOf(b.f.key) in PairsBooked(ledger + [b], id, x)
  {
    hide Touches;
    assert b in ledger + [b];
  }

  lemma WorthIs(f: NormFlow, now: Instant, k: Metric)
    ensures Normalise(f, now).All(k) + Normalise(f, now).Count(k) == Worth(f, k)
  {
  }

  lemma SlotAdd(due: int, open: int, handed: int, d: int, open': int)
    requires Balanced(due, open, handed) && Adds(open, d, open')
    ensures Balanced(due + d, open', handed)
  {
  }

  /** The exporter's view after one more record. */
  ghost function AddedTo(v: View, b: Booking): View
    requires b.id in v
  {
    v[b.id := Added(v[b.id], b.f, b.now, b.nextFlush)]
  }

  lemma OpenAdd(v: View, b: Booking, id: int, x: int, k: Metric)
    requires b.id in v && b.nextFlush % 60 == 0
    ensures Adds(OpenAt(v, id, x, k), if b.id == id then DueAt(b, x, k) else 0, OpenAt(AddedTo(v, b), id, x, k))
  {
    hide Added, DueOf, MinuteTotal;
    if id == b.id {
      AddedDue(v[id], b.f, b.now, b.nextFlush, x, k);
    } else if id in v {
      MinuteNonNegative(MinuteOf(v[id], x), k);
    }
  }

  lemma SlotsAdd(ledger: seq<Booking>, v: View, handed: seq<Batch>, b: Booking, k: Metric)
    requires b.id in v && b.nextFlush % 60 == 0 && SlotsBalanced(ledger, v, handed, k)
    ensures SlotsBalanced(ledger + [b], AddedTo(v, b), handed, k)
    ensures Unclipped(ledger + [b], k) ==> Unclipped(ledger, k)
  {
    hide SlotDue, OpenAt, HandedAt, DueAt, AddedTo, PairDue, Balanced;
    forall id, x
      ensures Balanced(SlotDue(ledger + [b], id, x, k), OpenAt(AddedTo(v, b), id, x, k), HandedAt(handed, id, x, k))
      ensures SlotDue(ledger, id, x, k) <= SlotDue(ledger + [b], id, x, k)
    {
      LedgerMore(ledger, b, id, x, PairOf(b.f.key), k);
      OpenAdd(v, b, id, x, k);
      SlotAdd(SlotDue(ledger, id, x, k), OpenAt(v, id, x, k), HandedAt(handed, id, x, k),
              if b.id == id then DueAt(b, x, k) else 0, OpenAt(AddedTo(v, b), id, x, k));
    }
  }

  lemma SlotOpen(ledger: seq<Booking>, v: View, handed: seq<Batch>, id: int, x: int, k: Metric)
    requires SlotsBalanced(ledger, v, handed, k)
    ensures 0 <= OpenAt(v, id, x, k) <= SlotDue(ledger, id, x, k)
  {
    hide SlotDue, OpenAt, HandedAt;
  }

  lemma WholeAdd(ledger: seq<Booking>, v: View, handed: seq<Batch>, b: Booking, k: Metric)
    requires b.id in v && b.nextFlush % 60 == 0
    requires SlotsBalanced(ledger, v, handed, k) && WholeBalanced(ledger, v, handed, k)
    ensures WholeBalanced(ledger + [b], AddedTo(v, b), handed, k)
  {
    hide Normalise, Added, SlotDue, DueOf, SlotsBalanced, Ledger, Handed, MinuteTotal, AggTotal, Worth;
    var a, a' := v[b.id], Added(v[b.id], b.f, b.now, b.nextFlush);
    LedgerMore(ledger, b, b.id, 0, PairOf(b.f.key), k);
    WorthIs(b.f, b.now, k);
    AddedTotal(a, b.f, b.now, b.nextFlush, k);
    MapSumUpdate(v, AggGauge(k), b.id, a');
    if Unclipped(ledger + [b], k) {
      SlotsAdd(ledger, v, handed, b, k);
      forall x
        ensures MinuteTotal(MinuteOf(a, x), k) + DueOf(b.f, b.now, b.nextFlush, x, k) <= MAX_INT64
      {
        SlotOpen(ledger, v, handed, b.id, x, k);
        LedgerMore(ledger, b, b.id, x, PairOf(b.f.key), k);
        assert SlotDue(ledger + [b], b.id, x, k) <= MAX_INT64;
      }
      AddedExact(a, b.f, b.now, b.nextFlush, k);
    }
  }

  /** Some share of s lands in minute x. */
  predicate Hits(s: Shares, lo: int, hi: int, x: int) {
    match s
    case Done => false
    case Share(m, v, rest) => Clamp(m, lo, hi) == x || Hits(rest, lo, hi, x)
  }

  lemma {:induction false} HitsIsDue(s: Shares, lo: int, hi: int, x: int)
    requires Aligned(s) && Hits(s, lo, hi, x)
    ensures exists k :: CreditAt(s, lo, hi, x, k) > 0
    decreases s
  {
    var v := s.v;
    forall k
      ensures 0 <= CreditAt(s.rest, lo, hi, x, k)
    {
      CreditNonNegative(s.rest, lo, hi, x, k);
    }
    if Clamp(s.minute, lo, hi) == x {
      var k := if v.bytes > 0 then Bytes else if v.packets > 0 then Packets else Flows;
      assert CreditAt(s, lo, hi, x, k) >= Of(v, k) > 0;
    } else {
      HitsIsDue(s.rest, lo, hi, x);
      var k :| CreditAt(s.rest, lo, hi, x, k) > 0;
      assert CreditAt(s, lo, hi, x, k) > 0;
    }
  }

  /** What booking the shares of a record does to minute x, pair by pair. */
  lemma {:induction false} BookedPair(a: Minutes, f: NormFlow, lo: int, hi: int, s: Shares, x: int,
                                      U: set<PairKey>, p: PairKey, k: Metric)
    requires |U| <= MAX_KEYS_PER_MINUTE && MinutePairs(MinuteOf(a, x)) <= U
    requires Hits(s, lo, hi, x) ==> PairOf(f.key) in U
    requires MinuteTotal(MinuteOf(a, x), k) + CreditAt(s, lo, hi, x, k) <= MAX_INT64
    ensures PairTotal(MinuteOf(Booked(a, f, lo, hi, s), x), p, k) ==
            PairTotal(MinuteOf(a, x), p, k) + if PairOf(f.key) == p then CreditAt(s, lo, hi, x, k) else 0
    decreases s
  {
    hide PairTotal, MinuteTotal, Book, MinutePairs;
    match s
    case Done =>
    case Share(m, v, rest) =>
      var y := Clamp(m, lo, hi);
      var mm := Book(MinuteOf(a, y), f, v);
      var b := a[y := mm];
      CreditNonNegative(rest, lo, hi, x, k);
      if y == x {
        BookTotal(MinuteOf(a, y), f, v, k);
        BookPair(MinuteOf(a, y), f, v, U, p, k);
        BookPairs(MinuteOf(a, y), f, v, U);
        assert MinuteOf(b, x) == mm;
      } else {
        assert MinuteOf(b, x) == MinuteOf(a, x);
      }
      BookedPair(b, f, lo, hi, rest, x, U, p, k);
  }

  /** Booking brings no pair but the record's own to a minute, and only where it lands. */
  lemma {:induction false} BookedPairs(a: Minutes, f: NormFlow, lo: int, hi: int, s: Shares, x: int, U: set<PairKey>)
    requires |U| <= MAX_KEYS_PER_MINUTE && MinutePairs(MinuteOf(a, x)) <= U && (Hits(s, lo, hi, x) ==> PairOf(f.key) in U)
    ensures MinutePairs(MinuteOf(Booked(a, f, lo, hi, s), x)) <= U
    decreases s
  {
    hide Book, MinutePairs;
    match s
    case Done =>
    case Share(m, v, rest) =>
      var y := Clamp(m, lo, hi);
      if y == x {
        BookPairs(MinuteOf(a, y), f, v, U);
      }
      BookedPairs(a[y := Book(MinuteOf(a, y), f, v)], f, lo, hi, rest, x, U);
  }

  lemma LateBooks(a: Minutes, f: NormFlow, now: Instant, nextFlush: int, x: int)
    ensures var w := Window(now, nextFlush);
      var mm, mm' := MinuteOf(Booked(a, f, w.0, w.1, Split(Normalise(f, now), w.0)), x), MinuteOf(Added(a, f, now, nextFlush), x);
      mm'.keys == mm.keys && mm'.other == mm.other
  {
    hide Booked, Split, Normalise;
  }

  /** A record that lands in a minute touches it. */
  lemma HitsTouch(b: Booking, x: int)
    requires b.nextFlush % 60 == 0
    requires var w := Window(b.now, b.nextFlush); Hits(Split(Normalise(b.f, b.now), w.0), w.0, w.1, x)
    ensures Touches(b, x)
  {
    hide Normalise, Split, CreditAt, DueOf, Hits, Aligned;
    var (lo, hi) := Window(b.now, b.nextFlush);
    var s := Split(Normalise(b.f, b.now), lo);
    SplitAligned(Normalise(b.f, b.now), lo);
    HitsIsDue(s, lo, hi, x);
    var k :| CreditAt(s, lo, hi, x, k) > 0;
    CreditIsDue(b.f, b.now, b.nextFlush, x, k);
    assert DueAt(b, x, k) != 0;
  }

  /** A record brings its pair, and no other, to the minutes it touches. */
  lemma AddedPairs(a: Minutes, b: Booking, x: int, U: set<PairKey>)
    requires b.nextFlush % 60 == 0 && |U| <= MAX_KEYS_PER_MINUTE
    requires MinutePairs(MinuteOf(a, x)) <= U && (Touches(b, x) ==> PairOf(b.f.key) in U)
    ensures MinutePairs(MinuteOf(Added(a, b.f, b.now, b.nextFlush), x)) <= U
  {
    hide Normalise, Split, Hits, Touches, Booked, Added;
    var (lo, hi) := Window(b.now, b.nextFlush);
    var s := Split(Normalise(b.f, b.now), lo);
    if Hits(s, lo, hi, x) {
      HitsTouch(b, x);
    }
    BookedPairs(a, b.f, lo, hi, s, x, U);
    LateBooks(a, b.f, b.now, b.nextFlush, x);
  }

  lemma AddedPair(a: Minutes, b: Booking, x: int, U: set<PairKey>, p: PairKey, k: Metric)
    requires b.nextFlush % 60 == 0 && |U| <= MAX_KEYS_PER_MINUTE
    requires MinutePairs(MinuteOf(a, x)) <= U && (Touches(b, x) ==> PairOf(b.f.key) in U)
    requires MinuteTotal(MinuteOf(a, x), k) + DueAt(b, x, k) <= MAX_INT64
    ensures PairTotal(MinuteOf(Added(a, b.f, b.now, b.nextFlush), x), p, k) ==
            PairTotal(MinuteOf(a, x), p, k) + if PairOf(b.f.key) == p then DueAt(b, x, k) else 0
  {
    hide Normalise, Split, Hits, Touches, Booked, Added, DueOf, MinuteTotal, CreditAt, MinutePairs;
    var (lo, hi) := Window(b.now, b.nextFlush);
    var s := Split(Normalise(b.f, b.now), lo);
    if Hits(s, lo, hi, x) {
      HitsTouch(b, x);
    }
    CreditIsDue(b.f, b.now, b.nextFlush, x, k);
    BookedPair(a, b.f, lo, hi, s, x, U, p, k);
    LateBooks(a, b.f, b.now, b.nextFlush, x);
  }

  lemma KnownAdd(ledger: seq<Booking>, v: View, b: Booking)
    requires b.id in v && b.nextFlush % 60 == 0 && PairsKnown(ledger, v)
    ensures PairsKnown(ledger + [b], AddedTo(v, b))
  {
    hide PairsBooked, MinutePairs, Added, Touches, MinuteOf;
    var w := AddedTo(v, b);
    forall id, x | id in w && |PairsBooked(ledger + [b], id, x)| <= MAX_KEYS_PER_MINUTE
      ensures MinutePairs(MinuteOf(w[id], x)) <= PairsBooked(ledger + [b], id, x)
    {
      PairsMoreBooked(ledger, b, id, x);
      Subset(PairsBooked(ledger, id, x), PairsBooked(ledger + [b], id, x));
      assert MinutePairs(MinuteOf(v[id], x)) <= PairsBooked(ledger, id, x);
      if id == b.id {
        AddedPairs(v[id], b, x, PairsBooked(ledger + [b], id, x));
      }
    }
  }

  lemma RoomyBefore(ledger: seq<Booking>, v: View, handed: seq<Batch>, b: Booking, id: int, x: int, k: Metric)
    requires b.id in v && b.nextFlush % 60 == 0 && SlotsBalanced(ledger, v, handed, k)
    requires Roomy(ledger + [b], id, x, k)
    ensures Roomy(ledger, id, x, k)
    ensures id == b.id ==> MinuteTotal(MinuteOf(v[id], x), k) + DueAt(b, x, k) <= MAX_INT64
  {
    hide PairsBooked, SlotDue, DueOf, MinuteTotal, SlotsBalanced, AddedTo;
    PairsMoreBooked(ledger, b, id, x);
    Subset(PairsBooked(ledger, id, x), PairsBooked(ledger + [b], id, x));
    LedgerMore(ledger, b, id, x, PairOf(b.f.key), k);
    OpenAdd(v, b, id, x, k);
    SlotOpen(ledger, v, handed, id, x, k);
  }

  lemma PairsAdd(ledger: seq<Booking>, v: View, handed: seq<Batch>, b: Booking, k: Metric)
    requires b.id in v && b.nextFlush % 60 == 0
    requires PairsKnown(ledger, v) && SlotsBalanced(ledger, v, handed, k) && PairsBalanced(ledger, v, handed, k)
    ensures PairsBalanced(ledger + [b], AddedTo(v, b), handed, k)
  {
    hide PairsBooked, SlotDue, DueAt, MinuteTotal, SlotsBalanced, Added, PairTotal, PairHanded, PairDue, Touches, MinutePairs;
    var w := AddedTo(v, b);
    forall id, x, p | Roomy(ledger + [b], id, x, k)
      ensures PairOpen(w, id, x, p, k) + PairHanded(handed, id, x, p, k) == PairDue(ledger + [b], id, x, p, k)
    {
      RoomyBefore(ledger, v, handed, b, id, x, k);
      LedgerMore(ledger, b, id, x, p, k);
      PairsMoreBooked(ledger, b, id, x);
      if id == b.id {
        AddedPair(v[id], b, x, PairsBooked(ledger + [b], id, x), p, k);
      }
    }
  }

  /** Booking a record keeps the balance. */
  lemma BalancedAdd(ledger: seq<Booking>, v: View, handed: seq<Batch>, b: Booking)
    requires b.id in v && b.nextFlush % 60 == 0 && AllBalanced(ledger, v, handed)
    ensures AllBalanced(ledger + [b], AddedTo(v, b), handed)
  {
    hide PairsKnown, SlotsBalanced, WholeBalanced, PairsBalanced, AddedTo;
    KnownAdd(ledger, v, b);
    forall k
      ensures SlotsBalanced(ledger + [b], AddedTo(v, b), handed, k)
      ensures WholeBalanced(ledger + [b], AddedTo(v, b), handed, k)
      ensures PairsBalanced(ledger + [b], AddedTo(v, b), handed, k)
    {
      SlotsAdd(ledger, v, handed, b, k);
      WholeAdd(ledger, v, handed, b, k);
      PairsAdd(ledger, v, handed, b, k);
    }
  }

  // ---------- steps that book nothing ----------

  /** The same conversations and other rows in every minute. */
  ghost predicate SameBooks(v: View, w: View) {
    && v.Keys <= w.Keys
    && (forall id, x :: id in v ==>
         && MinuteOf(w[id], x).keys == MinuteOf(v[id], x).keys
         && MinuteOf(w[id], x).other == MinuteOf(v[id], x).other)
    && (forall id :: id in w && id !in v ==> w[id] == map[])
  }

  lemma SameOpen(v: View, w: View, id: int, x: int, p: PairKey, k: Metric)
    requires SameBooks(v, w)
    ensures OpenAt(w, id, x, k) == OpenAt(v, id, x, k) && PairOpen(w, id, x, p, k) == PairOpen(v, id, x, p, k)
  {
    if id in w && id !in v {
      EmptyMeta(x);
      NoPairTotal(x, p, k);
    }
  }

  lemma NoPairTotal(x: int, p: PairKey, k: Metric)
    ensures PairTotal(NewMinute(x), p, k) == 0 && MinutePairs(NewMinute(x)) == {}
  {
    assert KeysOfPair(map[], p) == map[];
  }

  lemma BalancedSame(ledger: seq<Booking>, v: View, w: View, handed: seq<Batch>)
    requires AllBalanced(ledger, v, handed) && SameBooks(v, w) && forall k :: OpenTotal(w, k) == OpenTotal(v, k)
    ensures AllBalanced(ledger, w, handed)
  {
    hide OpenAt, PairOpen, OpenTotal, PairsBooked, SlotDue, PairDue, HandedAt, PairHanded, Handed, Ledger, Roomy;
    forall id, x, k
      ensures OpenAt(w, id, x, k) == OpenAt(v, id, x, k)
    {
      SameOpen(v, w, id, x, PairKey(0, 0), k);
    }
    forall id, x, p, k
      ensures PairOpen(w, id, x, p, k) == PairOpen(v, id, x, p, k)
    {
      SameOpen(v, w, id, x, p, k);
    }
    forall id, x | id in w && |PairsBooked(ledger, id, x)| <= MAX_KEYS_PER_MINUTE
      ensures MinutePairs(MinuteOf(w[id], x)) <= PairsBooked(ledger, id, x)
    {
      if id in v {
        assert MinutePairs(MinuteOf(w[id], x)) == MinutePairs(MinuteOf(v[id], x));
      } else {
        NoPairTotal(x, PairKey(0, 0), Bytes);
      }
    }
    forall k
      ensures SlotsBalanced(ledger, w, handed, k)
      ensures WholeBalanced(ledger, w, handed, k)
      ensures PairsBalanced(ledger, w, handed, k)
    {
      assert SlotsBalanced(ledger, v, handed, k) && WholeBalanced(ledger, v, handed, k) && PairsBalanced(ledger, v, handed, k);
    }
  }

  lemma BalancedMark(ledger: seq<Booking>, v: View, handed: seq<Batch>, id: int, now: Instant, nextFlush: int)
    requires id in v && nextFlush % 60 == 0 && AllBalanced(ledger, v, handed)
    ensures AllBalanced(ledger, v[id := Marked(v[id], now, nextFlush)], handed)
  {
    hide Marked, AllBalanced;
    var a := Marked(v[id], now, nextFlush);
    MarkedKeeps(v[id], now, nextFlush);
    forall k
      ensures OpenTotal(v[id := a], k) == OpenTotal(v, k)
    {
      MapSumUpdate(v, AggGauge(k), id, a);
    }
    forall x
      ensures MinuteOf(a, x).keys == MinuteOf(v[id], x).keys && MinuteOf(a, x).other == MinuteOf(v[id], x).other
    {
      MarkedBooks(v[id], now, nextFlush, x);
    }
    BalancedSame(ledger, v, v[id := a], handed);
  }

  lemma BalancedExporter(ledger: seq<Booking>, v: View, handed: seq<Batch>, id: int)
    requires id !in v && AllBalanced(ledger, v, handed)
    ensures AllBalanced(ledger, v[id := map[]], handed)
  {
    hide AllBalanced;
    forall k
      ensures OpenTotal(v[id := map[]], k) == OpenTotal(v, k)
    {
      MapSumUpdate(v, AggGauge(k), id, map[]);
    }
    BalancedSame(ledger, v, v[id := map[]], handed);
  }

  // ---------- a minute handed over ----------

  /** The items after one more exporter: nothing is written for an exporter without rows
      and meta row. */
  function NextItems(items: seq<Item>, id: int, rows: seq<Row>, meta: Meta): seq<Item> {
    if meta == NoMeta && rows == [] then items else items + [Item(id, rows, meta)]
  }

  lemma HandedMore(handed: seq<Batch>, b: Batch, id: int, x: int, g: Row -> int)
    ensures HandedSum(handed + [b], id, x, g) ==
            HandedSum(handed, id, x, g) + if b.minute == x then SeqSum(b.items, ItemGauge(id, g)) else 0
  {
    SeqSumLast(handed, b, BatchGauge(id, x, g));
  }

  lemma NextItemsSum(items: seq<Item>, id: int, rows: seq<Row>, meta: Meta, id': int, g: Row -> int)
    ensures SeqSum(NextItems(items, id, rows, meta), ItemGauge(id', g)) ==
            SeqSum(items, ItemGauge(id', g)) + if id == id' then SeqSum(rows, g) else 0
  {
    SeqSumLast(items, Item(id, rows, meta), ItemGauge(id', g));
  }

  /** One more exporter's rows in the batch being put together. */
  lemma HandedNext(handed: seq<Batch>, m: int, items: seq<Item>, id: int, rows: seq<Row>, meta: Meta,
                   id': int, x: int, g: Row -> int)
    ensures HandedSum(handed + [Batch(m, NextItems(items, id, rows, meta))], id', x, g) ==
            HandedSum(handed + [Batch(m, items)], id', x, g) + if id == id' && x == m then SeqSum(rows, g) else 0
  {
    hide HandedSum;
    HandedMore(handed, Batch(m, items), id', x, g);
    HandedMore(handed, Batch(m, NextItems(items, id, rows, meta)), id', x, g);
    NextItemsSum(items, id, rows, meta, id', g);
  }

  lemma HandedAllNext(handed: seq<Batch>, m: int, items: seq<Item>, id: int, rows: seq<Row>, meta: Meta, k: Metric)
    ensures Handed(handed + [Batch(m, NextItems(items, id, rows, meta))], k) ==
            Handed(handed + [Batch(m, items)], k) + RowsTotal(rows, k)
  {
    SeqSumLast(handed, Batch(m, items), AnyBatchGauge(k));
    SeqSumLast(handed, Batch(m, NextItems(items, id, rows, meta)), AnyBatchGauge(k));
    SeqSumLast(items, Item(id, rows, meta), AnyItemGauge(k));
  }

  lemma NoItemsYet(ledger: seq<Booking>, v: View, handed: seq<Batch>, m: int)
    requires AllBalanced(ledger, v, handed)
    ensures AllBalanced(ledger, v, handed + [Batch(m, [])])
  {
    hide OpenAt, PairOpen, OpenTotal, PairsBooked, SlotDue, PairDue, HandedSum, Ledger, Roomy, Handed;
    var more := handed + [Batch(m, [])];
    forall id, x, k
      ensures HandedAt(more, id, x, k) == HandedAt(handed, id, x, k)
    {
      HandedMore(handed, Batch(m, []), id, x, RowGauge(k));
    }
    forall id, x, p, k
      ensures PairHanded(more, id, x, p, k) == PairHanded(handed, id, x, p, k)
    {
      HandedMore(handed, Batch(m, []), id, x, RowPairGauge(p, k));
    }
    forall k
      ensures SlotsBalanced(ledger, v, more, k) && WholeBalanced(ledger, v, more, k) && PairsBalanced(ledger, v, more, k)
    {
      NoneHanded(handed, m, k);
      assert SlotsBalanced(ledger, v, handed, k) && WholeBalanced(ledger, v, handed, k) && PairsBalanced(ledger, v, handed, k);
    }
  }

  lemma NoneHanded(handed: seq<Batch>, m: int, k: Metric)
    ensures Handed(handed + [Batch(m, [])], k) == Handed(handed, k)
  {
    SeqSumLast(handed, Batch(m, []), AnyBatchGauge(k));
  }

  /** One exporter gives up minute m: rows and meta are what flushing it gave. */
  ghost predicate Gives(v: View, id: int, m: int, topN: nat, maxRows: nat, rows: seq<Row>, meta: Meta) {
    && id in v
    && (m in v[id] ==> IsFlushResult(v[id][m], topN, maxRows, rows, meta))
    && (m !in v[id] ==> rows == [])
  }

  ghost function Without1(v: View, id: int, m: int): View
    requires id in v
  {
    v[id := v[id] - {m}]
  }

  lemma SlotFlush(due: int, open: int, handed: int, given: int)
    requires Balanced(due, open, handed) && 0 <= given <= open && (open <= MAX_INT64 ==> given == open)
    ensures Balanced(due, 0, handed + given)
  {
  }

  lemma GivenTotal(v: View, id: int, m: int, topN: nat, maxRows: nat, rows: seq<Row>, meta: Meta, k: Metric)
    requires Gives(v, id, m, topN, maxRows, rows, meta)
    ensures 0 <= RowsTotal(rows, k) <= OpenAt(v, id, m, k)
    ensures OpenAt(v, id, m, k) <= MAX_INT64 ==> RowsTotal(rows, k) == OpenAt(v, id, m, k)
  {
    hide IsFlushResult;
    if m in v[id] {
      FlushKeepsTotal(v[id][m], topN, maxRows, rows, meta, k);
    } else {
      EmptyMeta(m);
    }
  }

  lemma OpenWithout(v: View, id: int, m: int, id': int, x: int, p: PairKey, k: Metric)
    requires id in v
    ensures OpenAt(Without1(v, id, m), id', x, k) == if id' == id && x == m then 0 else OpenAt(v, id', x, k)
    ensures PairOpen(Without1(v, id, m), id', x, p, k) == if id' == id && x == m then 0 else PairOpen(v, id', x, p, k)
  {
    EmptyMeta(m);
    NoPairTotal(m, p, k);
  }

  lemma OpenTotalWithout(v: View, id: int, m: int, k: Metric)
    requires id in v
    ensures OpenTotal(Without1(v, id, m), k) == OpenTotal(v, k) - OpenAt(v, id, m, k)
  {
    hide MinuteTotal;
    MapSumUpdate(v, AggGauge(k), id, v[id] - {m});
    if m in v[id] {
      MapSumRemove(v[id], MinuteGauge(k), m);
    } else {
      EmptyMeta(m);
      assert v[id] - {m} == v[id];
    }
  }

  lemma SlotsFlush(ledger: seq<Booking>, v: View, handed: seq<Batch>, items: seq<Item>, id: int, m: int,
                   topN: nat, maxRows: nat, rows: seq<Row>, meta: Meta, k: Metric)
    requires id in v && Gives(v, id, m, topN, maxRows, rows, meta) && SlotsBalanced(ledger, v, handed + [Batch(m, items)], k)
    ensures SlotsBalanced(ledger, Without1(v, id, m), handed + [Batch(m, NextItems(items, id, rows, meta))], k)
  {
    hide SlotDue, OpenAt, HandedSum, Gives, Without1, NextItems, Balanced, PairOpen;
    var w, before, after := Without1(v, id, m), handed + [Batch(m, items)], handed + [Batch(m, NextItems(items, id, rows, meta))];
    GivenTotal(v, id, m, topN, maxRows, rows, meta, k);
    forall id', x
      ensures Balanced(SlotDue(ledger, id', x, k), OpenAt(w, id', x, k), HandedAt(after, id', x, k))
    {
      HandedNext(handed, m, items, id, rows, meta, id', x, RowGauge(k));
      OpenWithout(v, id, m, id', x, PairKey(0, 0), k);
      assert Balanced(SlotDue(ledger, id', x, k), OpenAt(v, id', x, k), HandedAt(before, id', x, k));
      if id' == id && x == m {
        SlotFlush(SlotDue(ledger, id, m, k), OpenAt(v, id, m, k), HandedAt(before, id, m, k), RowsTotal(rows, k));
      }
    }
  }

  lemma WholeFlush(ledger: seq<Booking>, v: View, handed: seq<Batch>, items: seq<Item>, id: int, m: int,
                   topN: nat, maxRows: nat, rows: seq<Row>, meta: Meta, k: Metric)
    requires id in v && Gives(v, id, m, topN, maxRows, rows, meta) && SlotsBalanced(ledger, v, handed + [Batch(m, items)], k)
    requires WholeBalanced(ledger, v, handed + [Batch(m, items)], k)
    ensures WholeBalanced(ledger, Without1(v, id, m), handed + [Batch(m, NextItems(items, id, rows, meta))], k)
  {
    hide SlotDue, OpenAt, SlotsBalanced, Gives, Without1, NextItems, Handed, OpenTotal, Ledger;
    GivenTotal(v, id, m, topN, maxRows, rows, meta, k);
    HandedAllNext(handed, m, items, id, rows, meta, k);
    OpenTotalWithout(v, id, m, k);
    SlotOpen(ledger, v, handed + [Batch(m, items)], id, m, k);
    assert Unclipped(ledger, k) ==> SlotDue(ledger, id, m, k) <= MAX_INT64;
  }

  lemma GivenPair(ledger: seq<Booking>, v: View, id: int, m: int, topN: nat, maxRows: nat, rows: seq<Row>, meta: Meta,
                  p: PairKey, k: Metric)
    requires Gives(v, id, m, topN, maxRows, rows, meta) && PairsKnown(ledger, v) && Roomy(ledger, id, m, k)
    requires OpenAt(v, id, m, k) <= SlotDue(ledger, id, m, k)
    ensures SeqSum(rows, RowPairGauge(p, k)) == PairOpen(v, id, m, p, k)
  {
    hide IsFlushResult, PairsBooked, PairTotal, MinuteTotal, SlotDue, MinutePairs;
    if m in v[id] {
      assert MinuteOf(v[id], m) == v[id][m];
      FlushPair(v[id][m], topN, maxRows, rows, meta, PairsBooked(ledger, id, m), p, k);
    } else {
      NoPairTotal(m, p, k);
    }
  }

  lemma PairsFlush(ledger: seq<Booking>, v: View, handed: seq<Batch>, items: seq<Item>, id: int, m: int,
                   topN: nat, maxRows: nat, rows: seq<Row>, meta: Meta, k: Metric)
    requires id in v && Gives(v, id, m, topN, maxRows, rows, meta) && SlotsBalanced(ledger, v, handed + [Batch(m, items)], k)
    requires PairsKnown(ledger, v) && PairsBalanced(ledger, v, handed + [Batch(m, items)], k)
    ensures PairsBalanced(ledger, Without1(v, id, m), handed + [Batch(m, NextItems(items, id, rows, meta))], k)
  {
    hide SlotDue, OpenAt, HandedSum, Gives, Without1, NextItems, PairOpen, PairDue, Roomy, SlotsBalanced, PairsKnown;
    var w, before, after := Without1(v, id, m), handed + [Batch(m, items)], handed + [Batch(m, NextItems(items, id, rows, meta))];
    forall id', x, p | Roomy(ledger, id', x, k)
      ensures PairOpen(w, id', x, p, k) + PairHanded(after, id', x, p, k) == PairDue(ledger, id', x, p, k)
    {
      HandedNext(handed, m, items, id, rows, meta, id', x, RowPairGauge(p, k));
      OpenWithout(v, id, m, id', x, p, k);
      assert PairOpen(v, id', x, p, k) + PairHanded(before, id', x, p, k) == PairDue(ledger, id', x, p, k);
      if id' == id && x == m {
        SlotOpen(ledger, v, before, id, m, k);
        GivenPair(ledger, v, id, m, topN, maxRows, rows, meta, p, k);
      }
    }
  }

  lemma KnownFlush(ledger: seq<Booking>, v: View, id: int, m: int)
    requires id in v && PairsKnown(ledger, v)
    ensures PairsKnown(ledger, Without1(v, id, m))
  {
    hide PairsBooked;
    NoPairTotal(m, PairKey(0, 0), Bytes);
  }

  /** Handing over a minute moves what it held from one side to the other. */
  lemma BalancedFlush(ledger: seq<Booking>, v: View, handed: seq<Batch>, items: seq<Item>, id: int, m: int,
                      topN: nat, maxRows: nat, rows: seq<Row>, meta: Meta)
    requires id in v && Gives(v, id, m, topN, maxRows, rows, meta) && AllBalanced(ledger, v, handed + [Batch(m, items)])
    ensures AllBalanced(ledger, Without1(v, id, m), handed + [Batch(m, NextItems(items, id, rows, meta))])
  {
    hide PairsKnown, SlotsBalanced, WholeBalanced, PairsBalanced, Without1, NextItems;
    KnownFlush(ledger, v, id, m);
    var after := handed + [Batch(m, NextItems(items, id, rows, meta))];
    forall k
      ensures SlotsBalanced(ledger, Without1(v, id, m), after, k)
      ensures WholeBalanced(ledger, Without1(v, id, m), after, k)
      ensures PairsBalanced(ledger, Without1(v, id, m), after, k)
    {
      SlotsFlush(ledger, v, handed, items, id, m, topN, maxRows, rows, meta, k);
      WholeFlush(ledger, v, handed, items, id, m, topN, maxRows, rows, meta, k);
      PairsFlush(ledger, v, handed, items, id, m, topN, maxRows, rows, meta, k);
    }
  }

  // ---------- with nothing left open ----------

  /** Everything due has been handed over. */
  ghost predicate Settled(ledger: seq<Booking>, handed: seq<Batch>, k: Metric) {
    // minute by minute of every exporter, unless what is due to it passes the largest counter
    && (forall id, x ::
         && 0 <= HandedAt(handed, id, x, k) <= SlotDue(ledger, id, x, k)
         && (SlotDue(ledger, id, x, k) <= MAX_INT64 ==> HandedAt(handed, id, x, k) == SlotDue(ledger, id, x, k)))
    // pair by pair, if the minute's pairs fit the table of other rows as well
    && (forall id, x, p :: Roomy(ledger, id, x, k) ==> PairHanded(handed, id, x, p, k) == PairDue(ledger, id, x, p, k))
    // and in all, unless some minute of some exporter is due more than a counter holds
    && Handed(handed, k) <= Ledger(ledger, k)
    && (Unclipped(ledger, k) ==> Handed(handed, k) == Ledger(ledger, k))
  }

  lemma NothingOpen(ledger: seq<Booking>, v: View, handed: seq<Batch>)
    requires AllBalanced(ledger, v, handed) && forall id :: id in v ==> v[id] == map[]
    ensures forall k :: Settled(ledger, handed, k)
  {
    hide PairsBooked, SlotDue, PairDue, HandedAt, PairHanded, Handed, Ledger, Roomy, PairTotal, MinuteTotal;
    forall k
      ensures Settled(ledger, handed, k)
    {
      NoneOpen(v, k);
      forall id, x
        ensures OpenAt(v, id, x, k) == 0
      {
        EmptyMeta(x);
      }
      forall id, x, p
        ensures PairOpen(v, id, x, p, k) == 0
      {
        NoPairTotal(x, p, k);
      }
      assert SlotsBalanced(ledger, v, handed, k) && WholeBalanced(ledger, v, handed, k) && PairsBalanced(ledger, v, handed, k);
      forall id, x
        ensures 0 <= HandedAt(handed, id, x, k) <= SlotDue(ledger, id, x, k)
        ensures SlotDue(ledger, id, x, k) <= MAX_INT64 ==> HandedAt(handed, id, x, k) == SlotDue(ledger, id, x, k)
      {
        assert Balanced(SlotDue(ledger, id, x, k), OpenAt(v, id, x, k), HandedAt(handed, id, x, k));
      }
    }
  }

  lemma NoneOpen(v: View, k: Metric)
    requires forall id :: id in v ==> v[id] == map[]
    ensures OpenTotal(v, k) == 0
  {
    var nothing: Minutes := map[];
    assert AggTotal(nothing, k) == 0;
    forall id | id in v
      ensures AggGauge(k)(v[id]) == 0
    {
      assert v[id] == nothing;
    }
    MapSumPad(map[], v, AggGauge(k));
  }
}
