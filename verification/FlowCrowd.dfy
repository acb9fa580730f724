/** A minute with more interface pairs than its table of other rows holds, and what becomes
    of a pair's total in it (backend/internal/flow/aggregate.go:65-78, 286-308). */
module FlowCrowd {
  import opened Arith
  import opened Sums
  import opened TopN
  import opened FlowAggregate
  import opened FlowSplit
  import opened FlowFlush
  import opened FlowPairs
  import opened FlowAggregator
  import opened FlowBalance
  import opened FlowLedger

  const ONE := AggVal(1, 1, 1)

  /** A record of one byte and one packet at the time it is received. */
  function Brief(now: Instant, key: AggKey, endpoints: bool): NormFlow {
    NormFlow(key, endpoints, 1, 1, 1, now, now)
  }

  function Talked(): PairKey { PairKey(2, 1) }

  function TalkKey(j: nat): AggKey { AggKey(2, 1, 6, 443, j, 0) }

  /** First a record without endpoints of every pair (1, j), then conversations of one pair. */
  function Nth(now: Instant, i: nat): NormFlow {
    if i < MAX_KEYS_PER_MINUTE then Brief(now, AggKey(1, i, 0, 0, 0, 0), false)
    else Brief(now, TalkKey(i - MAX_KEYS_PER_MINUTE), true)
  }

  /** The first n records as booked, one datagram each. */
  function CrowdLedger(id: int, now: Instant, n: nat): (l: seq<Booking>)
    ensures |l| == n
  {
    seq(n, i requires 0 <= i < n => Booking(id, Nth(now, i), now, Next0(now)))
  }

  // ---------- booking the records ----------

  function Minute0(now: Instant): int { FloorMinute(Unix(now)) }

  function Next0(now: Instant): (n: int)
    ensures n % 60 == 0
  {
    StartAligned(Unix(now));
    FloorMinute(Unix(now)) - (MAX_OPEN_MINUTES - 1) * 60
  }

  lemma BriefRecord(now: Instant, key: AggKey, endpoints: bool)
    ensures var r := Normalise(Brief(now, key, endpoints), now);
      r.startMs == r.endMs && r.bytes == r.packets == 1 && r.startMin == r.endMin == Minute0(now)
    ensures Window(now, Next0(now)) == (Next0(now), Minute0(now))
  {
    hide FloorMinute;
  }

  /** Such a record is booked whole in the current minute. */
  lemma BriefAdded(a: Minutes, now: Instant, key: AggKey, endpoints: bool)
    ensures var f, m := Brief(now, key, endpoints), Minute0(now);
      Added(a, f, now, Next0(now)) == a[m := Book(MinuteOf(a, m), f, ONE)]
  {
    hide Normalise, Window, Book, FloorMinute;
    BriefRecord(now, key, endpoints);
    var f, m, r := Brief(now, key, endpoints), Minute0(now), Normalise(Brief(now, key, endpoints), now);
    var s := Split(r, Next0(now));
    assert s == Share(m, ONE, Done);
    assert Clamp(m, Next0(now), m) == m;
    BookedNone(a[m := Book(MinuteOf(a, m), f, ONE)], f, Next0(now), m);
  }

  lemma BriefDue(now: Instant, key: AggKey, endpoints: bool)
    ensures DueOf(Brief(now, key, endpoints), now, Next0(now), Minute0(now), Bytes) == 1
  {
    hide Normalise, Window, FloorMinute;
    BriefRecord(now, key, endpoints);
  }

  /** The other rows after n records without endpoints. */
  function Scanned(n: nat): (other: map<PairKey, AggVal>)
    ensures |other| == n && forall p :: p in other <==> p.inIf == 1 && p.outIf < n
  {
    if n == 0 then map[] else Scanned(n - 1)[PairKey(1, n - 1) := ONE]
  }

  function Talks(n: nat): (keys: map<AggKey, AggVal>)
    ensures |keys| == n && forall x :: x in keys ==> PairOf(x) == Talked() && x.src < n && keys[x] == ONE
  {
    if n == 0 then map[] else Talks(n - 1)[TalkKey(n - 1) := ONE]
  }

  lemma BookScan(mm: Minute, now: Instant, i: nat)
    requires mm.other == Scanned(i) && i < MAX_KEYS_PER_MINUTE
    ensures var mm' := Book(mm, Nth(now, i), ONE); mm'.keys == mm.keys && mm'.other == Scanned(i + 1)
  {
  }

  lemma BookTalk(mm: Minute, now: Instant, i: nat)
    requires mm.keys == Talks(i) && i < MAX_KEYS_PER_MINUTE
    ensures var mm' := Book(mm, Nth(now, MAX_KEYS_PER_MINUTE + i), ONE);
      mm'.keys == Talks(i + 1) && mm'.other == mm.other
  {
    assert TalkKey(i) !in Talks(i);
  }

  /** The current minute holds the first n records. */
  ghost predicate Crowded(a: Minutes, now: Instant, n: nat) {
    var mm := MinuteOf(a, Minute0(now));
    && mm.keys == Talks(Max(0, n - MAX_KEYS_PER_MINUTE))
    && mm.other == Scanned(Min(n, MAX_KEYS_PER_MINUTE))
  }

  lemma NobodyYet(now: Instant)
    ensures Crowded(map[], now, 0)
  {
  }

  lemma CrowdNext(a: Minutes, now: Instant, i: nat)
    requires i < 2 * MAX_KEYS_PER_MINUTE && Crowded(a, now, i)
    ensures var b := Added(a, Nth(now, i), now, Next0(now)); Minute0(now) in b && Crowded(b, now, i + 1)
  {
    hide Added, Book, FloorMinute, Talks, Scanned;
    var f, mm := Nth(now, i), MinuteOf(a, Minute0(now));
    BriefAdded(a, now, f.key, f.endpoints);
    if i < MAX_KEYS_PER_MINUTE {
      BookScan(mm, now, i);
    } else {
      BookTalk(mm, now, i - MAX_KEYS_PER_MINUTE);
    }
  }

  /** One more datagram with one record. */
  lemma CrowdReceived(a: Minutes, now: Instant, i: nat)
    requires i < 2 * MAX_KEYS_PER_MINUTE && Crowded(a, now, i)
    ensures var b := Received(a, [Nth(now, i)], now, Next0(now)); Minute0(now) in b && Crowded(b, now, i + 1)
  {
    hide Added, Marked, FloorMinute, Talks, Scanned, Nth;
    var b, fs := Marked(a, now, Next0(now)), [Nth(now, i)];
    MarkedBooks(a, now, Next0(now), Minute0(now));
    CrowdNext(b, now, i);
    assert fs[..|fs| - 1] == [] && AddedAll(b, [], now, Next0(now)) == b;
    assert Received(a, fs, now, Next0(now)) == Added(b, Nth(now, i), now, Next0(now));
  }

  // ---------- what is due ----------

  lemma LedgerNext(id: int, now: Instant, n: nat)
    requires n > 0
    ensures CrowdLedger(id, now, n) == CrowdLedger(id, now, n - 1) + [Booking(id, Nth(now, n - 1), now, Next0(now))]
    ensures CrowdLedger(id, now, n) == CrowdLedger(id, now, n - 1) + Bookings(id, [Nth(now, n - 1)], now, Next0(now))
    ensures DueAt(Booking(id, Nth(now, n - 1), now, Next0(now)), Minute0(now), Bytes) == 1
  {
    hide DueOf, FloorMinute;
    var f := Nth(now, n - 1);
    BriefDue(now, f.key, f.endpoints);
  }

  /** The conversations' pair is due a byte for each of them. */
  lemma {:induction false} CrowdDue(id: int, now: Instant, n: nat)
    ensures PairDue(CrowdLedger(id, now, n), id, Minute0(now), Talked(), Bytes) ==
            Max(0, n - MAX_KEYS_PER_MINUTE)
    decreases n
  {
    if n > 0 {
      hide DueAt, FloorMinute, CrowdLedger, PairDue;
      LedgerNext(id, now, n);
      CrowdDue(id, now, n - 1);
      LedgerMore(CrowdLedger(id, now, n - 1), Booking(id, Nth(now, n - 1), now, Next0(now)),
                 id, Minute0(now), Talked(), Bytes);
    }
  }

  function PairsOfCrowd(n: nat): set<PairKey> {
    Scanned(Min(n, MAX_KEYS_PER_MINUTE)).Keys + if n > MAX_KEYS_PER_MINUTE then {Talked()} else {}
  }

  lemma ScannedMore(i: nat)
    ensures Scanned(i + 1).Keys == Scanned(i).Keys + {PairKey(1, i)}
  {
  }

  lemma PairsOfCrowdMore(now: Instant, n: nat)
    requires n > 0
    ensures PairsOfCrowd(n) == PairsOfCrowd(n - 1) + {PairOf(Nth(now, n - 1).key)}
  {
    hide Scanned;
    if n <= MAX_KEYS_PER_MINUTE {
      ScannedMore(n - 1);
    }
  }

  /** Every pair of the records was booked in the minute. */
  lemma {:induction false} CrowdPairs(id: int, now: Instant, n: nat)
    ensures PairsBooked(CrowdLedger(id, now, n), id, Minute0(now)) == PairsOfCrowd(n)
    decreases n
  {
    if n > 0 {
      hide DueAt, FloorMinute, CrowdLedger, PairsBooked, PairsOfCrowd, Nth;
      LedgerNext(id, now, n);
      CrowdPairs(id, now, n - 1);
      PairsOfCrowdMore(now, n);
      BookedMore(CrowdLedger(id, now, n - 1), Booking(id, Nth(now, n - 1), now, Next0(now)),
                 id, Minute0(now));
    }
  }

  lemma BookedMore(l: seq<Booking>, b: Booking, id: int, x: int)
    requires b.id == id && DueAt(b, x, Bytes) != 0
    ensures PairsBooked(l + [b], id, x) == PairsBooked(l, id, x) + {PairOf(b.f.key)}
  {
    hide DueAt;
    assert Touches(b, x);
    PairsMoreBooked(l, b, id, x);
  }

  // ---------- what is handed over ----------

  lemma {:induction false} OneEach(s: seq<Keyed>, other: map<PairKey, AggVal>)
    requires Talked() !in other && forall x :: x in s ==> PairOf(x.k) == Talked() && x.v == ONE
    ensures SeqSum(s, PairGauge(Talked(), Bytes)) == SeqSum(s, StrayGauge(other, Bytes)) == |s|
    ensures SeqSum(s, PairGauge(CatchAll(), Bytes)) == 0
    decreases |s|
  {
    if s != [] {
      assert s[|s| - 1] in s;
      OneEach(s[..|s| - 1], other);
    }
  }

  lemma {:induction false} ItemsSize(m: map<AggKey, AggVal>)
    ensures |Items(m)| == |m|
    decreases |m|
  {
    if m == map[] {
      assert Items(m) == {};
    } else {
      var k :| k in m;
      MapMinusSize(m, k);
      ItemsMinus(m, Keyed(k, m[k]));
      ItemsSize(m - {k});
    }
  }

  lemma KeptOfTalks(mm: Minute, topN: nat, maxRows: nat, perPair: set<Keyed>, kept: set<Keyed>, c: Cut)
    requires mm.keys == Talks(topN + 1) && IsCut(mm, topN, maxRows, perPair, kept, c)
    ensures |c.kept| == Least(maxRows, topN) && |c.kept| + |c.folded| == topN + 1
    ensures forall x :: x in c.kept || x in c.folded ==> PairOf(x.k) == Talked() && x.v == ONE
  {
    hide FoldedOther, Talks;
    var S := Items(mm.keys);
    ItemsSize(mm.keys);
    assert OfPair(S, Talked()) == S;
    assert OfPair(perPair, Talked()) == perPair;
    assert IsTop(OfPair(S, Talked()), OfPair(perPair, Talked()), topN, ByBytesThenKey);
    ListLength(c.kept, kept);
    ListLength(c.folded, S - kept);
    assert S == kept + (S - kept);
  }

  lemma NoRow(mm: Minute, all: seq<Keyed>, p: PairKey)
    requires p !in mm.other
    ensures At(mm.other, p, Bytes) == 0 && HeldBy(mm, all, p, Bytes) == SeqSum(all, PairGauge(p, Bytes))
  {
  }

  /** However the minute is flushed, all but the kept conversations end in the catch-all pair. */
  lemma CrowdFlushed(mm: Minute, topN: nat, maxRows: nat, rows: seq<Row>, meta: Meta)
    requires topN < MAX_KEYS_PER_MINUTE && mm.keys == Talks(topN + 1) && mm.other == Scanned(MAX_KEYS_PER_MINUTE)
    requires IsFlushResult(mm, topN, maxRows, rows, meta)
    ensures SeqSum(rows, RowPairGauge(Talked(), Bytes)) == Least(maxRows, topN)
    ensures SeqSum(rows, RowPairGauge(CatchAll(), Bytes)) == topN + 1 - Least(maxRows, topN)
  {
    hide IsCut, IsFlushed, SeqSum, Talks, Lists, Items, Scanned, At, HeldBy, Least;
    var perPair: set<Keyed>, kept: set<Keyed>, c: Cut :|
      IsCut(mm, topN, maxRows, perPair, kept, c) && IsFlushed(mm, c, rows, meta);
    var all := c.kept + c.folded;
    CutLists(mm, topN, maxRows, perPair, kept, c);
    KeptOfTalks(mm, topN, maxRows, perPair, kept, c);
    OneEach(all, mm.other);
    OneEach(c.kept, mm.other);
    OneEach(c.folded, mm.other);
    NoRow(mm, all, Talked());
    NoRow(mm, all, CatchAll());
    CrowdedLoses(mm, topN, maxRows, perPair, kept, c, rows, meta, all, Talked(), Bytes);
  }

  lemma ItemsOnce(items: seq<Item>, v: View, m: int, n: nat, r: nat, id: int, g: Row -> int, total: int)
    requires ItemsOf(items, v, v.Keys, m, n, r) && id in v && m in v[id]
    requires forall rows, meta :: IsFlushResult(v[id][m], n, r, rows, meta) ==> SeqSum(rows, g) == total
    ensures SeqSum(items, ItemGauge(id, g)) == total
  {
    hide IsFlushResult, SeqSum;
    if i :| 0 <= i < |items| && items[i].id == id {
      forall j | 0 <= j < |items| && j != i
        ensures ItemGauge(id, g)(items[j]) == 0
      {
        assert items[j].id != id;
      }
      SeqSumOnly(items, i, ItemGauge(id, g));
    } else {
      SeqSumZero(items, ItemGauge(id, g));
      SeqSumNone(g);
    }
  }

  lemma SeqSumNone(g: Row -> int)
    ensures SeqSum([], g) == 0
  {
  }

  /** A range of minutes hands every open minute over once. */
  lemma HandedOnce(s: seq<Batch>, v: View, a: int, b: int, n: nat, r: nat, id: int, x: int, g: Row -> int, total: int)
    requires BatchesOf(s, v, a, b, n, r) && id in v && x in v[id] && a <= x < b
    requires forall rows, meta :: IsFlushResult(v[id][x], n, r, rows, meta) ==> SeqSum(rows, g) == total
    ensures HandedSum(s, id, x, g) == total
  {
    hide IsFlushResult, SeqSum, ItemsOf;
    var i :| 0 <= i < |s| && s[i].minute == x;
    ItemsOnce(s[i].items, v, x, n, r, id, g, total);
    forall j | 0 <= j < |s| && j != i
      ensures BatchGauge(id, x, g)(s[j]) == 0
    {
      assert s[j].minute != x;
    }
    SeqSumOnly(s, i, BatchGauge(id, x, g));
  }

  // ---------- the collector around it ----------

  /** A flush check at the time of the records changes nothing. */
  lemma CrowdCheck(v: View, now: Instant)
    ensures StartFlush(Next0(now), now) == NextFlush(Next0(now), now) == Next0(now)
    ensures AfterFlush(v, Next0(now), now) == v
  {
    hide FloorMinute;
    OutsideNothing(v, Next0(now), Next0(now));
  }

  lemma EmptyRange(batches: seq<Batch>, v: View, a: int, n: nat, r: nat)
    ensures BatchesOf(batches, v, a, a, n, r) ==> batches == []
  {
    hide BatchOf;
    if batches != [] {
      assert !(a <= batches[0].minute < a);
    }
  }

  lemma CrowdSize(n: nat)
    requires n > MAX_KEYS_PER_MINUTE
    ensures |PairsOfCrowd(n)| == MAX_KEYS_PER_MINUTE + 1
  {
    hide Scanned;
    var other := Scanned(MAX_KEYS_PER_MINUTE);
    assert PairsOfCrowd(n) == other.Keys + {Talked()} && Talked() !in other.Keys;
  }

  lemma CrowdLedgerIs(id: int, now: Instant, topN: nat)
    ensures var l, m := CrowdLedger(id, now, MAX_KEYS_PER_MINUTE + topN + 1), Minute0(now);
      |PairsBooked(l, id, m)| == MAX_KEYS_PER_MINUTE + 1 && PairDue(l, id, m, Talked(), Bytes) == topN + 1
  {
    hide PairsBooked, PairDue, CrowdLedger, PairsOfCrowd, FloorMinute;
    var n := MAX_KEYS_PER_MINUTE + topN + 1;
    CrowdDue(id, now, n);
    CrowdPairs(id, now, n);
    CrowdSize(n);
  }

  lemma CrowdHanded(s: seq<Batch>, v: View, id: int, now: Instant, topN: nat, maxRows: nat)
    requires topN < MAX_KEYS_PER_MINUTE && id in v && Minute0(now) in v[id]
    requires Crowded(v[id], now, MAX_KEYS_PER_MINUTE + topN + 1)
    requires exists first, end ::
      (forall id, m :: id in v && m in v[id] ==> first <= m < end) && BatchesOf(s, v, first, end, topN, maxRows)
    ensures PairHanded(s, id, Minute0(now), Talked(), Bytes) == Least(maxRows, topN)
    ensures PairHanded(s, id, Minute0(now), CatchAll(), Bytes) == topN + 1 - Least(maxRows, topN)
  {
    hide BatchesOf, IsFlushResult, SeqSum, Scanned, Talks, FloorMinute, HandedSum;
    var mm := v[id][Minute0(now)];
    forall rows, meta | IsFlushResult(mm, topN, maxRows, rows, meta)
      ensures SeqSum(rows, RowPairGauge(Talked(), Bytes)) == Least(maxRows, topN)
      ensures SeqSum(rows, RowPairGauge(CatchAll(), Bytes)) == topN + 1 - Least(maxRows, topN)
    {
      CrowdFlushed(mm, topN, maxRows, rows, meta);
    }
    var first, end :|
      (forall id, m :: id in v && m in v[id] ==> first <= m < end) && BatchesOf(s, v, first, end, topN, maxRows);
    HandedOnce(s, v, first, end, topN, maxRows, id, Minute0(now), RowPairGauge(Talked(), Bytes), Least(maxRows, topN));
    HandedOnce(s, v, first, end, topN, maxRows, id, Minute0(now), RowPairGauge(CatchAll(), Bytes),
               topN + 1 - Least(maxRows, topN));
  }
}
