/** An exporter's aggregator: booking datagrams and records in its open minutes
    (backend/internal/flow/aggregate.go:80-218). */
module FlowAggregator {
  import opened Arith
  import opened Sums
  import opened FlowAggregate
  import opened FlowSplit
  import opened FlowFlush
  import opened TopN

  // ---------- specification ----------

  function Booked(a: Minutes, f: NormFlow, lo: int, hi: int, s: Shares): Minutes
    decreases s
  {
    match s
    case Done => a
    case Share(m, v, rest) =>
      var x := Clamp(m, lo, hi);
      Booked(a[x := Book(MinuteOf(a, x), f, v)], f, lo, hi, rest)
  }

  predicate IsLate(r: Record, lo: int) { r.endMin < lo || r.startMin < lo }

  /** The open minutes after record f, read as r, in the window [lo, hi]. */
  function AddedRecord(a: Minutes, f: NormFlow, r: Record, lo: int, hi: int): Minutes
    requires r.Valid()
  {
    var a1 := Booked(a, f, lo, hi, Split(r, lo));
    if IsLate(r, lo) then a1[lo := MinuteOf(a1, lo).(late := MinuteOf(a1, lo).late + 1)] else a1
  }

  function Added(a: Minutes, f: NormFlow, now: Instant, nextFlush: int): Minutes {
    var (lo, hi) := Window(now, nextFlush);
    AddedRecord(a, f, Normalise(f, now), lo, hi)
  }

  /** Minutes m, m + 60, ..., hi are alive. */
  function AliveFrom(a: Minutes, m: int, hi: int): Minutes
    decreases Max(0, hi - m + 60)
  {
    if m > hi then a else AliveFrom(a[m := MinuteOf(a, m).(alive := true)], m + 60, hi)
  }

  /** The open minutes after a datagram. */
  function Marked(a: Minutes, now: Instant, nextFlush: int): Minutes {
    var (lo, hi) := Window(now, nextFlush);
    var b := AliveFrom(a, lo, hi);
    b[hi := MinuteOf(b, hi).(dgrams := MinuteOf(b, hi).dgrams + 1)]
  }

  // ---------- what the specification promises ----------

  ghost predicate Aligned(s: Shares) {
    match s
    case Done => true
    case Share(m, v, rest) => m % 60 == 0 && v.flows <= 1 && v != NOTHING && Aligned(rest)
  }

  lemma {:induction false} SharesFromAligned(r: Record, m: int)
    requires r.Valid() && r.startMs < r.endMs && m % 60 == 0
    ensures Aligned(SharesFrom(r, m))
    decreases Max(0, r.endMin - m + 60)
  {
    if m <= r.endMin {
      SharesFromAligned(r, m + 60);
    }
  }

  lemma SplitAligned(r: Record, lo: int)
    requires r.Valid() && lo % 60 == 0
    ensures Aligned(Split(r, lo))
  {
    if r.startMs < r.endMs {
      SharesFromAligned(r, Max(r.startMin, lo));
    }
  }

  /** Only minutes of the window are touched. */
  ghost predicate Within(a: Minutes, a': Minutes, lo: int, hi: int) {
    && a.Keys <= a'.Keys
    && (forall x :: x in a' && x !in a ==> lo <= x <= hi && x % 60 == 0)
    && (forall x :: x in a && !(lo <= x <= hi) ==> a'[x] == a[x])
  }

  /** The minutes' own totals are right, and no conversation is empty. */
  ghost predicate AllMetaAgree(a: Minutes) { forall x :: x in a ==> MetaAgrees(a[x]) && NoneIdle(a[x]) }

  lemma {:induction false} BookedWithin(a: Minutes, f: NormFlow, lo: int, hi: int, s: Shares)
    requires lo <= hi && lo % 60 == 0 && hi % 60 == 0 && Aligned(s)
    ensures Within(a, Booked(a, f, lo, hi, s), lo, hi)
    decreases s
  {
    match s
    case Done =>
    case Share(m, v, rest) =>
      var x := Clamp(m, lo, hi);
      BookedWithin(a[x := Book(MinuteOf(a, x), f, v)], f, lo, hi, rest);
  }

  lemma {:induction false} BookedMeta(a: Minutes, f: NormFlow, lo: int, hi: int, s: Shares)
    requires AllMetaAgree(a) && Aligned(s)
    ensures AllMetaAgree(Booked(a, f, lo, hi, s))
    decreases s
  {
    match s
    case Done =>
    case Share(m, v, rest) =>
      var x := Clamp(m, lo, hi);
      EmptyMeta(x);
      BookKeepsMeta(MinuteOf(a, x), f, v);
      BookKeepsBusy(MinuteOf(a, x), f, v);
      BookedMeta(a[x := Book(MinuteOf(a, x), f, v)], f, lo, hi, rest);
  }

  lemma EmptyMeta(x: int)
    ensures MetaAgrees(NewMinute(x)) && NoneIdle(NewMinute(x)) && forall k :: MinuteTotal(NewMinute(x), k) == 0
    ensures var mm := NewMinute(x);
      mm.start == x && !mm.alive && mm.dgrams == mm.records == mm.overflow == mm.late == 0 && mm.bytes == 0 && mm.sampling == 0
  {
  }

  /** The rounded credit up to a time, and what falls due between two times. */
  lemma ShareIs(r: Record, from: int, to: int)
    requires r.Valid() && r.startMs < r.endMs && r.Rounded() && from <= to
    ensures MulDiv(r.bytes, Elapsed(r.startMs, r.endMs, to), r.endMs - r.startMs) == r.bytesUpto(to)
    ensures MulDiv(r.packets, Elapsed(r.startMs, r.endMs, to), r.endMs - r.startMs) == r.packetsUpto(to)
    ensures r.bytesUpto(from) <= r.bytesUpto(to) && r.packetsUpto(from) <= r.packetsUpto(to)
  {
    hide MulDiv;
  }

  lemma BookedNone(a: Minutes, f: NormFlow, lo: int, hi: int)
    ensures Booked(a, f, lo, hi, Done) == a
  {
  }

  lemma AddedRecordWithin(a: Minutes, f: NormFlow, r: Record, lo: int, hi: int)
    requires r.Valid() && lo <= hi && lo % 60 == 0 && hi % 60 == 0
    ensures Within(a, AddedRecord(a, f, r, lo, hi), lo, hi)
    ensures AllMetaAgree(a) ==> AllMetaAgree(AddedRecord(a, f, r, lo, hi))
  {
    hide Split, Booked;
    var s := Split(r, lo);
    SplitAligned(r, lo);
    BookedWithin(a, f, lo, hi, s);
    if AllMetaAgree(a) {
      BookedMeta(a, f, lo, hi, s);
      LateMeta(Booked(a, f, lo, hi, s), lo);
    }
  }

  /** A record touches only the open window, and the minutes' own totals stay right. */
  lemma AddedWithin(a: Minutes, f: NormFlow, now: Instant, nextFlush: int)
    requires nextFlush % 60 == 0
    ensures var w := Window(now, nextFlush); Within(a, Added(a, f, now, nextFlush), w.0, w.1)
    ensures AllMetaAgree(a) ==> AllMetaAgree(Added(a, f, now, nextFlush))
  {
    var (lo, hi) := Window(now, nextFlush);
    AddedRecordWithin(a, f, Normalise(f, now), lo, hi);
  }

  lemma LateMeta(a: Minutes, x: int)
    requires AllMetaAgree(a)
    ensures AllMetaAgree(a[x := MinuteOf(a, x).(late := MinuteOf(a, x).late + 1)])
  {
    EmptyMeta(x);
  }

  lemma {:induction false} BookedTotal(a: Minutes, f: NormFlow, lo: int, hi: int, s: Shares, k: Metric)
    ensures Adds(AggTotal(a, k), Total(s, k), AggTotal(Booked(a, f, lo, hi, s), k))
    decreases s
  {
    AggNonNegative(a, k);
    match s
    case Done =>
    case Share(m, v, rest) =>
      var x := Clamp(m, lo, hi);
      var mm := Book(MinuteOf(a, x), f, v);
      BookTotal(MinuteOf(a, x), f, v, k);
      EmptyMeta(x);
      MapSumUpdate(a, MinuteGauge(k), x, mm);
      MinuteAtMostAll(a, x, k);
      BookedTotal(a[x := mm], f, lo, hi, rest, k);
  }

  lemma MinuteNonNegative(m: Minute, k: Metric)
    ensures 0 <= MinuteTotal(m, k)
  {
    MapSumNonNegative(m.keys, Gauge(k));
    MapSumNonNegative(m.other, Gauge(k));
  }

  lemma AggNonNegative(a: Minutes, k: Metric)
    ensures 0 <= AggTotal(a, k)
    ensures forall x :: x in a ==> 0 <= MinuteTotal(a[x], k) <= AggTotal(a, k)
  {
    forall x | x in a
      ensures 0 <= MinuteGauge(k)(a[x]) == MinuteTotal(a[x], k)
    {
      MinuteNonNegative(a[x], k);
    }
    MapSumNonNegative(a, MinuteGauge(k));
  }

  lemma MinuteAtMostAll(a: Minutes, x: int, k: Metric)
    ensures 0 <= MinuteTotal(MinuteOf(a, x), k) <= AggTotal(a, k)
  {
    AggNonNegative(a, k);
    EmptyMeta(x);
  }

  lemma AddedRecordTotal(a: Minutes, f: NormFlow, r: Record, lo: int, hi: int, k: Metric)
    requires r.Valid() && lo % 60 == 0
    ensures Adds(AggTotal(a, k), r.All(k) + r.Count(k), AggTotal(AddedRecord(a, f, r, lo, hi), k))
  {
    hide Booked, Split, AggTotal, MinuteOf;
    BookedTotal(a, f, lo, hi, Split(r, lo), k);
    SplitTotal(r, lo, k);
    var a1 := Booked(a, f, lo, hi, Split(r, lo));
    SameTotal(a1, lo, MinuteOf(a1, lo).(late := MinuteOf(a1, lo).late + 1), k);
  }

  /** Booking a record adds exactly its clamped bytes and packets and one flow to what the
      open minutes hold; where a counter saturates it adds less, never more. */
  lemma AddedTotal(a: Minutes, f: NormFlow, now: Instant, nextFlush: int, k: Metric)
    requires nextFlush % 60 == 0
    ensures var r := Normalise(f, now);
      Adds(AggTotal(a, k), r.All(k) + r.Count(k), AggTotal(Added(a, f, now, nextFlush), k))
  {
    var (lo, hi) := Window(now, nextFlush);
    AddedRecordTotal(a, f, Normalise(f, now), lo, hi, k);
  }

  lemma SameTotal(a: Minutes, x: int, mm: Minute, k: Metric)
    requires mm.keys == MinuteOf(a, x).keys && mm.other == MinuteOf(a, x).other
    ensures AggTotal(a[x := mm], k) == AggTotal(a, k)
  {
    EmptyMeta(x);
    MapSumUpdate(a, MinuteGauge(k), x, mm);
  }

  lemma {:induction false} BookedAt(a: Minutes, f: NormFlow, lo: int, hi: int, s: Shares, x: int, k: Metric)
    ensures Adds(MinuteTotal(MinuteOf(a, x), k), CreditAt(s, lo, hi, x, k),
                 MinuteTotal(MinuteOf(Booked(a, f, lo, hi, s), x), k))
    decreases s
  {
    MinuteNonNegative(MinuteOf(a, x), k);
    match s
    case Done =>
    case Share(m, v, rest) =>
      var y := Clamp(m, lo, hi);
      BookTotal(MinuteOf(a, y), f, v, k);
      BookedAt(a[y := Book(MinuteOf(a, y), f, v)], f, lo, hi, rest, x, k);
  }

  /** Every open minute of the window gains exactly its due share of the record. */
  lemma AddedByMinute(a: Minutes, f: NormFlow, now: Instant, nextFlush: int, x: int, k: Metric)
    requires nextFlush % 60 == 0 && x % 60 == 0
    requires var w := Window(now, nextFlush); w.0 <= x <= w.1
    ensures var w := Window(now, nextFlush);
      Adds(MinuteTotal(MinuteOf(a, x), k), Due(Normalise(f, now), w.0, w.1, x, k),
           MinuteTotal(MinuteOf(Added(a, f, now, nextFlush), x), k))
  {
    hide Normalise, Booked, Split, CreditAt, Due;
    var (lo, hi) := Window(now, nextFlush);
    var r := Normalise(f, now);
    BookedAt(a, f, lo, hi, Split(r, lo), x, k);
    SplitByMinute(r, lo, hi, x, k);
  }

  /** Nothing lands outside the window or between its minutes. */
  lemma {:induction false} CreditOutside(s: Shares, lo: int, hi: int, x: int, k: Metric)
    requires lo <= hi && lo % 60 == 0 && hi % 60 == 0 && Aligned(s) && !(x % 60 == 0 && lo <= x <= hi)
    ensures CreditAt(s, lo, hi, x, k) == 0
    decreases s
  {
    match s
    case Done =>
    case Share(m, v, rest) =>
      CreditOutside(rest, lo, hi, x, k);
  }

  /** What a record booked at now is due to bring to minute x. */
  function DueOf(f: NormFlow, now: Instant, nextFlush: int, x: int, k: Metric): int {
    var (lo, hi) := Window(now, nextFlush);
    if x % 60 == 0 && lo <= x <= hi then Due(Normalise(f, now), lo, hi, x, k) else 0
  }

  lemma CreditIsDue(f: NormFlow, now: Instant, nextFlush: int, x: int, k: Metric)
    requires nextFlush % 60 == 0
    ensures var w := Window(now, nextFlush);
      CreditAt(Split(Normalise(f, now), w.0), w.0, w.1, x, k) == DueOf(f, now, nextFlush, x, k)
  {
    hide Normalise, Split, CreditAt, Due, Aligned;
    var (lo, hi) := Window(now, nextFlush);
    var r := Normalise(f, now);
    if x % 60 == 0 && lo <= x <= hi {
      SplitByMinute(r, lo, hi, x, k);
    } else {
      SplitAligned(r, lo);
      CreditOutside(Split(r, lo), lo, hi, x, k);
    }
  }

  lemma LateTotal(a: Minutes, f: NormFlow, now: Instant, nextFlush: int, x: int, k: Metric)
    ensures var w := Window(now, nextFlush);
      MinuteTotal(MinuteOf(Added(a, f, now, nextFlush), x), k) ==
      MinuteTotal(MinuteOf(Booked(a, f, w.0, w.1, Split(Normalise(f, now), w.0)), x), k)
  {
    hide Booked, Split, Normalise;
  }

  /** Every minute, whichever it is, gains exactly what is due to it. */
  lemma AddedDue(a: Minutes, f: NormFlow, now: Instant, nextFlush: int, x: int, k: Metric)
    requires nextFlush % 60 == 0
    ensures Adds(MinuteTotal(MinuteOf(a, x), k), DueOf(f, now, nextFlush, x, k),
                 MinuteTotal(MinuteOf(Added(a, f, now, nextFlush), x), k))
  {
    hide Normalise, Booked, Split, CreditAt, DueOf, Added;
    var (lo, hi) := Window(now, nextFlush);
    BookedAt(a, f, lo, hi, Split(Normalise(f, now), lo), x, k);
    CreditIsDue(f, now, nextFlush, x, k);
    LateTotal(a, f, now, nextFlush, x, k);
  }

  lemma {:induction false} CreditNonNegative(s: Shares, lo: int, hi: int, x: int, k: Metric)
    ensures 0 <= CreditAt(s, lo, hi, x, k)
    decreases s
  {
    match s
    case Done =>
    case Share(m, v, rest) =>
      CreditNonNegative(rest, lo, hi, x, k);
  }

  /** No minute's own total passes the largest counter. */
  ghost predicate Fitting(a: Minutes, s: Shares, lo: int, hi: int, k: Metric) {
    forall x :: MinuteTotal(MinuteOf(a, x), k) + CreditAt(s, lo, hi, x, k) <= MAX_INT64
  }

  /** One share booked in a minute that has room for it. */
  lemma FittingStep(a: Minutes, f: NormFlow, lo: int, hi: int, m: int, v: AggVal, rest: Shares, k: Metric)
    requires Fitting(a, Share(m, v, rest), lo, hi, k)
    ensures var y := Clamp(m, lo, hi);
      var b := a[y := Book(MinuteOf(a, y), f, v)];
      Fitting(b, rest, lo, hi, k) && AggTotal(b, k) == AggTotal(a, k) + Of(v, k)
  {
    hide MinuteTotal, Book;
    var s, y := Share(m, v, rest), Clamp(m, lo, hi);
    var mm := Book(MinuteOf(a, y), f, v);
    var b := a[y := mm];
    assert MinuteTotal(MinuteOf(a, y), k) + CreditAt(s, lo, hi, y, k) <= MAX_INT64;
    CreditNonNegative(rest, lo, hi, y, k);
    BookTotal(MinuteOf(a, y), f, v, k);
    EmptyMeta(y);
    MapSumUpdate(a, MinuteGauge(k), y, mm);
    forall x
      ensures MinuteTotal(MinuteOf(b, x), k) + CreditAt(rest, lo, hi, x, k) <= MAX_INT64
    {
      assert MinuteTotal(MinuteOf(a, x), k) + CreditAt(s, lo, hi, x, k) <= MAX_INT64;
    }
  }

  /** The open minutes then gain all of a record. */
  lemma {:induction false} BookedExact(a: Minutes, f: NormFlow, lo: int, hi: int, s: Shares, k: Metric)
    requires Fitting(a, s, lo, hi, k)
    ensures AggTotal(Booked(a, f, lo, hi, s), k) == AggTotal(a, k) + Total(s, k)
    decreases s
  {
    hide Fitting, AggTotal, Book, MinuteOf;
    match s
    case Done =>
    case Share(m, v, rest) =>
      FittingStep(a, f, lo, hi, m, v, rest, k);
      var y := Clamp(m, lo, hi);
      BookedExact(a[y := Book(MinuteOf(a, y), f, v)], f, lo, hi, rest, k);
  }

  lemma AddedExact(a: Minutes, f: NormFlow, now: Instant, nextFlush: int, k: Metric)
    requires nextFlush % 60 == 0
    requires forall x :: MinuteTotal(MinuteOf(a, x), k) + DueOf(f, now, nextFlush, x, k) <= MAX_INT64
    ensures var r := Normalise(f, now);
      AggTotal(Added(a, f, now, nextFlush), k) == AggTotal(a, k) + r.All(k) + r.Count(k)
  {
    hide Normalise, Booked, Split, CreditAt, DueOf, MinuteTotal, MinuteOf, AggTotal;
    var (lo, hi) := Window(now, nextFlush);
    var r := Normalise(f, now);
    forall x
      ensures MinuteTotal(MinuteOf(a, x), k) + CreditAt(Split(r, lo), lo, hi, x, k) <= MAX_INT64
    {
      CreditIsDue(f, now, nextFlush, x, k);
    }
    BookedExact(a, f, lo, hi, Split(r, lo), k);
    SplitTotal(r, lo, k);
    var a1 := Booked(a, f, lo, hi, Split(r, lo));
    SameTotal(a1, lo, MinuteOf(a1, lo).(late := MinuteOf(a1, lo).late + 1), k);
  }

  /** Marking a minute books nothing. */
  lemma {:induction false} AliveKeeps(a: Minutes, m: int, lo: int, hi: int)
    requires lo <= m && m % 60 == 0 && hi % 60 == 0
    ensures Within(a, AliveFrom(a, m, hi), lo, hi)
    ensures AllMetaAgree(a) ==> AllMetaAgree(AliveFrom(a, m, hi))
    ensures forall k :: AggTotal(AliveFrom(a, m, hi), k) == AggTotal(a, k)
    decreases Max(0, hi - m + 60)
  {
    hide AggTotal, AllMetaAgree;
    if m <= hi {
      var mm := MinuteOf(a, m).(alive := true);
      Unbooked(a, m, mm);
      AliveKeeps(a[m := mm], m + 60, lo, hi);
    }
  }

  /** Replacing a minute by one with the same books. */
  lemma Unbooked(a: Minutes, x: int, mm: Minute)
    requires mm.keys == MinuteOf(a, x).keys && mm.other == MinuteOf(a, x).other
    requires mm.bytes == MinuteOf(a, x).bytes && mm.records == MinuteOf(a, x).records
    ensures AllMetaAgree(a) ==> AllMetaAgree(a[x := mm])
    ensures forall k :: AggTotal(a[x := mm], k) == AggTotal(a, k)
  {
    EmptyMeta(x);
    forall k
      ensures AggTotal(a[x := mm], k) == AggTotal(a, k)
    {
      SameTotal(a, x, mm, k);
    }
  }

  /** A datagram touches only the open window and books nothing. */
  lemma MarkedKeeps(a: Minutes, now: Instant, nextFlush: int)
    requires nextFlush % 60 == 0
    ensures var w := Window(now, nextFlush); Within(a, Marked(a, now, nextFlush), w.0, w.1)
    ensures AllMetaAgree(a) ==> AllMetaAgree(Marked(a, now, nextFlush))
    ensures forall k :: AggTotal(Marked(a, now, nextFlush), k) == AggTotal(a, k)
  {
    hide AggTotal, AllMetaAgree, AliveFrom;
    var (lo, hi) := Window(now, nextFlush);
    var b := AliveFrom(a, lo, hi);
    AliveKeeps(a, lo, lo, hi);
    Unbooked(b, hi, MinuteOf(b, hi).(dgrams := MinuteOf(b, hi).dgrams + 1));
  }

  lemma {:induction false} AliveBooks(a: Minutes, m: int, hi: int, x: int)
    ensures var mm, mm' := MinuteOf(a, x), MinuteOf(AliveFrom(a, m, hi), x); mm'.keys == mm.keys && mm'.other == mm.other
    decreases Max(0, hi - m + 60)
  {
    if m <= hi {
      AliveBooks(a[m := MinuteOf(a, m).(alive := true)], m + 60, hi, x);
    }
  }

  /** A datagram changes no minute's conversations or other rows. */
  lemma MarkedBooks(a: Minutes, now: Instant, nextFlush: int, x: int)
    ensures var mm, mm' := MinuteOf(a, x), MinuteOf(Marked(a, now, nextFlush), x);
      mm'.keys == mm.keys && mm'.other == mm.other
  {
    hide AliveFrom;
    var (lo, hi) := Window(now, nextFlush);
    AliveBooks(a, lo, hi, x);
  }

  lemma {:induction false} AliveAt(a: Minutes, m: int, hi: int, x: int)
    requires m % 60 == 0 && hi % 60 == 0 && x % 60 == 0
    ensures MinuteOf(AliveFrom(a, m, hi), x) ==
            MinuteOf(a, x).(alive := MinuteOf(a, x).alive || m <= x <= hi)
    decreases Max(0, hi - m + 60)
  {
    if m <= hi {
      AliveAt(a[m := MinuteOf(a, m).(alive := true)], m + 60, hi, x);
    }
  }

  /** A datagram makes every minute of the window alive and counts in the newest; it
      changes nothing else. */
  lemma MarkedAt(a: Minutes, now: Instant, nextFlush: int, x: int)
    requires nextFlush % 60 == 0 && x % 60 == 0
    ensures var w, mm := Window(now, nextFlush), MinuteOf(a, x);
      MinuteOf(Marked(a, now, nextFlush), x) ==
      mm.(alive := mm.alive || w.0 <= x <= w.1, dgrams := mm.dgrams + if x == w.1 then 1 else 0)
  {
    var (lo, hi) := Window(now, nextFlush);
    AliveAt(a, lo, hi, x);
  }

  lemma BookedUnless0(a: Minutes, f: NormFlow, lo: int, hi: int, m: int, v: AggVal, rest: Shares)
    ensures Booked(a, f, lo, hi, Unless0(m, v, rest)) ==
            Booked(Booked(a, f, lo, hi, Unless0(m, v, Done)), f, lo, hi, rest)
  {
  }

  // ---------- the aggregator ----------

  class Aggregator {
    var minutes: Minutes

    constructor ()
      ensures minutes == map[]
    {
      minutes := map[];
    }

    /** Books one share in the open minute nearest to m. */
    method Put(f: NormFlow, lo: int, hi: int, m: int, v: AggVal)
      modifies this
      ensures minutes == Booked(old(minutes), f, lo, hi, Share(m, v, Done))
    {
      var x := Clamp(m, lo, hi);
      var mm := MinuteOf(minutes, x);
      mm := mm.(bytes := SatAdd(mm.bytes, v.bytes), sampling := Max(mm.sampling, f.sampling));
      if v.flows > 0 {
        mm := mm.(records := mm.records + 1);
      }
      if !f.endpoints {
        mm := mm.(other := AddOther(mm.other, PairOf(f.key), v));
      } else if f.key in mm.keys {
        mm := mm.(keys := mm.keys[f.key := mm.keys[f.key].Add(v)]);
      } else if |mm.keys| >= MAX_KEYS_PER_MINUTE {
        if v.flows > 0 {
          mm := mm.(overflow := mm.overflow + 1);
        }
        mm := mm.(other := AddOther(mm.other, PairOf(f.key), v));
      } else {
        mm := mm.(keys := mm.keys[f.key := NOTHING.Add(v)]);
      }
      minutes := minutes[x := mm];
    }

    method MarkAlive(now: Instant, nextFlush: int)
      modifies this
      ensures minutes == Marked(old(minutes), now, nextFlush)
    {
      var (lo, hi) := Window(now, nextFlush);
      var m := lo;
      while m <= hi
        invariant AliveFrom(minutes, m, hi) == AliveFrom(old(minutes), lo, hi)
      {
        minutes := minutes[m := MinuteOf(minutes, m).(alive := true)];
        m := m + 60;
      }
      minutes := minutes[hi := MinuteOf(minutes, hi).(dgrams := MinuteOf(minutes, hi).dgrams + 1)];
    }

    method Oldest() returns (best: int, ok: bool)
      ensures ok ==> best in minutes
      ensures forall m :: m in minutes ==> ok && best <= m
    {
      best, ok := 0, false;
      var ms := Enumerate(minutes.Keys);
      ListLength(ms, minutes.Keys);
      for i := 0 to |ms|
        invariant ok == (i > 0)
        invariant ok ==> best in minutes && forall j :: 0 <= j < i ==> best <= ms[j]
      {
        assert ms[i] in ms;
        if !ok || ms[i] < best {
          best, ok := ms[i], true;
        }
      }
    }

    /** Removes minute m and returns its rows. */
    method FlushMinute(m: int, topN: nat, maxRows: nat) returns (rows: seq<Row>, meta: Meta)
      modifies this
      ensures minutes == old(minutes) - {m}
      ensures m in old(minutes) ==> IsFlushResult(old(minutes)[m], topN, maxRows, rows, meta)
      ensures m !in old(minutes) ==> rows == [] && meta == NoMeta
    {
      if m in minutes {
        var ifaces;
        ghost var perPair, kept, c;
        rows, meta, ifaces, perPair, kept, c := Flush(minutes[m], topN, maxRows);
      } else {
        rows, meta := [], NoMeta;
      }
      minutes := minutes - {m};
    }

    /** Splits f over the open minutes in proportion to its overlap with each. */
    method Add(f: NormFlow, now: Instant, nextFlush: int) returns (late: bool)
      requires nextFlush % 60 == 0
      modifies this
      ensures minutes == Added(old(minutes), f, now, nextFlush)
      ensures late == IsLate(Normalise(f, now), Window(now, nextFlush).0)
    {
      hide Book, Normalise;
      var (lo, hi) := Window(now, nextFlush);
      var r := Normalise(f, now);
      late := r.endMin < lo || r.startMin < lo;
      if r.endMs <= r.startMs {
        Put(f, lo, hi, r.endMin, AggVal(r.bytes, r.packets, 1));
      } else {
        AddShares(f, r, lo, hi);
      }
      if late {
        minutes := minutes[lo := MinuteOf(minutes, lo).(late := MinuteOf(minutes, lo).late + 1)];
      }
    }

    /** Books what falls due between times from and to; cum is the credited time up to to. */
    method ShareOut(f: NormFlow, r: Record, lo: int, hi: int, m: int, ghost from: int, ghost to: int,
                    cum: nat, doneB: nat, doneP: nat) returns (nb: nat, np: nat)
      requires r.Valid() && r.startMs < r.endMs && r.Rounded() && from <= to
      requires cum == Elapsed(r.startMs, r.endMs, to)
      requires doneB == r.bytesUpto(from) && doneP == r.packetsUpto(from)
      modifies this
      ensures nb == r.bytesUpto(to) && np == r.packetsUpto(to)
      ensures minutes == Booked(old(minutes), f, lo, hi, Unless0(m, Between(r, from, to), Done))
    {
      hide Booked, MulDiv, Book;
      ShareIs(r, from, to);
      BookedNone(minutes, f, lo, hi);
      var dur := r.endMs - r.startMs;
      nb, np := MulDiv(r.bytes, cum, dur), MulDiv(r.packets, cum, dur);
      if nb > doneB || np > doneP {
        Put(f, lo, hi, m, AggVal(nb - doneB, np - doneP, 0));
      }
    }

    /** The share loop of a record that lasts. */
    method AddShares(f: NormFlow, r: Record, lo: int, hi: int)
      requires r.Valid() && r.startMs < r.endMs && r.Rounded() && lo <= hi && lo % 60 == 0
      modifies this
      ensures minutes == Booked(old(minutes), f, lo, hi, Split(r, lo))
    {
      hide Booked, Between, MulDiv, Unless0, Min, Max, Elapsed;
      var dur := r.endMs - r.startMs;
      var cum, doneB, doneP := 0, 0, 0;
      var m := r.startMin;
      LoopStart(r, lo);
      if m < lo {
        cum := Min(Min(r.endMs, lo * 1000) - r.startMs, dur);
        SplitOverdue(r, lo);
        BookedUnless0(minutes, f, lo, hi, lo, Between(r, r.startMs, lo * 1000), SharesFrom(r, lo));
        doneB, doneP := ShareOut(f, r, lo, hi, lo, r.startMs, lo * 1000, cum, doneB, doneP);
        m := lo;
      }
      while m <= r.endMin && cum < dur
        invariant m % 60 == 0 && r.startMin <= m
        invariant cum == Elapsed(r.startMs, r.endMs, m * 1000)
        invariant doneB == r.bytesUpto(m * 1000) && doneP == r.packetsUpto(m * 1000)
        invariant Booked(minutes, f, lo, hi, SharesFrom(r, m)) == Booked(old(minutes), f, lo, hi, Split(r, lo))
      {
        ElapsedStep(r, m);
        var ov := Min(r.endMs, (m + 60) * 1000) - Max(r.startMs, m * 1000);
        if ov > 0 {
          cum := Min(cum + ov, dur);
          BookedUnless0(minutes, f, lo, hi, m, Between(r, m * 1000, (m + 60) * 1000), SharesFrom(r, m + 60));
          doneB, doneP := ShareOut(f, r, lo, hi, m, m * 1000, (m + 60) * 1000, cum, doneB, doneP);
        }
        m := m + 60;
      }
      LoopDone(r, m);
      assert doneB == r.bytes && doneP == r.packets; // the residual share is never needed
      NothingLeft(r, m);
      Put(f, lo, hi, r.endMin, AggVal(0, 0, 1));
    }
  }
}
