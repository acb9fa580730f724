/** What a flow record brings to each open minute, told from the record's own fields: the
    part of its time that falls in the minute (backend/internal/flow/aggregate.go:138-218). */
module FlowShares {
  import opened Arith
  import opened FlowAggregate
  import opened FlowSplit
  import opened FlowAggregator

  /** Minute m is open: not flushed yet, begun in the last three minutes, and not ahead of the
      clock unless it is the next to be flushed. */
  predicate IsOpen(now: Instant, nextFlush: int, m: int) {
    && m % 60 == 0 && nextFlush <= m && now / 1_000_000_000 < m + 180
    && (m <= now / 1_000_000_000 || m == nextFlush)
  }

  lemma OnTheMinute(m: int, start: int, u: int)
    requires m % 60 == 0 && start % 60 == 0 && start <= u < start + 60
    ensures (m <= u <==> m <= start) && (u < m + 180 <==> start - 120 <= m)
  {
  }

  lemma WindowIs(now: Instant, nextFlush: int, m: int)
    requires nextFlush % 60 == 0
    ensures var w := Window(now, nextFlush); w.0 <= m <= w.1 && m % 60 == 0 <==> IsOpen(now, nextFlush, m)
  {
    hide FloorMinute;
    var u := Unix(now);
    if m % 60 == 0 {
      OnTheMinute(m, FloorMinute(u), u);
      OnTheMinute(nextFlush, FloorMinute(u), u);
    }
  }

  /** The first open minute is the one before which none is open, and so the last. */
  lemma WindowEnds(now: Instant, nextFlush: int, x: int)
    requires nextFlush % 60 == 0 && IsOpen(now, nextFlush, x)
    ensures var w := Window(now, nextFlush);
      && w.0 <= x <= w.1
      && (x == w.0 <==> !IsOpen(now, nextFlush, x - 60)) && (x == w.1 <==> !IsOpen(now, nextFlush, x + 60))
  {
    hide Window, IsOpen;
    WindowIs(now, nextFlush, x);
    WindowIs(now, nextFlush, x - 60);
    WindowIs(now, nextFlush, x + 60);
    assert Window(now, nextFlush).0 % 60 == 0 && Window(now, nextFlush).1 % 60 == 0;
  }

  /** When a record is taken to end: at its own end, unless that lies more than a minute ahead. */
  function EndOf(f: NormFlow, now: Instant): Instant { if f.end <= now + 60_000_000_000 then f.end else now }

  lemma NormaliseTimes(f: NormFlow, now: Instant)
    ensures var r, end := Normalise(f, now), EndOf(f, now);
      && r.startMs == (if f.start < end then f.start else end) / 1_000_000 && r.endMs == end / 1_000_000
      && r.endMin % 60 == 0 && r.endMin <= end / 1_000_000_000 < r.endMin + 60
      && r.startMin % 60 == 0 && r.startMin <= (if f.start < end then f.start else end) / 1_000_000_000 < r.startMin + 60
  {
  }

  lemma NormaliseValues(f: NormFlow, now: Instant)
    ensures var r := Normalise(f, now);
      && (f.bytes < 0 ==> r.bytes == 0) && (0 <= f.bytes <= 0x1_0000_0000_0000 ==> r.bytes == f.bytes)
      && (0x1_0000_0000_0000 < f.bytes ==> r.bytes == 0x1_0000_0000_0000)
      && (f.packets < 0 ==> r.packets == 0) && (0 <= f.packets <= 0x1_0000_0000_0000 ==> r.packets == f.packets)
      && (0x1_0000_0000_0000 < f.packets ==> r.packets == 0x1_0000_0000_0000)
  {
  }

  /** How much of [a, b) (milliseconds) lies in minute x (seconds); the first open minute
      reaches back without end, the last ahead. */
  function Overlap(a: int, b: int, first: bool, last: bool, x: int): nat {
    var from := if first then a else Max(a, x * 1000);
    var to := if last then b else Min(b, (x + 60) * 1000);
    Max(0, to - from)
  }

  /** Time t (seconds) lies in minute x, or before the first or after the last open minute. */
  predicate Holds(t: int, first: bool, last: bool, x: int) { (first || x <= t) && (last || t < x + 60) }

  /** q is within one unit of v * part / whole. */
  predicate Near(q: int, v: int, part: int, whole: int) { -whole < q * whole - v * part < whole }

  lemma UptoIs(r: Record, t: int, k: Metric)
    requires r.Valid() && r.startMs < r.endMs && r.Rounded() && k != Flows
    ensures 0 <= r.All(k) <= MAX_FLOW_VALUE
    ensures r.Upto(t, k) == UptoValue(r.All(k), r.startMs, r.endMs, t)
    ensures r.endMs <= t ==> r.Upto(t, k) == r.All(k)
    ensures t <= r.startMs ==> r.Upto(t, k) == 0
  {
    assert Elapsed(r.startMs, r.endMs, t) >= 0;
  }

  /** The two ends of what minute x is due. */
  lemma DueBetween(r: Record, lo: int, hi: int, x: int, k: Metric)
    requires r.Valid() && r.startMs < r.endMs && r.Rounded() && k != Flows && lo <= x <= hi
    ensures var from := if x == lo then Min(r.startMs, x * 1000) else x * 1000;
      var to := if x == hi then Max(r.endMs, (x + 60) * 1000) else (x + 60) * 1000;
      && from <= to
      && Due(r, lo, hi, x, k) == UptoValue(r.All(k), r.startMs, r.endMs, to) - UptoValue(r.All(k), r.startMs, r.endMs, from)
      && Elapsed(r.startMs, r.endMs, to) - Elapsed(r.startMs, r.endMs, from) == Overlap(r.startMs, r.endMs, x == lo, x == hi, x)
  {
    hide UptoValue, Record.Valid, Record.Rounded;
    var from := if x == lo then Min(r.startMs, x * 1000) else x * 1000;
    var to := if x == hi then Max(r.endMs, (x + 60) * 1000) else (x + 60) * 1000;
    UptoIs(r, from, k);
    UptoIs(r, to, k);
  }

  lemma DueNear(r: Record, lo: int, hi: int, x: int, k: Metric)
    requires r.Valid() && r.startMs < r.endMs && r.Rounded() && k != Flows && lo <= x <= hi
    ensures Near(Due(r, lo, hi, x, k), r.All(k), Overlap(r.startMs, r.endMs, x == lo, x == hi, x), r.endMs - r.startMs)
  {
    hide UptoValue, Record.Valid, Record.Rounded, Due, Elapsed, Overlap;
    var from := if x == lo then Min(r.startMs, x * 1000) else x * 1000;
    var to := if x == hi then Max(r.endMs, (x + 60) * 1000) else (x + 60) * 1000;
    DueBetween(r, lo, hi, x, k);
    UptoIs(r, from, k);
    ShareNearProportion(r.All(k), r.startMs, r.endMs, from, to);
  }

  /** The value of a record that is divided over its time. */
  function Divided(f: NormFlow, k: Metric): nat {
    match k
    case Bytes => Clamp(f.bytes, 0, 0x1_0000_0000_0000)
    case Packets => Clamp(f.packets, 0, 0x1_0000_0000_0000)
    case Flows => 0
  }

  /** The minute that counts the record. */
  lemma CountedIn(end: int, endMin: int, lo: int, hi: int, x: int)
    requires lo % 60 == 0 && hi % 60 == 0 && x % 60 == 0 && endMin % 60 == 0 && lo <= x <= hi && endMin <= end < endMin + 60
    ensures x == Clamp(endMin, lo, hi) <==> Holds(end, x == lo, x == hi, x)
  {
  }

  /** What open minute x is due of a record: the part of the record's value, within one unit,
      that its time in the minute is of its whole time, and all of the value in the minute
      that counts it when it takes no time. */
  ghost predicate IsShare(q: int, f: NormFlow, now: Instant, nextFlush: int, x: int, k: Metric) {
    var first, last := !IsOpen(now, nextFlush, x - 60), !IsOpen(now, nextFlush, x + 60);
    var end := EndOf(f, now);
    var from, to := Min(f.start, end) / 1_000_000, end / 1_000_000;
    var counted := Holds(end / 1_000_000_000, first, last, x);
    match k
    case Flows => q == if counted then 1 else 0
    case _ =>
      if from < to then Near(q, Divided(f, k), Overlap(from, to, first, last, x), to - from)
      else q == if counted then Divided(f, k) else 0
  }

  lemma RecordShare(r: Record, lo: int, hi: int, x: int, k: Metric, counted: bool)
    requires r.Valid() && lo <= x <= hi && (counted <==> x == Clamp(r.endMin, lo, hi))
    requires r.startMs < r.endMs ==> r.Rounded()
    ensures var q := Due(r, lo, hi, x, k);
      match k
      case Flows => q == if counted then 1 else 0
      case _ =>
        if r.startMs < r.endMs
        then Near(q, r.All(k), Overlap(r.startMs, r.endMs, x == lo, x == hi, x), r.endMs - r.startMs)
        else q == if counted then r.All(k) else 0
  {
    hide Near, Overlap, Record.Valid, Clamp;
    if r.startMs < r.endMs && k != Flows {
      DueNear(r, lo, hi, x, k);
    }
  }

  lemma DueIsShare(f: NormFlow, now: Instant, nextFlush: int, x: int, k: Metric)
    requires nextFlush % 60 == 0 && IsOpen(now, nextFlush, x)
    ensures IsShare(DueOf(f, now, nextFlush, x, k), f, now, nextFlush, x, k)
  {
    hide Normalise, Window, IsOpen, Overlap, Holds, Near, Due, Clamp;
    var (lo, hi) := Window(now, nextFlush);
    var r, end := Normalise(f, now), EndOf(f, now) / 1_000_000_000;
    NormaliseTimes(f, now);
    RecordValue(f, now, k);
    WindowEnds(now, nextFlush, x);
    WindowIs(now, nextFlush, x);
    CountedIn(end, r.endMin, lo, hi, x);
    RecordShare(r, lo, hi, x, k, Holds(end, x == lo, x == hi, x));
  }

  lemma RecordValue(f: NormFlow, now: Instant, k: Metric)
    ensures Normalise(f, now).All(k) == Divided(f, k)
  {
    hide Normalise;
    NormaliseValues(f, now);
  }

  lemma UptoAtMost(r: Record, t: int, k: Metric)
    requires r.Valid() && r.startMs < r.endMs
    ensures 0 <= r.Upto(t, k) <= r.All(k)
  {
    var late := Max(t, r.endMs);
    assert r.bytesUpto(t) <= r.bytesUpto(late) && r.packetsUpto(t) <= r.packetsUpto(late);
  }

  lemma RecordAtMost(r: Record, lo: int, hi: int, x: int, k: Metric)
    requires r.Valid()
    ensures Due(r, lo, hi, x, k) <= r.All(k) + r.Count(k)
  {
    if r.startMs < r.endMs {
      hide Record.Valid;
      UptoAtMost(r, (x + 60) * 1000, k);
      UptoAtMost(r, x * 1000, k);
    }
  }

  lemma DueAtMost(f: NormFlow, now: Instant, nextFlush: int, x: int, k: Metric)
    ensures DueOf(f, now, nextFlush, x, k) <= if k == Flows then 1 else Divided(f, k)
  {
    hide Normalise, Window, Due;
    var (lo, hi) := Window(now, nextFlush);
    RecordValue(f, now, k);
    RecordAtMost(Normalise(f, now), lo, hi, x, k);
  }

  /** A record booked at now: an open minute gains its share, up to saturation of its counters,
      and no other minute gains anything. */
  lemma AddedShare(a: Minutes, f: NormFlow, now: Instant, nextFlush: int, x: int, k: Metric)
    requires nextFlush % 60 == 0
    requires MinuteTotal(MinuteOf(a, x), k) + (if k == Flows then 1 else Divided(f, k)) <= MAX_INT64
    ensures var gained := MinuteTotal(MinuteOf(Added(a, f, now, nextFlush), x), k) - MinuteTotal(MinuteOf(a, x), k);
      if IsOpen(now, nextFlush, x) then IsShare(gained, f, now, nextFlush, x, k) else gained == 0
  {
    hide Added, DueOf, MinuteTotal, IsShare, IsOpen, Divided;
    AddedDue(a, f, now, nextFlush, x, k);
    if IsOpen(now, nextFlush, x) {
      DueIsShare(f, now, nextFlush, x, k);
      DueAtMost(f, now, nextFlush, x, k);
    } else {
      NothingDue(f, now, nextFlush, x, k);
    }
  }

  lemma NothingDue(f: NormFlow, now: Instant, nextFlush: int, x: int, k: Metric)
    requires nextFlush % 60 == 0 && !IsOpen(now, nextFlush, x)
    ensures DueOf(f, now, nextFlush, x, k) == 0
  {
    hide Window, IsOpen;
    WindowIs(now, nextFlush, x);
  }

  // ---------- late records ----------

  /** A record is late when it began before every open minute. */
  lemma LateIs(f: NormFlow, now: Instant, nextFlush: int, x: int)
    requires nextFlush % 60 == 0 && IsOpen(now, nextFlush, x) && !IsOpen(now, nextFlush, x - 60)
    ensures x == Window(now, nextFlush).0
    ensures IsLate(Normalise(f, now), x) <==> Min(f.start, EndOf(f, now)) / 1_000_000_000 < x
  {
    hide Window, Normalise;
    WindowEnds(now, nextFlush, x);
    NormaliseTimes(f, now);
    var r, end := Normalise(f, now), EndOf(f, now);
    OnTheMinute(x, r.startMin, Min(f.start, end) / 1_000_000_000);
    OnTheMinute(x, r.endMin, end / 1_000_000_000);
  }

  lemma {:induction false} BookedLate(a: Minutes, f: NormFlow, lo: int, hi: int, s: Shares, x: int)
    ensures MinuteOf(Booked(a, f, lo, hi, s), x).late == MinuteOf(a, x).late
    decreases s
  {
    match s
    case Done =>
    case Share(m, v, rest) =>
      var y := Clamp(m, lo, hi);
      BookedLate(a[y := Book(MinuteOf(a, y), f, v)], f, lo, hi, rest, x);
  }

  /** A late record is counted once, in the first open minute. */
  lemma AddedLate(a: Minutes, f: NormFlow, now: Instant, nextFlush: int, x: int)
    requires nextFlush % 60 == 0
    ensures var first := IsOpen(now, nextFlush, x) && !IsOpen(now, nextFlush, x - 60);
      MinuteOf(Added(a, f, now, nextFlush), x).late ==
      MinuteOf(a, x).late + if first && Min(f.start, EndOf(f, now)) / 1_000_000_000 < x then 1 else 0
  {
    hide Window, Normalise, Booked, IsOpen, IsLate, Split;
    var (lo, hi) := Window(now, nextFlush);
    BookedLate(a, f, lo, hi, Split(Normalise(f, now), lo), x);
    WindowIs(now, nextFlush, lo);
    WindowIs(now, nextFlush, x - 60);
    if IsOpen(now, nextFlush, x) {
      WindowEnds(now, nextFlush, x);
      if x == lo {
        LateIs(f, now, nextFlush, x);
      }
    } else {
      assert x != lo;
    }
  }
}
