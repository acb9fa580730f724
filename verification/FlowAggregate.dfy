/** One exporter's open minutes: how a flow record is split over them and booked
    (backend/internal/flow/aggregate.go). Times are nanoseconds since the epoch. */
module FlowAggregate {
  import opened Arith
  import opened Sums

  const MAX_KEYS_PER_MINUTE := 20_000
  const MAX_OPEN_MINUTES := 3
  const MAX_FLOW_VALUE := 0x1_0000_0000_0000
  const MAX_INT64 := 0x7FFF_FFFF_FFFF_FFFF
  const TWO64 := 0x1_0000_0000_0000_0000
  const SECOND := 1_000_000_000

  type Instant = int
  type Counter = x: int | 0 <= x <= MAX_INT64

  function Unix(t: Instant): int { t / SECOND }
  function UnixMilli(t: Instant): int { t / 1_000_000 }

  // ---------- 64-bit arithmetic ----------

  function Wrap64(x: int): int {
    var r := x % TWO64;
    if r <= MAX_INT64 then r else r - TWO64
  }

  /** The wrapped sum is kept unless it fell below a: an addition that saturates. */
  function SatAdd(a: Counter, b: Counter): (r: Counter)
    ensures r == Min(a + b, MAX_INT64)
  {
    var s := Wrap64(a + b);
    if s >= a then s else MAX_INT64
  }

  /** The 128-by-64-bit division; the machine instruction faults unless hi < den. */
  function Div64(hi: nat, lo: nat, den: nat): (q: nat)
    requires hi < den && lo < TWO64
    ensures q * den <= hi * TWO64 + lo < (q + 1) * den
  {
    var q := (hi * TWO64 + lo) / den;
    assert q * den <= hi * TWO64 + lo < (q + 1) * den by { DivBounds(hi * TWO64 + lo, den); }
    q
  }

  /** floor(x * num / den) through a 128-bit product; the division never faults. */
  function MulDiv(x: nat, num: nat, den: nat): (q: nat)
    requires x < TWO64 && num <= den && 0 < den
    ensures q * den <= x * num < (q + 1) * den
  {
    assert x * num / TWO64 < den by { HighWordBelow(x, num, den); }
    Div64(x * num / TWO64, x * num % TWO64, den)
  }

  lemma HighWordBelow(x: nat, num: nat, den: nat)
    requires x < TWO64 && num <= den && 0 < den
    ensures x * num / TWO64 < den
  {
    assert x * num <= x * den < TWO64 * den;
  }

  lemma MulDivEnds(x: nat, den: nat)
    requires x < TWO64 && 0 < den
    ensures MulDiv(x, 0, den) == 0 && MulDiv(x, den, den) == x
  {
    FloorMonotone(MulDiv(x, 0, den), 0, 0, 0, den);
    FloorMonotone(MulDiv(x, den, den), x, x * den, x * den, den);
    FloorMonotone(x, MulDiv(x, den, den), x * den, x * den, den);
  }

  lemma MulDivMonotone(x: nat, num: nat, num': nat, den: nat)
    requires x < TWO64 && num <= num' <= den && 0 < den
    ensures MulDiv(x, num, den) <= MulDiv(x, num', den) <= x
  {
    MulMonotone(num, num', x);
    MulMonotone(num', den, x);
    FloorMonotone(MulDiv(x, num, den), MulDiv(x, num', den), x * num, x * num', den);
    FloorMonotone(MulDiv(x, num', den), x, x * num', x * den, den);
  }

  // ---------- minutes and the open window ----------

  /** The truncated remainder of the implementation language. */
  function TruncRem(a: int, b: int): int
    requires b > 0
  {
    if a >= 0 then a % b else -((-a) % b)
  }

  function FloorMinute(unix: int): (m: int)
    ensures m % 60 == 0 && m <= unix < m + 60
  {
    unix - TruncRem(TruncRem(unix, 60) + 60, 60)
  }

  lemma TwoBefore(m: int)
    requires m % 60 == 0
    ensures (m - (MAX_OPEN_MINUTES - 1) * 60) % 60 == 0
  {
  }

  /** The open minutes [lo, hi] at a worker time: everything from the oldest unflushed
      minute up to the current one, at most three, and only the oldest unflushed one when
      the clock stepped back behind it. */
  function Window(now: Instant, nextFlush: int): (w: (int, int))
    ensures nextFlush <= w.0 <= w.1
    ensures nextFlush % 60 == 0 ==> w.0 % 60 == 0 && w.1 % 60 == 0
    ensures w.1 - w.0 <= (MAX_OPEN_MINUTES - 1) * 60
    ensures w.1 == nextFlush || w.1 <= Unix(now)
  {
    var hi := FloorMinute(Unix(now));
    TwoBefore(hi);
    if hi < nextFlush then (nextFlush, nextFlush)
    else (Max(hi - (MAX_OPEN_MINUTES - 1) * 60, nextFlush), hi)
  }

  // ---------- conversations ----------

  datatype AggKey = AggKey(inIf: nat, outIf: nat, proto: nat, port: nat, src: nat, dst: nat)
  datatype PairKey = PairKey(inIf: nat, outIf: nat)

  function PairOf(k: AggKey): PairKey { PairKey(k.inIf, k.outIf) }

  datatype AggVal = AggVal(bytes: Counter, packets: Counter, flows: Counter) {
    function Add(o: AggVal): AggVal {
      AggVal(SatAdd(bytes, o.bytes), SatAdd(packets, o.packets), SatAdd(flows, o.flows))
    }
  }

  const NOTHING := AggVal(0, 0, 0)

  /** The three things every row counts. */
  datatype Metric = Bytes | Packets | Flows

  function Of(v: AggVal, k: Metric): Counter {
    match k
    case Bytes => v.bytes
    case Packets => v.packets
    case Flows => v.flows
  }

  function Gauge(k: Metric): AggVal -> int { (v: AggVal) => Of(v, k) }

  datatype Minute = Minute(
    start: int,
    keys: map<AggKey, AggVal>,
    other: map<PairKey, AggVal>,
    alive: bool,
    dgrams: nat,
    records: nat,
    bytes: Counter,
    sampling: int,
    overflow: nat,
    late: nat)

  function NewMinute(start: int): Minute { Minute(start, map[], map[], false, 0, 0, 0, 0, 0, 0) }

  type Minutes = map<int, Minute>

  function MinuteOf(a: Minutes, m: int): Minute { if m in a then a[m] else NewMinute(m) }

  datatype NormFlow = NormFlow(
    key: AggKey,
    endpoints: bool,
    bytes: int,
    packets: int,
    sampling: int,
    start: Instant,
    end: Instant)

  /** The pair's other row, or the catch-all pair (0, 0) once the table is full. */
  function OtherTarget(other: map<PairKey, AggVal>, p: PairKey): PairKey {
    if p !in other && |other| >= MAX_KEYS_PER_MINUTE then PairKey(0, 0) else p
  }

  function Credit<K>(m: map<K, AggVal>, k: K, v: AggVal): map<K, AggVal> {
    m[k := (if k in m then m[k] else NOTHING).Add(v)]
  }

  function AddOther(other: map<PairKey, AggVal>, p: PairKey, v: AggVal): map<PairKey, AggVal> {
    Credit(other, OtherTarget(other, p), v)
  }

  /** Books one share of f in a minute: its conversation, or the pair's other row when the
      record has no endpoints or the minute holds too many conversations. */
  function Book(mm: Minute, f: NormFlow, v: AggVal): Minute {
    var m1 := mm.(bytes := SatAdd(mm.bytes, v.bytes), sampling := Max(mm.sampling, f.sampling),
                  records := mm.records + if v.flows > 0 then 1 else 0);
    if !f.endpoints then
      m1.(other := AddOther(m1.other, PairOf(f.key), v))
    else if f.key in m1.keys || |m1.keys| < MAX_KEYS_PER_MINUTE then
      m1.(keys := Credit(m1.keys, f.key, v))
    else
      m1.(overflow := m1.overflow + (if v.flows > 0 then 1 else 0), other := AddOther(m1.other, PairOf(f.key), v))
  }

  // ---------- what a minute holds ----------

  ghost function CellTotal<K(!new)>(m: map<K, AggVal>, k: Metric): int { MapSum(m, Gauge(k)) }

  ghost function MinuteTotal(m: Minute, k: Metric): int { CellTotal(m.keys, k) + CellTotal(m.other, k) }

  ghost function MinuteGauge(k: Metric): Minute -> int { (m: Minute) => MinuteTotal(m, k) }

  ghost function AggTotal(a: Minutes, k: Metric): int { MapSum(a, MinuteGauge(k)) }

  /** The minute's own totals (its meta row) agree with its conversations and other rows. */
  ghost predicate MetaAgrees(m: Minute) {
    && (m.bytes < MAX_INT64 ==> MinuteTotal(m, Bytes) == m.bytes)
    && (m.records <= MAX_INT64 ==> MinuteTotal(m, Flows) == m.records)
  }

  /** Every conversation of the minute counts something. */
  ghost predicate NoneIdle(m: Minute) { forall x :: x in m.keys ==> m.keys[x] != NOTHING }

  /** t' is t + v, or less where a cell saturated. */
  predicate Adds(t: int, v: int, t': int) {
    0 <= v && 0 <= t && 0 <= t' <= t + v && (t + v <= MAX_INT64 ==> t' == t + v)
  }

  lemma CreditTotal<K(!new)>(m: map<K, AggVal>, key: K, v: AggVal, k: Metric)
    ensures Adds(CellTotal(m, k), Of(v, k), CellTotal(Credit(m, key, v), k))
  {
    MapSumNonNegative(m, Gauge(k));
    MapSumNonNegative(Credit(m, key, v), Gauge(k));
    MapSumUpdate(m, Gauge(k), key, (if key in m then m[key] else NOTHING).Add(v));
  }

  lemma BookTotal(mm: Minute, f: NormFlow, v: AggVal, k: Metric)
    ensures Adds(MinuteTotal(mm, k), Of(v, k), MinuteTotal(Book(mm, f, v), k))
  {
    CreditTotal(mm.keys, f.key, v, k);
    CreditTotal(mm.other, OtherTarget(mm.other, PairOf(f.key)), v, k);
  }

  /** What a table counts in a row. */
  function RowOf<K>(m: map<K, AggVal>, k: K): AggVal { if k in m then m[k] else AggVal(0, 0, 0) }

  lemma CreditIs<K(!new)>(m: map<K, AggVal>, key: K, v: AggVal, x: K, k: Metric)
    ensures Of(RowOf(Credit(m, key, v), x), k) ==
            Min(MAX_INT64, Of(RowOf(m, x), k) + if x == key then Of(v, k) else 0)
    ensures Credit(m, key, v).Keys == m.Keys + {key}
  {
  }

  /** Whether a share joins a conversation, and the other row it joins if not. */
  predicate Joins(mm: Minute, f: NormFlow) { f.endpoints && (f.key in mm.keys || |mm.keys| < 20_000) }

  function RestRow(mm: Minute, f: NormFlow): PairKey {
    var pair := PairKey(f.key.inIf, f.key.outIf);
    if pair in mm.other || |mm.other| < 20_000 then pair else PairKey(0, 0)
  }

  lemma BookTables(mm: Minute, f: NormFlow, v: AggVal)
    ensures Joins(mm, f) ==> Book(mm, f, v).keys == Credit(mm.keys, f.key, v) && Book(mm, f, v).other == mm.other
    ensures !Joins(mm, f) ==> Book(mm, f, v).keys == mm.keys && Book(mm, f, v).other == Credit(mm.other, RestRow(mm, f), v)
  {
    hide Credit;
  }

  /** A share joins its conversation, or the other row of its interface pair when it has no
      endpoints or the conversation is one too many; a pair too many shares the row of pair
      (0, 0). No other row changes. */
  lemma BookIs(mm: Minute, f: NormFlow, v: AggVal, key: AggKey, p: PairKey, k: Metric)
    ensures Of(RowOf(Book(mm, f, v).keys, key), k) ==
            Min(MAX_INT64, Of(RowOf(mm.keys, key), k) + if Joins(mm, f) && key == f.key then Of(v, k) else 0)
    ensures Of(RowOf(Book(mm, f, v).other, p), k) ==
            Min(MAX_INT64, Of(RowOf(mm.other, p), k) + if !Joins(mm, f) && p == RestRow(mm, f) then Of(v, k) else 0)
    ensures Book(mm, f, v).keys.Keys == mm.keys.Keys + if Joins(mm, f) then {f.key} else {}
    ensures Book(mm, f, v).other.Keys == mm.other.Keys + if Joins(mm, f) then {} else {RestRow(mm, f)}
  {
    hide Book, Credit, RowOf, Joins, RestRow, Of;
    BookTables(mm, f, v);
    CreditIs(mm.keys, f.key, v, key, k);
    CreditIs(mm.other, RestRow(mm, f), v, p, k);
  }

  /** Each share counts its bytes in the minute, the share with the record's count the record,
      and the overflow if the conversation was one too many. */
  lemma BookCounts(mm: Minute, f: NormFlow, v: AggVal)
    ensures var mm' := Book(mm, f, v);
      && mm'.start == mm.start && mm'.alive == mm.alive && mm'.dgrams == mm.dgrams && mm'.late == mm.late
      && mm'.bytes == Min(MAX_INT64, mm.bytes + v.bytes)
      && mm'.records == (if v.flows > 0 then mm.records + 1 else mm.records)
      && mm'.overflow == mm.overflow + (if v.flows > 0 && f.endpoints && f.key !in mm.keys && |mm.keys| >= 20_000 then 1 else 0)
      && mm.sampling <= mm'.sampling && f.sampling <= mm'.sampling && mm'.sampling in {mm.sampling, f.sampling}
  {
  }

  lemma BookKeepsMeta(mm: Minute, f: NormFlow, v: AggVal)
    requires MetaAgrees(mm) && v.flows <= 1
    ensures MetaAgrees(Book(mm, f, v))
  {
    BookTotal(mm, f, v, Bytes);
    BookTotal(mm, f, v, Flows);
  }

  lemma BookKeepsBusy(mm: Minute, f: NormFlow, v: AggVal)
    requires NoneIdle(mm) && v != NOTHING
    ensures NoneIdle(Book(mm, f, v))
  {
  }
}
