/** How `aggregator.add` cuts a record into shares, and what the shares add up to
    (backend/internal/flow/aggregate.go:144-218). */
module FlowSplit {
  import opened Arith
  import opened FlowAggregate

  type FlowValue = x: int | 0 <= x <= MAX_FLOW_VALUE

  /** How much of a value has been credited to the time before t (unix milliseconds). */
  type Curve = int -> FlowValue

  /** The cumulative rounding of `share`: floor(x * elapsed / duration). */
  function Cumulative(x: FlowValue, startMs: int, endMs: int): Curve
    requires startMs < endMs
  {
    t => UptoValue(x, startMs, endMs, t)
  }

  function Elapsed(startMs: int, endMs: int, t: int): nat
    requires startMs < endMs
  {
    Clamp(t - startMs, 0, endMs - startMs)
  }

  function UptoValue(x: FlowValue, startMs: int, endMs: int, t: int): (q: FlowValue)
    requires startMs < endMs
    ensures var dur := endMs - startMs; q * dur <= x * Elapsed(startMs, endMs, t) < (q + 1) * dur
  {
    MulDivMonotone(x, Elapsed(startMs, endMs, t), endMs - startMs, endMs - startMs);
    MulDiv(x, Elapsed(startMs, endMs, t), endMs - startMs)
  }

  ghost predicate Rises(c: Curve, x: FlowValue, startMs: int, endMs: int) {
    && (forall t, t' :: t <= t' ==> c(t) <= c(t'))
    && (forall t :: t <= startMs ==> c(t) == 0)
    && (forall t :: endMs <= t ==> c(t) == x)
  }

  lemma CumulativeRises(x: FlowValue, startMs: int, endMs: int)
    requires startMs < endMs
    ensures Rises(Cumulative(x, startMs, endMs), x, startMs, endMs)
  {
    var dur := endMs - startMs;
    MulDivEnds(x, dur);
    forall t, t' | t <= t'
      ensures UptoValue(x, startMs, endMs, t) <= UptoValue(x, startMs, endMs, t')
    {
      MulDivMonotone(x, Elapsed(startMs, endMs, t), Elapsed(startMs, endMs, t'), dur);
    }
  }

  /** A share differs from the exact proportion of the time it covers by less than one unit. */
  lemma ShareNearProportion(x: FlowValue, startMs: int, endMs: int, from: int, to: int)
    requires startMs < endMs && from <= to
    ensures var dur, c := endMs - startMs, Cumulative(x, startMs, endMs);
      var time := Elapsed(startMs, endMs, to) - Elapsed(startMs, endMs, from);
      -dur < (c(to) - c(from)) * dur - x * time < dur
  {
    var dur := endMs - startMs;
    var q, q' := UptoValue(x, startMs, endMs, from), UptoValue(x, startMs, endMs, to);
    Distribute(q, q', dur);
    Distribute(Elapsed(startMs, endMs, from), Elapsed(startMs, endMs, to), x);
  }

  /** A record with its values clamped and its end pulled back to a sane time. The minutes
      are unix seconds, the times unix milliseconds. */
  datatype Record = Record(
    bytes: FlowValue,
    packets: FlowValue,
    startMs: int,
    endMs: int,
    startMin: int,
    endMin: int,
    bytesUpto: Curve,
    packetsUpto: Curve)
  {
    ghost predicate Valid() {
      && startMin % 60 == 0 && endMin % 60 == 0
      && startMin * 1000 <= startMs < (startMin + 60) * 1000
      && endMin * 1000 <= endMs < (endMin + 60) * 1000
      && startMs <= endMs
      && (startMs < endMs ==>
            Rises(bytesUpto, bytes, startMs, endMs) && Rises(packetsUpto, packets, startMs, endMs))
    }

    /** What was credited to the time before t; the record itself is counted separately. */
    function Upto(t: int, k: Metric): int {
      match k
      case Bytes => bytesUpto(t)
      case Packets => packetsUpto(t)
      case Flows => 0
    }

    function All(k: Metric): int {
      match k
      case Bytes => bytes
      case Packets => packets
      case Flows => 0
    }

    function Count(k: Metric): int { if k == Flows then 1 else 0 }

    /** The curves are the cumulative rounding of the share loop. */
    ghost predicate Rounded()
      requires startMs < endMs
    {
      forall t {:trigger Elapsed(startMs, endMs, t)} ::
        && bytesUpto(t) == MulDiv(bytes, Elapsed(startMs, endMs, t), endMs - startMs)
        && packetsUpto(t) == MulDiv(packets, Elapsed(startMs, endMs, t), endMs - startMs)
    }
  }

  function Normalise(f: NormFlow, now: Instant): (r: Record)
    ensures r.Valid() && (r.startMs < r.endMs ==> r.Rounded())
  {
    var end := if f.end > now + 60 * SECOND then now else f.end;
    var start := Min(f.start, end);
    var s, e := UnixMilli(start), UnixMilli(end);
    var b, p := Clamp(f.bytes, 0, MAX_FLOW_VALUE), Clamp(f.packets, 0, MAX_FLOW_VALUE);
    var s', e' := FloorMinute(Unix(start)), FloorMinute(Unix(end));
    MilliInMinute(start);
    MilliInMinute(end);
    RecordOf(b, p, s, e, s', e')
  }

  function RecordOf(b: nat, p: nat, s: int, e: int, s': int, e': int): (r: Record)
    requires s <= e && s' % 60 == 0 && e' % 60 == 0
    requires s' * 1000 <= s < (s' + 60) * 1000 && e' * 1000 <= e < (e' + 60) * 1000
    requires b <= MAX_FLOW_VALUE && p <= MAX_FLOW_VALUE
    ensures r.Valid() && (r.startMs < r.endMs ==> r.Rounded())
  {
    if s < e then
      CumulativeRises(b, s, e);
      CumulativeRises(p, s, e);
      Record(b, p, s, e, s', e', Cumulative(b, s, e), Cumulative(p, s, e))
    else
      Record(b, p, s, e, s', e', t => 0, t => 0)
  }

  lemma MilliInMinute(t: Instant)
    ensures var m := FloorMinute(Unix(t)); m * 1000 <= UnixMilli(t) < (m + 60) * 1000
  {
    assert Unix(t) * 1000 <= UnixMilli(t) < (Unix(t) + 1) * 1000;
  }

  /** Shares in the order they are booked. */
  datatype Shares = Done | Share(minute: int, v: AggVal, rest: Shares)

  /** What a record is worth in the time [from, to). */
  function Between(r: Record, from: int, to: int): AggVal
    requires r.Valid() && r.startMs < r.endMs && from <= to
  {
    AggVal(r.bytesUpto(to) - r.bytesUpto(from), r.packetsUpto(to) - r.packetsUpto(from), 0)
  }

  lemma BetweenIs(r: Record, from: int, to: int, k: Metric)
    requires r.Valid() && r.startMs < r.endMs && from <= to
    ensures Between(r, from, to).flows == 0 && Of(Between(r, from, to), k) == r.Upto(to, k) - r.Upto(from, k)
  {
  }

  /** A share that rounds to nothing is not booked. */
  function Unless0(m: int, v: AggVal, rest: Shares): Shares {
    if v.bytes > 0 || v.packets > 0 then Share(m, v, rest) else rest
  }

  /** The shares of the minutes from m up to the record's last, then the record's count. */
  function SharesFrom(r: Record, m: int): Shares
    requires r.Valid() && r.startMs < r.endMs
    decreases Max(0, r.endMin - m + 60)
  {
    if m > r.endMin then Share(r.endMin, AggVal(0, 0, 1), Done)
    else Unless0(m, Between(r, m * 1000, (m + 60) * 1000), SharesFrom(r, m + 60))
  }

  /** Every share of a record when lo is the oldest open minute: all that precedes lo comes
      as one share of lo. */
  function Split(r: Record, lo: int): Shares
    requires r.Valid()
  {
    if r.endMs <= r.startMs then Share(r.endMin, AggVal(r.bytes, r.packets, 1), Done)
    else if r.startMin < lo then
      Unless0(lo, Between(r, r.startMs, Max(r.startMs, lo * 1000)), SharesFrom(r, lo))
    else SharesFrom(r, r.startMin)
  }

  lemma SplitOverdue(r: Record, lo: int)
    requires r.Valid() && r.startMs < r.endMs && r.startMin < lo && lo % 60 == 0
    ensures r.startMs <= lo * 1000
    ensures Split(r, lo) == Unless0(lo, Between(r, r.startMs, lo * 1000), SharesFrom(r, lo))
  {
  }

  /** Once all is credited, only the count is left to book. */
  lemma {:induction false} NothingLeft(r: Record, m: int)
    requires r.Valid() && r.startMs < r.endMs && r.endMs <= m * 1000
    ensures SharesFrom(r, m) == SharesFrom(r, r.endMin + 60)
    decreases Max(0, r.endMin - m + 60)
  {
    if m <= r.endMin {
      NothingLeft(r, m + 60);
    }
  }

  /** One turn of the share loop brings the credited time to the end of the minute. */
  lemma ElapsedStep(r: Record, m: int)
    requires r.Valid() && r.startMs < r.endMs && r.startMin <= m <= r.endMin && m % 60 == 0
    requires Elapsed(r.startMs, r.endMs, m * 1000) < r.endMs - r.startMs
    ensures var ov := Min(r.endMs, (m + 60) * 1000) - Max(r.startMs, m * 1000);
      && 0 < ov
      && Min(Elapsed(r.startMs, r.endMs, m * 1000) + ov, r.endMs - r.startMs)
         == Elapsed(r.startMs, r.endMs, (m + 60) * 1000)
      && (m + 60) % 60 == 0
  {
  }

  /** The share loop stops only when the whole record has been credited. */
  lemma LoopDone(r: Record, m: int)
    requires r.Valid() && r.startMs < r.endMs && m % 60 == 0
    requires r.endMin < m || r.endMs - r.startMs <= Elapsed(r.startMs, r.endMs, m * 1000)
    ensures r.endMs <= m * 1000 && r.bytesUpto(m * 1000) == r.bytes && r.packetsUpto(m * 1000) == r.packets
  {
  }

  /** Where the share loop starts: everything before the first open minute is credited. */
  lemma LoopStart(r: Record, lo: int)
    requires r.Valid() && r.startMs < r.endMs && lo % 60 == 0
    ensures r.bytesUpto(r.startMs) == 0 && r.packetsUpto(r.startMs) == 0
    ensures r.startMin < lo ==>
      && r.startMs < lo * 1000
      && Min(Min(r.endMs, lo * 1000) - r.startMs, r.endMs - r.startMs) == Elapsed(r.startMs, r.endMs, lo * 1000)
    ensures lo <= r.startMin ==>
      && Elapsed(r.startMs, r.endMs, r.startMin * 1000) == 0
      && r.bytesUpto(r.startMin * 1000) == 0 && r.packetsUpto(r.startMin * 1000) == 0
  {
  }

  // ---------- nothing is lost or invented ----------

  function Total(s: Shares, k: Metric): int {
    match s
    case Done => 0
    case Share(_, v, rest) => Of(v, k) + Total(rest, k)
  }

  lemma Unless0Total(m: int, v: AggVal, rest: Shares, k: Metric)
    requires v.flows == 0
    ensures Total(Unless0(m, v, rest), k) == Of(v, k) + Total(rest, k)
  {
  }

  lemma PastTheEnd(r: Record, m: int, k: Metric)
    requires r.Valid() && r.startMs < r.endMs && r.endMin < m && m % 60 == 0
    ensures r.Upto(m * 1000, k) == r.All(k)
  {
    assert r.endMs <= m * 1000;
  }

  lemma {:induction false} SharesTelescope(r: Record, m: int, k: Metric)
    requires r.Valid() && r.startMs < r.endMs && m % 60 == 0
    ensures Total(SharesFrom(r, m), k) == r.All(k) + r.Count(k) - r.Upto(m * 1000, k)
    decreases Max(0, r.endMin - m + 60)
  {
    if m <= r.endMin {
      hide Between, Unless0, Of;
      BetweenIs(r, m * 1000, (m + 60) * 1000, k);
      Unless0Total(m, Between(r, m * 1000, (m + 60) * 1000), SharesFrom(r, m + 60), k);
      SharesTelescope(r, m + 60, k);
    } else {
      PastTheEnd(r, m, k);
      assert Total(Done, k) == 0;
    }
  }

  /** The shares of a record sum to exactly its clamped bytes and packets, and to one flow. */
  lemma SplitTotal(r: Record, lo: int, k: Metric)
    requires r.Valid() && lo % 60 == 0
    ensures Total(Split(r, lo), k) == r.All(k) + r.Count(k)
  {
    if r.startMs < r.endMs {
      assert r.Upto(r.startMs, k) == 0;
      if r.startMin < lo {
        Unless0Total(lo, Between(r, r.startMs, Max(r.startMs, lo * 1000)), SharesFrom(r, lo), k);
        SharesTelescope(r, lo, k);
      } else {
        SharesTelescope(r, r.startMin, k);
      }
    } else {
      assert Total(Done, k) == 0;
    }
  }

  // ---------- which minute gets what ----------

  /** What the shares bring to open minute x of the window [lo, hi]. */
  function CreditAt(s: Shares, lo: int, hi: int, x: int, k: Metric): int {
    match s
    case Done => 0
    case Share(m, v, rest) => (if Clamp(m, lo, hi) == x then Of(v, k) else 0) + CreditAt(rest, lo, hi, x, k)
  }

  lemma Unless0Credit(m: int, v: AggVal, rest: Shares, lo: int, hi: int, x: int, k: Metric)
    requires v.flows == 0
    ensures CreditAt(Unless0(m, v, rest), lo, hi, x, k) ==
            (if Clamp(m, lo, hi) == x then Of(v, k) else 0) + CreditAt(rest, lo, hi, x, k)
  {
  }

  /** What open minute x is due of a record, told directly: the time of minute x, with
      everything before the window counted in lo and everything after it in hi, and the
      record itself counted in the minute of its end. */
  function Due(r: Record, lo: int, hi: int, x: int, k: Metric): int {
    var here := x == Clamp(r.endMin, lo, hi);
    if r.startMs < r.endMs then
      (if x == hi then r.All(k) else r.Upto((x + 60) * 1000, k))
      - (if x == lo then 0 else r.Upto(x * 1000, k))
      + (if here then r.Count(k) else 0)
    else if here then r.All(k) + r.Count(k)
    else 0
  }

  /** What open minute 60 j is due of the shares from minute 60 i on; minutes are counted. */
  function DueFrom(r: Record, i: int, l: int, h: int, j: int, k: Metric): int {
    (if 60 * j == Clamp(r.endMin, 60 * l, 60 * h) then r.Count(k) else 0) +
    (if j == h then r.All(k) - r.Upto(Max(i, h) * 60_000, k)
     else if i <= j then r.Upto((j + 1) * 60_000, k) - r.Upto(j * 60_000, k)
     else 0)
  }

  lemma NothingDueAfter(r: Record, i: int, l: int, h: int, j: int, k: Metric)
    requires r.Valid() && r.startMs < r.endMs && l <= j <= h && r.endMin < 60 * i
    ensures DueFrom(r, i, l, h, j, k) == if 60 * j == Clamp(r.endMin, 60 * l, 60 * h) then r.Count(k) else 0
  {
    PastTheEnd(r, 60 * Max(i, h), k);
    if i <= j {
      PastTheEnd(r, 60 * j, k);
      PastTheEnd(r, 60 * (j + 1), k);
    }
  }

  lemma DueStep(r: Record, i: int, l: int, h: int, j: int, k: Metric)
    requires l <= j <= h && l <= i
    ensures DueFrom(r, i, l, h, j, k) ==
            DueFrom(r, i + 1, l, h, j, k) +
            if Clamp(60 * i, 60 * l, 60 * h) == 60 * j
            then r.Upto((60 * i + 60) * 1000, k) - r.Upto(60 * i * 1000, k) else 0
  {
  }

  lemma {:induction false} SharesByMinute(r: Record, i: int, l: int, h: int, j: int, k: Metric)
    requires r.Valid() && r.startMs < r.endMs && l <= j <= h && l <= i
    ensures CreditAt(SharesFrom(r, 60 * i), 60 * l, 60 * h, 60 * j, k) == DueFrom(r, i, l, h, j, k)
    decreases Max(0, r.endMin - 60 * i + 60)
  {
    var m := 60 * i;
    if m <= r.endMin {
      hide Between, Unless0, Of, DueFrom, CreditAt, Clamp;
      hide Record.Valid;
      DueStep(r, i, l, h, j, k);
      BetweenIs(r, m * 1000, (m + 60) * 1000, k);
      Unless0Credit(m, Between(r, m * 1000, (m + 60) * 1000), SharesFrom(r, m + 60), 60 * l, 60 * h, 60 * j, k);
      SharesByMinute(r, i + 1, l, h, j, k);
    } else {
      NothingDueAfter(r, i, l, h, j, k);
      assert CreditAt(Done, 60 * l, 60 * h, 60 * j, k) == 0;
    }
  }

  /** Minute by minute, the share loop credits exactly what is due. */
  lemma SplitByMinute(r: Record, lo: int, hi: int, x: int, k: Metric)
    requires r.Valid() && lo % 60 == 0 && hi % 60 == 0 && x % 60 == 0 && lo <= x <= hi
    ensures CreditAt(Split(r, lo), lo, hi, x, k) == Due(r, lo, hi, x, k)
  {
    if r.startMs < r.endMs {
      SplitByIndex(r, r.startMin / 60, lo / 60, hi / 60, x / 60, k);
    } else {
      assert CreditAt(Done, lo, hi, x, k) == 0;
    }
  }

  lemma SplitByIndex(r: Record, s: int, l: int, h: int, j: int, k: Metric)
    requires r.Valid() && r.startMs < r.endMs && l <= j <= h && r.startMin == 60 * s
    ensures CreditAt(Split(r, 60 * l), 60 * l, 60 * h, 60 * j, k) == Due(r, 60 * l, 60 * h, 60 * j, k)
  {
    hide CreditAt, SharesFrom, Unless0;
    var lo := 60 * l;
    if s < l {
      var past := Between(r, r.startMs, Max(r.startMs, lo * 1000));
      Unless0Credit(lo, past, SharesFrom(r, lo), lo, 60 * h, 60 * j, k);
      SharesByMinute(r, l, l, h, j, k);
    } else {
      SharesByMinute(r, s, l, h, j, k);
    }
  }
}
