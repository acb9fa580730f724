/** How one poll interval's counter increase is spread over the minutes it overlaps
    (backend/internal/poller/portstats.go:653-714). Times are nanoseconds; the float shares
    are exact fractions rounded half away from zero. */
module PortSpread {
  import opened Arith

  const MINUTE := 60_000_000_000

  /** The start of t's minute. */
  function Trunc(t: int): (m: int)
    ensures m <= t < m + MINUTE && OnMinute(m)
  {
    t - t % MINUTE
  }

  predicate OnMinute(m: int) { m % MINUTE == 0 }

  /** The counters of an interface. */
  datatype Field = RxBytes | TxBytes | RxPackets | TxPackets

  datatype Traffic = Traffic(rxBytes: int, txBytes: int, rxPackets: int, txPackets: int)

  function Of(t: Traffic, f: Field): int {
    match f
    case RxBytes => t.rxBytes
    case TxBytes => t.txBytes
    case RxPackets => t.rxPackets
    case TxPackets => t.txPackets
  }

  predicate NonNegative(t: Traffic)
    ensures NonNegative(t) ==> forall f :: 0 <= Of(t, f)
  {
    0 <= t.rxBytes && 0 <= t.txBytes && 0 <= t.rxPackets && 0 <= t.txPackets
  }

  // ---------- cumulative rounding ----------

  /** x / d rounded half away from zero, for x >= 0. */
  function RoundDiv(x: nat, d: nat): (q: nat)
    requires d > 0
    ensures q * (2 * d) <= 2 * x + d < (q + 1) * (2 * d)
  {
    DivBounds(2 * x + d, 2 * d);
    (2 * x + d) / (2 * d)
  }

  lemma RoundDivMonotone(x: nat, y: nat, d: nat)
    requires d > 0 && x <= y
    ensures RoundDiv(x, d) <= RoundDiv(y, d)
  {
    FloorMonotone(RoundDiv(x, d), RoundDiv(y, d), 2 * x + d, 2 * y + d, 2 * d);
  }

  lemma RoundDivExact(x: nat, d: nat)
    requires d > 0
    ensures RoundDiv(x * d, d) == x && RoundDiv(0, d) == 0
  {
    var y := 2 * (x * d) + d;
    assert x * (2 * d) <= y < (x + 1) * (2 * d);
    FloorMonotone(x, RoundDiv(x * d, d), y, y, 2 * d);
    FloorMonotone(RoundDiv(x * d, d), x, y, y, 2 * d);
    FloorMonotone(RoundDiv(0, d), 0, d, d, 2 * d);
  }

  // ---------- spans ----------

  /** How much of a counter's increase is credited to the time before t. */
  type Curve = (Field, int) -> int

  /** A usable interval [from, to) with its increase. */
  datatype Span = Span(from: int, to: int, d: Traffic, upto: Curve) {
    ghost predicate Valid() {
      && from < to
      && (forall f, t, t' :: t <= t' ==> upto(f, t) <= upto(f, t'))
      && (forall f, t :: t <= from ==> upto(f, t) == 0)
      && (forall f, t :: to <= t ==> upto(f, t) == Of(d, f))
    }

    /** The curve is the cumulative rounding of the share loop. */
    ghost predicate Rounded()
      requires from < to && NonNegative(d)
    {
      forall f, t {:trigger Elapsed(from, to, t), Of(d, f)} ::
        upto(f, t) == RoundDiv(Of(d, f) * Elapsed(from, to, t), to - from)
    }
  }

  function Elapsed(from: int, to: int, t: int): nat
    requires from < to
  {
    Min(Max(t - from, 0), to - from)
  }

  function Credited(x: nat, from: int, to: int, t: int): nat
    requires from < to
  {
    RoundDiv(x * Elapsed(from, to, t), to - from)
  }

  lemma CreditedRises(x: nat, from: int, to: int)
    requires from < to
    ensures forall t, t' :: t <= t' ==> Credited(x, from, to, t) <= Credited(x, from, to, t')
    ensures forall t :: t <= from ==> Credited(x, from, to, t) == 0
    ensures forall t :: to <= t ==> Credited(x, from, to, t) == x
  {
    RoundDivExact(x, to - from);
    forall t, t' | t <= t'
      ensures Credited(x, from, to, t) <= Credited(x, from, to, t')
    {
      var n, n' := Elapsed(from, to, t), Elapsed(from, to, t');
      MulMonotone(n, n', x);
      RoundDivMonotone(x * n, x * n', to - from);
    }
  }

  ghost function SpanOf(from: int, to: int, d: Traffic): (s: Span)
    requires from < to && NonNegative(d)
    ensures s.from == from && s.to == to && s.d == d && s.Valid() && s.Rounded()
  {
    var s := Span(from, to, d, (f, t) => if 0 <= Of(d, f) then Credited(Of(d, f), from, to, t) else 0);
    SpanValid(s);
    s
  }

  lemma SpanValid(s: Span)
    requires s.from < s.to && NonNegative(s.d)
    requires forall f, t :: s.upto(f, t) == Credited(Of(s.d, f), s.from, s.to, t)
    ensures s.Valid()
  {
    forall f: Field
      ensures forall t, t' :: t <= t' ==> s.upto(f, t) <= s.upto(f, t')
      ensures forall t :: t <= s.from ==> s.upto(f, t) == 0
      ensures forall t :: s.to <= t ==> s.upto(f, t) == Of(s.d, f)
    {
      CreditedRises(Of(s.d, f), s.from, s.to);
    }
  }

  // ---------- pieces ----------

  /** What an interval gives to the minutes it overlaps, oldest first. */
  datatype Pieces = Done | Piece(minute: int, share: Traffic, covered: int, samples: int, rest: Pieces)

  function Between(s: Span, a: int, b: int): Traffic {
    Traffic(s.upto(RxBytes, b) - s.upto(RxBytes, a), s.upto(TxBytes, b) - s.upto(TxBytes, a),
            s.upto(RxPackets, b) - s.upto(RxPackets, a), s.upto(TxPackets, b) - s.upto(TxPackets, a))
  }

  function Overlap(s: Span, m: int): int { Min(s.to, m + MINUTE) - Max(s.from, m) }

  /** The pieces from minute m on; the last one counts the sample. */
  function PiecesFrom(s: Span, m: int): Pieces
    decreases Max(0, s.to - m)
  {
    if m >= s.to then Done
    else
      Piece(m, Between(s, m, m + MINUTE), Overlap(s, m), if s.to <= m + MINUTE then 1 else 0,
            PiecesFrom(s, m + MINUTE))
  }

  function Spread(s: Span): Pieces { PiecesFrom(s, Trunc(s.from)) }

  function Total(p: Pieces, f: Field): int {
    match p
    case Done => 0
    case Piece(_, share, _, _, rest) => Of(share, f) + Total(rest, f)
  }

  function Covered(p: Pieces): int {
    match p
    case Done => 0
    case Piece(_, _, covered, _, rest) => covered + Covered(rest)
  }

  function Samples(p: Pieces): int {
    match p
    case Done => 0
    case Piece(_, _, _, samples, rest) => samples + Samples(rest)
  }

  /** Shares are never negative, every minute is overlapped, and minutes start on the minute. */
  predicate Fair(p: Pieces) {
    match p
    case Done => true
    case Piece(m, share, covered, samples, rest) =>
      && OnMinute(m) && 0 < covered <= MINUTE && 0 <= samples <= 1
      && NonNegative(share)
      && Fair(rest)
  }

  lemma {:induction false} PiecesTotal(s: Span, m: int, f: Field)
    requires s.Valid()
    ensures Total(PiecesFrom(s, m), f) == Of(s.d, f) - s.upto(f, m)
    decreases Max(0, s.to - m)
  {
    if m < s.to {
      PiecesTotal(s, m + MINUTE, f);
    }
  }

  lemma {:induction false} PiecesCover(s: Span, m: int)
    requires s.Valid() && s.from < m + MINUTE
    ensures Covered(PiecesFrom(s, m)) == Max(0, s.to - Max(s.from, m))
    ensures Samples(PiecesFrom(s, m)) == if m < s.to then 1 else 0
    decreases Max(0, s.to - m)
  {
    if m < s.to {
      PiecesCover(s, m + MINUTE);
    }
  }

  lemma {:induction false} PiecesFair(s: Span, m: int)
    requires s.Valid() && s.from < m + MINUTE && OnMinute(m)
    ensures Fair(PiecesFrom(s, m))
    decreases Max(0, s.to - m)
  {
    if m < s.to {
      assert OnMinute(m + MINUTE);
      PiecesFair(s, m + MINUTE);
    }
  }

  /** Every usable increase is spread into non-negative shares that sum exactly to it, the
      covered time is the interval, and exactly one sample is counted. */
  lemma SpreadExact(s: Span)
    requires s.Valid()
    ensures forall f :: Total(Spread(s), f) == Of(s.d, f)
    ensures Covered(Spread(s)) == s.to - s.from && Samples(Spread(s)) == 1
    ensures Fair(Spread(s))
  {
    var m := Trunc(s.from);
    forall f
      ensures Total(Spread(s), f) == Of(s.d, f)
    {
      PiecesTotal(s, m, f);
    }
    PiecesCover(s, m);
    PiecesFair(s, m);
  }

  /** A share is within one unit of the exact proportion of the time it covers. */
  lemma ShareNearProportion(x: nat, from: int, to: int, a: int, b: int)
    requires from < to && a <= b
    ensures var share, time := Credited(x, from, to, b) - Credited(x, from, to, a), Elapsed(from, to, b) - Elapsed(from, to, a);
      -(to - from) <= share * (to - from) - x * time <= to - from
  {
    var d, n, n' := to - from, Elapsed(from, to, a), Elapsed(from, to, b);
    var q, q' := RoundDiv(x * n, d), RoundDiv(x * n', d);
    Distribute(q, q', d);
    Distribute(n, n', x);
    Distribute(q, q', 2 * d);
    Scale(q, d);
    Scale(q', d);
  }

  lemma Scale(q: int, d: int)
    ensures q * (2 * d) == 2 * (q * d) && (q + 1) * (2 * d) == 2 * (q * d) + 2 * d
  {
  }

  /** The credited time is the part of the interval before t. */
  lemma ElapsedIs(from: int, to: int, t: int)
    requires from < to
    ensures t <= from ==> Elapsed(from, to, t) == 0
    ensures from <= t <= to ==> Elapsed(from, to, t) == t - from
    ensures to <= t ==> Elapsed(from, to, t) == to - from
  {
  }

  /** A minute's share of an increase is within one unit of the increase times the part of the
      interval that falls in the minute. */
  lemma MinuteShare(from: int, to: int, d: Traffic, x: int, f: Field)
    requires from < to && NonNegative(d)
    ensures var s := SpanOf(from, to, d);
      var share, time := s.upto(f, x + MINUTE) - s.upto(f, x), Max(0, Min(to, x + MINUTE) - Max(from, x));
      -(to - from) <= share * (to - from) - Of(d, f) * time <= to - from
  {
    hide RoundDiv, Elapsed;
    var s := SpanOf(from, to, d);
    assert s.upto(f, x) == Credited(Of(d, f), from, to, x)
        && s.upto(f, x + MINUTE) == Credited(Of(d, f), from, to, x + MINUTE) by {
      assert Elapsed(from, to, x) >= 0 && Elapsed(from, to, x + MINUTE) >= 0;
    }
    ShareNearProportion(Of(d, f), from, to, x, x + MINUTE);
    ElapsedIs(from, to, x);
    ElapsedIs(from, to, x + MINUTE);
  }
}
