/** The port-counter collector: readings become minute accumulations, minutes become rows
    (backend/internal/poller/portstats.go:598-892, backend/internal/poller/portstats_device.go:85-94). */
module PortStats {
  import opened Arith
  import opened Moments
  import opened Sorting
  import opened Strings
  import opened Sums
  import opened TopN
  import opened PortSpread

  const SECOND := 1_000_000_000
  const REPLY_WAIT := 10 * SECOND
  const ZERO_TIME := -62_135_596_800_000_000_000

  datatype Port = Port(device: string, iface: string)

  /** One interface in one minute. */
  datatype Slot = Slot(minute: int, port: Port)

  datatype Acc = Acc(sum: Traffic, covered: int, samples: int)

  type Book = map<Slot, Acc>

  datatype Sample = Sample(at: int, hasCounters: bool, c: Traffic)

  datatype Stat = Stat(name: string, running: bool, hasCounters: bool, c: Traffic)

  /** A device's last reading and the interval it was taken at. */
  datatype Device = Device(at: When, interval: int) {
    /** How long after a reading the next one is expected. */
    function OpenFor(): (d: int)
      ensures 0 <= interval ==> 10 * (d - 10_000_000_000) <= 11 * interval < 10 * (d - 10_000_000_000) + 10
      ensures interval < 0 ==> 10 * (d - 10_000_000_000) - 10 < 11 * interval <= 10 * (d - 10_000_000_000)
    {
      interval + Tenth(interval) + REPLY_WAIT
    }
  }

  /** A tenth, truncated toward zero. */
  function Tenth(x: int): int { if x >= 0 then x / 10 else -((-x) / 10) }

  datatype Row = Row(slot: Slot, acc: Acc)

  // ---------- booking ----------

  function AccOf(book: Book, s: Slot): (a: Acc)
    ensures s !in book ==> a.covered == 0 && a.samples == 0 && forall f :: Of(a.sum, f) == 0
  {
    if s in book then book[s] else Acc(Traffic(0, 0, 0, 0), 0, 0)
  }

  function Plus(a: Traffic, b: Traffic): Traffic {
    Traffic(a.rxBytes + b.rxBytes, a.txBytes + b.txBytes, a.rxPackets + b.rxPackets, a.txPackets + b.txPackets)
  }

  function Credit(book: Book, s: Slot, share: Traffic, covered: int, samples: int): Book {
    var acc := AccOf(book, s);
    book[s := Acc(Plus(acc.sum, share), acc.covered + covered, acc.samples + samples)]
  }

  /** The pieces of an interval booked, those of flushed minutes in the first open one. */
  function Booked(book: Book, flushed: int, port: Port, p: Pieces): Book
    decreases p
  {
    match p
    case Done => book
    case Piece(m, share, covered, samples, rest) =>
      Booked(Credit(book, Slot(Max(m, flushed), port), share, covered, samples), flushed, port, rest)
  }

  /** Every piece booked in its own minute. */
  function BookedInPlace(book: Book, port: Port, p: Pieces): Book
    decreases p
  {
    match p
    case Done => book
    case Piece(m, share, covered, samples, rest) =>
      BookedInPlace(Credit(book, Slot(m, port), share, covered, samples), port, rest)
  }

  function AccGauge(f: Field): Acc -> int { (a: Acc) => Of(a.sum, f) }

  /** The slots of some ports. */
  ghost function Among(book: Book, who: iset<Port>): Book { map s | s in book && s.port in who :: book[s] }

  ghost function BookTotal(book: Book, who: iset<Port>, f: Field): int { MapSum(Among(book, who), AccGauge(f)) }

  lemma AmongUpdate(book: Book, who: iset<Port>, s: Slot, a: Acc)
    ensures Among(book[s := a], who) == if s.port in who then Among(book, who)[s := a] else Among(book, who)
  {
  }

  lemma AmongMinus(book: Book, who: iset<Port>, s: Slot)
    requires s in book
    ensures s in Among(book, who) <==> s.port in who
    ensures Among(book - {s}, who) == if s.port in who then Among(book, who) - {s} else Among(book, who)
  {
  }

  lemma {:induction false} BookedTotal(book: Book, flushed: int, port: Port, p: Pieces, who: iset<Port>, f: Field)
    ensures BookTotal(Booked(book, flushed, port, p), who, f) ==
            BookTotal(book, who, f) + if port in who then Total(p, f) else 0
    decreases p
  {
    match p
    case Done =>
    case Piece(m, share, covered, samples, rest) =>
      var s := Slot(Max(m, flushed), port);
      var book' := Credit(book, s, share, covered, samples);
      AmongUpdate(book, who, s, book'[s]);
      MapSumUpdate(Among(book, who), AccGauge(f), s, book'[s]);
      BookedTotal(book', flushed, port, rest, who, f);
  }

  // ---------- which minute gets what ----------

  /** What the pieces bring to minute x. */
  function ShareAt(p: Pieces, flushed: int, x: int, f: Field): int {
    match p
    case Done => 0
    case Piece(m, share, _, _, rest) => (if Max(m, flushed) == x then Of(share, f) else 0) + ShareAt(rest, flushed, x, f)
  }

  lemma {:induction false} BookedAt(book: Book, flushed: int, port: Port, p: Pieces, s: Slot, f: Field)
    ensures Of(AccOf(Booked(book, flushed, port, p), s).sum, f) ==
            Of(AccOf(book, s).sum, f) + if s.port == port then ShareAt(p, flushed, s.minute, f) else 0
    decreases p
  {
    match p
    case Done =>
    case Piece(m, share, covered, samples, rest) =>
      BookedAt(Credit(book, Slot(Max(m, flushed), port), share, covered, samples), flushed, port, rest, s, f);
  }

  /** What minute x is due of an interval, told directly: the time of the minute, and at the
      watermark everything up to the end of its minute. */
  function SpanDue(s: Span, flushed: int, x: int, f: Field): int {
    if x == flushed then s.upto(f, Trunc(x) + MINUTE)
    else if flushed < x && OnMinute(x) then s.upto(f, x + MINUTE) - s.upto(f, x)
    else 0
  }

  /** A minute m is at most x, or x's minute is over by m. */
  lemma MinuteFacts(m: int, x: int)
    requires OnMinute(m)
    ensures OnMinute(m + MINUTE)
    ensures if m <= x then m <= Trunc(x) else Trunc(x) + MINUTE <= m
    ensures OnMinute(x) ==> Trunc(x) == x
  {
  }

  lemma {:induction false} PiecesDue(s: Span, flushed: int, m: int, x: int, f: Field)
    requires s.Valid() && OnMinute(m)
    ensures ShareAt(PiecesFrom(s, m), flushed, x, f) ==
            if x == flushed then s.upto(f, Max(m, Trunc(x) + MINUTE)) - s.upto(f, m)
            else if flushed < x && OnMinute(x) && m <= x then s.upto(f, x + MINUTE) - s.upto(f, x)
            else 0
    decreases Max(0, s.to - m)
  {
    if m < s.to {
      hide Trunc, OnMinute, Span.Valid;
      MinuteFacts(m, x);
      MinuteFacts(m + MINUTE, x);
      PiecesDue(s, flushed, m + MINUTE, x, f);
    }
  }

  lemma SpreadDue(s: Span, flushed: int, x: int, f: Field)
    requires s.Valid()
    ensures ShareAt(Spread(s), flushed, x, f) == SpanDue(s, flushed, x, f)
  {
    hide OnMinute, ShareAt, PiecesFrom;
    MinuteFacts(Trunc(s.from), x);
    MinuteFacts(Trunc(x), s.from);
    PiecesDue(s, flushed, Trunc(s.from), x, f);
  }

  /** Booked while its minutes are open, an interval gives every minute its own time. */
  lemma DueInPlace(s: Span, flushed: int, x: int, f: Field)
    requires s.Valid() && flushed <= Trunc(s.from) && OnMinute(x)
    ensures SpanDue(s, flushed, x, f) == s.upto(f, x + MINUTE) - s.upto(f, x)
  {
  }

  /** The time and the samples the pieces bring to minute x. */
  function TimeAt(p: Pieces, flushed: int, x: int): int {
    match p
    case Done => 0
    case Piece(m, _, covered, _, rest) => (if Max(m, flushed) == x then covered else 0) + TimeAt(rest, flushed, x)
  }

  function SamplesAt(p: Pieces, flushed: int, x: int): int {
    match p
    case Done => 0
    case Piece(m, _, _, samples, rest) => (if Max(m, flushed) == x then samples else 0) + SamplesAt(rest, flushed, x)
  }

  lemma {:induction false} BookedTime(book: Book, flushed: int, port: Port, p: Pieces, s: Slot)
    ensures AccOf(Booked(book, flushed, port, p), s).covered ==
            AccOf(book, s).covered + if s.port == port then TimeAt(p, flushed, s.minute) else 0
    ensures AccOf(Booked(book, flushed, port, p), s).samples ==
            AccOf(book, s).samples + if s.port == port then SamplesAt(p, flushed, s.minute) else 0
    decreases p
  {
    match p
    case Done =>
    case Piece(m, share, covered, samples, rest) =>
      BookedTime(Credit(book, Slot(Max(m, flushed), port), share, covered, samples), flushed, port, rest, s);
  }

  lemma {:induction false} PiecesTime(s: Span, flushed: int, m: int, x: int)
    requires s.from < s.to && s.from < m + MINUTE && flushed <= m && OnMinute(m) && OnMinute(x)
    ensures TimeAt(PiecesFrom(s, m), flushed, x) == if m <= x then Max(0, Min(s.to, x + MINUTE) - Max(s.from, x)) else 0
    ensures SamplesAt(PiecesFrom(s, m), flushed, x) == if m <= x < s.to <= x + MINUTE then 1 else 0
    decreases Max(0, s.to - m)
  {
    if m < s.to {
      hide OnMinute;
      MinuteFacts(m, x);
      MinuteFacts(m + MINUTE, x);
      PiecesTime(s, flushed, m + MINUTE, x);
    }
  }

  /** Booked while its minutes are open, an interval covers of every minute the time they
      share, and counts as a sample in the minute it ends in. */
  lemma TimeInPlace(s: Span, flushed: int, x: int)
    requires s.from < s.to && flushed <= Trunc(s.from) && OnMinute(x)
    ensures TimeAt(Spread(s), flushed, x) == Max(0, Min(s.to, x + MINUTE) - Max(s.from, x))
    ensures SamplesAt(Spread(s), flushed, x) == if x < s.to <= x + MINUTE then 1 else 0
  {
    hide OnMinute, TimeAt, SamplesAt, PiecesFrom;
    MinuteFacts(Trunc(s.from), x);
    MinuteFacts(x, s.from);
    PiecesTime(s, flushed, Trunc(s.from), x);
  }

  /** While no minute from the interval's start on has been flushed, every share goes to the
      minute it overlaps. */
  lemma NotCarried(book: Book, flushed: int, port: Port, s: Span)
    requires flushed <= Trunc(s.from)
    ensures Booked(book, flushed, port, Spread(s)) == BookedInPlace(book, port, Spread(s))
  {
    PiecesNotCarried(book, flushed, port, s, Trunc(s.from));
  }

  lemma {:induction false} PiecesNotCarried(book: Book, flushed: int, port: Port, s: Span, m: int)
    requires flushed <= m
    ensures Booked(book, flushed, port, PiecesFrom(s, m)) == BookedInPlace(book, port, PiecesFrom(s, m))
    decreases Max(0, s.to - m)
  {
    if m < s.to {
      var p := PiecesFrom(s, m);
      PiecesNotCarried(Credit(book, Slot(m, port), p.share, p.covered, p.samples), flushed, port, s, m + MINUTE);
    }
  }

  /** Booking touches no minute before the watermark. */
  lemma {:induction false} BookedOpen(book: Book, flushed: int, port: Port, p: Pieces)
    ensures forall s :: s in Booked(book, flushed, port, p) && s !in book ==> flushed <= s.minute
    decreases p
  {
    match p
    case Done =>
    case Piece(m, share, covered, samples, rest) =>
      BookedOpen(Credit(book, Slot(Max(m, flushed), port), share, covered, samples), flushed, port, rest);
  }

  /** The slots booking adds: from the interval's first minute or the watermark on, and
      always one of exactly that minute. */
  lemma {:induction false} BookedSlots(book: Book, flushed: int, port: Port, s: Span, m: int)
    ensures var book' := Booked(book, flushed, port, PiecesFrom(s, m));
      && book.Keys <= book'.Keys
      && (forall x :: x in book' && x !in book ==> Max(m, flushed) <= x.minute)
      && (m < s.to ==> Slot(Max(m, flushed), port) in book')
    decreases Max(0, s.to - m)
  {
    if m < s.to {
      var p := PiecesFrom(s, m);
      BookedSlots(Credit(book, Slot(Max(m, flushed), port), p.share, p.covered, p.samples), flushed, port, s, m + MINUTE);
    }
  }

  /** A reading booked after a flush at b took its minutes and before it advanced the
      watermark leaves an open minute below the watermark exactly when its interval starts
      before b (and b is news). */
  lemma ReadingDuringFlush(book: Book, flushed: int, b: int, port: Port, s: Span)
    requires s.from < s.to && forall x :: x in book ==> flushed <= x.minute
    ensures var book' := Booked(FromMinute(book, b), flushed, port, Spread(s));
      (forall x :: x in book' ==> Max(flushed, b) <= x.minute) <==> b <= flushed || b <= Trunc(s.from)
  {
    var m := Trunc(s.from);
    BookedSlots(FromMinute(book, b), flushed, port, s, m);
  }

  // ---------- readings ----------

  /** The increase between two readings. Packet counters that went backwards count 0. */
  function Delta(prev: Sample, s: Stat): Traffic {
    Traffic(s.c.rxBytes - prev.c.rxBytes, s.c.txBytes - prev.c.txBytes,
            Max(s.c.rxPackets - prev.c.rxPackets, 0), Max(s.c.txPackets - prev.c.txPackets, 0))
  }

  predicate Usable(prev: Sample, s: Stat, t: int, interval: int) {
    && prev.hasCounters && s.running && s.hasCounters
    && 0 < t - prev.at <= 3 * interval
    && 0 <= Delta(prev, s).rxBytes && 0 <= Delta(prev, s).txBytes
  }

  /** An increase counted, with the watermark it was booked under and whether its reading was
      the one expected after the reading it starts from. */
  datatype Increase = Increase(port: Port, span: Span, flushed: int, expected: bool) {
    predicate InPlace() { flushed <= Trunc(span.from) }
  }

  /** What the readings so far have left: the last sample of every port, the open minutes,
      and every increase counted. */
  datatype Ports = Ports(samples: map<Port, Sample>, book: Book, deltas: seq<Increase>)

  function DueGauge(s: Slot, f: Field): Increase -> int {
    (i: Increase) => if i.port == s.port then SpanDue(i.span, i.flushed, s.minute, f) else 0
  }

  /** What the increases counted are due to bring to a slot. */
  ghost function SlotDue(ds: seq<Increase>, s: Slot, f: Field): int { SeqSum(ds, DueGauge(s, f)) }

  ghost function SlotOpen(book: Book, s: Slot, f: Field): int { Of(AccOf(book, s).sum, f) }

  lemma DeltaNonNegative(prev: Sample, s: Stat, t: int, interval: int)
    requires Usable(prev, s, t, interval)
    ensures NonNegative(Delta(prev, s))
  {
  }

  ghost function ReadPort(p: Ports, flushed: int, device: string, s: Stat, t: int, interval: int, held: When): Ports {
    var port := Port(device, s.name);
    var next := p.samples[port := Sample(t, s.hasCounters, s.c)];
    if port in p.samples && Usable(p.samples[port], s, t, interval) then
      var prev := p.samples[port];
      DeltaNonNegative(prev, s, t, interval);
      var d := Delta(prev, s);
      var span := SpanOf(prev.at, t, d);
      Ports(next, Booked(p.book, flushed, port, Spread(span)), p.deltas + [Increase(port, span, flushed, held == At(prev.at))])
    else p.(samples := next)
  }

  ghost function ReadAll(p: Ports, flushed: int, device: string, stats: seq<Stat>, t: int, interval: int, held: When): Ports {
    if stats == [] then p
    else
      ReadPort(ReadAll(p, flushed, device, stats[..|stats| - 1], t, interval, held), flushed, device, stats[|stats| - 1],
               t, interval, held)
  }

  ghost function DeltaGauge(who: iset<Port>, f: Field): Increase -> int {
    (i: Increase) => if i.port in who then Of(i.span.d, f) else 0
  }

  ghost function DeltaTotal(ds: seq<Increase>, who: iset<Port>, f: Field): int { SeqSum(ds, DeltaGauge(who, f)) }

  /** A reading books exactly the increases it counts ... */
  lemma ReadPortTotal(p: Ports, flushed: int, device: string, s: Stat, t: int, interval: int, held: When,
                      who: iset<Port>, f: Field)
    ensures var p' := ReadPort(p, flushed, device, s, t, interval, held);
      BookTotal(p'.book, who, f) - DeltaTotal(p'.deltas, who, f) == BookTotal(p.book, who, f) - DeltaTotal(p.deltas, who, f)
  {
    var port := Port(device, s.name);
    if port in p.samples && Usable(p.samples[port], s, t, interval) {
      var prev, d := p.samples[port], Delta(p.samples[port], s);
      DeltaNonNegative(prev, s, t, interval);
      var span := SpanOf(prev.at, t, d);
      BookedTotal(p.book, flushed, port, Spread(span), who, f);
      SpreadExact(span);
      SeqSumLast(p.deltas, Increase(port, span, flushed, held == At(prev.at)), DeltaGauge(who, f));
    }
  }

  lemma {:induction false} ReadAllTotal(p: Ports, flushed: int, device: string, stats: seq<Stat>, t: int, interval: int,
                                        held: When, who: iset<Port>, f: Field)
    ensures var p' := ReadAll(p, flushed, device, stats, t, interval, held);
      BookTotal(p'.book, who, f) - DeltaTotal(p'.deltas, who, f) == BookTotal(p.book, who, f) - DeltaTotal(p.deltas, who, f)
    decreases |stats|
  {
    if stats != [] {
      hide ReadPort;
      var rest := stats[..|stats| - 1];
      ReadAllTotal(p, flushed, device, rest, t, interval, held, who, f);
      ReadPortTotal(ReadAll(p, flushed, device, rest, t, interval, held), flushed, device, stats[|stats| - 1],
                    t, interval, held, who, f);
    }
  }

  /** ... each in the slots it is due. */
  lemma ReadPortDue(p: Ports, flushed: int, device: string, s: Stat, t: int, interval: int, held: When, x: Slot, f: Field)
    ensures var p' := ReadPort(p, flushed, device, s, t, interval, held);
      SlotOpen(p'.book, x, f) - SlotDue(p'.deltas, x, f) == SlotOpen(p.book, x, f) - SlotDue(p.deltas, x, f)
  {
    hide SpanDue;
    var port := Port(device, s.name);
    if port in p.samples && Usable(p.samples[port], s, t, interval) {
      var prev, d := p.samples[port], Delta(p.samples[port], s);
      DeltaNonNegative(prev, s, t, interval);
      var span := SpanOf(prev.at, t, d);
      BookedAt(p.book, flushed, port, Spread(span), x, f);
      SpreadDue(span, flushed, x.minute, f);
      SeqSumLast(p.deltas, Increase(port, span, flushed, held == At(prev.at)), DueGauge(x, f));
    }
  }

  lemma {:induction false} ReadAllDue(p: Ports, flushed: int, device: string, stats: seq<Stat>, t: int, interval: int,
                                      held: When, x: Slot, f: Field)
    ensures var p' := ReadAll(p, flushed, device, stats, t, interval, held);
      SlotOpen(p'.book, x, f) - SlotDue(p'.deltas, x, f) == SlotOpen(p.book, x, f) - SlotDue(p.deltas, x, f)
    decreases |stats|
  {
    if stats != [] {
      hide ReadPort, SlotOpen, SlotDue;
      var rest := stats[..|stats| - 1];
      ReadAllDue(p, flushed, device, rest, t, interval, held, x, f);
      ReadPortDue(ReadAll(p, flushed, device, rest, t, interval, held), flushed, device, stats[|stats| - 1],
                  t, interval, held, x, f);
    }
  }

  /** A reading opens no slot before the watermark, and what it counts was booked under it. */
  lemma {:induction false} ReadAllOpen(p: Ports, flushed: int, device: string, stats: seq<Stat>, t: int, interval: int,
                                       held: When)
    ensures var p' := ReadAll(p, flushed, device, stats, t, interval, held);
      && (forall s :: s in p'.book && s !in p.book ==> flushed <= s.minute)
      && p.deltas <= p'.deltas
      && (forall i :: |p.deltas| <= i < |p'.deltas| ==>
            p'.deltas[i].flushed == flushed && (p'.deltas[i].expected ==> held == At(p'.deltas[i].span.from)))
    decreases |stats|
  {
    if stats != [] {
      var q := ReadAll(p, flushed, device, stats[..|stats| - 1], t, interval, held);
      ReadAllOpen(p, flushed, device, stats[..|stats| - 1], t, interval, held);
      var s := stats[|stats| - 1];
      var port := Port(device, s.name);
      if port in q.samples && Usable(q.samples[port], s, t, interval) {
        DeltaNonNegative(q.samples[port], s, t, interval);
        BookedOpen(q.book, flushed, port, Spread(SpanOf(q.samples[port].at, t, Delta(q.samples[port], s))));
      }
    }
  }

  lemma ReadPortSamples(p: Ports, flushed: int, device: string, s: Stat, t: int, interval: int, held: When)
    ensures ReadPort(p, flushed, device, s, t, interval, held).samples ==
            p.samples[Port(device, s.name) := Sample(t, s.hasCounters, s.c)]
  {
    hide Usable, Booked, Spread;
  }

  ghost predicate Read(device: string, stats: seq<Stat>, port: Port) {
    exists i :: 0 <= i < |stats| && port == Port(device, stats[i].name)
  }

  /** A reading leaves a sample of every port read, at its time, and the other samples as they were. */
  lemma {:induction false} ReadAllSamples(p: Ports, flushed: int, device: string, stats: seq<Stat>, t: int, interval: int,
                                          held: When, port: Port)
    ensures var p' := ReadAll(p, flushed, device, stats, t, interval, held);
      && (Read(device, stats, port) ==> port in p'.samples && p'.samples[port].at == t)
      && (!Read(device, stats, port) ==>
            (port in p'.samples <==> port in p.samples) && (port in p.samples ==> p'.samples[port] == p.samples[port]))
    decreases |stats|
  {
    if stats != [] {
      hide ReadPort;
      var rest, s := stats[..|stats| - 1], stats[|stats| - 1];
      ReadAllSamples(p, flushed, device, rest, t, interval, held, port);
      ReadPortSamples(ReadAll(p, flushed, device, rest, t, interval, held), flushed, device, s, t, interval, held);
      assert Read(device, stats, port) <==> Read(device, rest, port) || port == Port(device, s.name) by {
        if i :| 0 <= i < |rest| && port == Port(device, rest[i].name) {
          assert stats[i] == rest[i];
        }
        assert stats[|stats| - 1] == s;
      }
    }
  }

  // ---------- what a reading brings, from the counters ----------

  /** What a reading of a port brings, told from its counters: their rise since the sample
      before, if both readings have counters, the port runs, neither byte counter fell and no
      more than three intervals passed; otherwise nothing. A packet counter that fell brings 0. */
  function Brought(prev: Sample, s: Stat, t: int, interval: int, f: Field): int {
    if prev.hasCounters && s.hasCounters && s.running && prev.at < t <= prev.at + 3 * interval
       && prev.c.rxBytes <= s.c.rxBytes && prev.c.txBytes <= s.c.txBytes then
      match f
      case RxBytes => s.c.rxBytes - prev.c.rxBytes
      case TxBytes => s.c.txBytes - prev.c.txBytes
      case RxPackets => if prev.c.rxPackets <= s.c.rxPackets then s.c.rxPackets - prev.c.rxPackets else 0
      case TxPackets => if prev.c.txPackets <= s.c.txPackets then s.c.txPackets - prev.c.txPackets else 0
    else 0
  }

  /** What the open minutes hold of one port. */
  ghost function OpenOf(book: Book, q: Port, f: Field): int { BookTotal(book, iset{q}, f) }

  lemma ReadPortBrings(p: Ports, flushed: int, device: string, s: Stat, t: int, interval: int, held: When, q: Port, f: Field)
    ensures OpenOf(ReadPort(p, flushed, device, s, t, interval, held).book, q, f) - OpenOf(p.book, q, f) ==
            if q == Port(device, s.name) && q in p.samples then Brought(p.samples[q], s, t, interval, f) else 0
  {
    hide BookTotal, Spread, Booked;
    var port := Port(device, s.name);
    if port in p.samples && Usable(p.samples[port], s, t, interval) {
      var prev, d := p.samples[port], Delta(p.samples[port], s);
      DeltaNonNegative(prev, s, t, interval);
      var span := SpanOf(prev.at, t, d);
      BookedTotal(p.book, flushed, port, Spread(span), iset{q}, f);
      SpreadExact(span);
    }
  }

  /** Entry n is the one for the name. */
  ghost predicate Once(stats: seq<Stat>, name: string, n: int) {
    0 <= n < |stats| && stats[n].name == name && forall m :: 0 <= m < |stats| && m != n ==> stats[m].name != name
  }

  lemma {:induction false} ReadAllNothing(p: Ports, flushed: int, device: string, stats: seq<Stat>, t: int, interval: int,
                                          held: When, q: Port, f: Field)
    requires !Read(device, stats, q)
    ensures OpenOf(ReadAll(p, flushed, device, stats, t, interval, held).book, q, f) == OpenOf(p.book, q, f)
    decreases |stats|
  {
    if stats != [] {
      hide ReadPort, OpenOf;
      var rest, s := stats[..|stats| - 1], stats[|stats| - 1];
      forall i | 0 <= i < |rest|
        ensures q != Port(device, rest[i].name)
      {
        assert stats[i] == rest[i];
      }
      ReadAllNothing(p, flushed, device, rest, t, interval, held, q, f);
      ReadPortBrings(ReadAll(p, flushed, device, rest, t, interval, held), flushed, device, s, t, interval, held, q, f);
    }
  }

  /** A device reading brings each port it lists once exactly what the port's counters say. */
  lemma {:induction false} ReadAllBrings(p: Ports, flushed: int, device: string, stats: seq<Stat>, t: int, interval: int,
                                         held: When, q: Port, n: nat, f: Field)
    requires Once(stats, q.iface, n) && q.device == device
    ensures var p' := ReadAll(p, flushed, device, stats, t, interval, held);
      && q in p'.samples && p'.samples[q] == Sample(t, stats[n].hasCounters, stats[n].c)
      && OpenOf(p'.book, q, f) - OpenOf(p.book, q, f) ==
         if q in p.samples then Brought(p.samples[q], stats[n], t, interval, f) else 0
    decreases |stats|
  {
    hide ReadPort, OpenOf, Brought;
    var rest, s := stats[..|stats| - 1], stats[|stats| - 1];
    var p' := ReadAll(p, flushed, device, rest, t, interval, held);
    ReadPortBrings(p', flushed, device, s, t, interval, held, q, f);
    ReadPortSamples(p', flushed, device, s, t, interval, held);
    if n == |stats| - 1 {
      assert !Read(device, rest, q);
      ReadAllNothing(p, flushed, device, rest, t, interval, held, q, f);
      ReadAllSamples(p, flushed, device, rest, t, interval, held, q);
    } else {
      assert Once(rest, q.iface, n);
      ReadAllBrings(p, flushed, device, rest, t, interval, held, q, n, f);
    }
  }

  // ---------- a port followed through a run ----------

  /** How the collector last saw a port, and the interval of its device. */
  datatype Trace = Trace(last: Sample, interval: int)

  /** The entry for a port in a reading of its device. */
  ghost function StatOf(stats: seq<Stat>, name: string): Stat
    requires exists n :: Once(stats, name, n)
  {
    var n :| Once(stats, name, n);
    stats[n]
  }

  /** Event e does not lose sight of port q: a reading of its device lists the port once,
      running, with counters that did not fall, within three intervals of the last; and the
      end of a cycle does not find the last reading older than that, unless the device is
      paused. */
  ghost predicate Keeps(e: Event, q: Port, tr: Trace) {
    match e
    case Reading(device, stats, t, interval) =>
      device == q.device ==>
        && (exists n :: Once(stats, q.iface, n))
        && var s := StatOf(stats, q.iface);
           && s.running && s.hasCounters && tr.last.at < t <= tr.last.at + 3 * interval
           && tr.last.c.rxBytes <= s.c.rxBytes && tr.last.c.txBytes <= s.c.txBytes
    case EndCycle(now, fleetInterval, paused) =>
      q.device in paused || now <= tr.last.at + 3 * (if tr.interval > 0 then tr.interval else fleetInterval)
    case _ => true
  }

  ghost function Traced(e: Event, q: Port, tr: Trace): Trace
    requires Keeps(e, q, tr)
  {
    if e.Reading? && e.device == q.device then
      var s := StatOf(e.stats, q.iface);
      Trace(Sample(e.t, s.hasCounters, s.c), e.interval)
    else tr
  }

  ghost predicate Followed(events: seq<Event>, q: Port, tr: Trace) {
    events == [] || (Keeps(events[0], q, tr) && Followed(events[1..], q, Traced(events[0], q, tr)))
  }

  ghost function TraceAfter(events: seq<Event>, q: Port, tr: Trace): Trace
    requires Followed(events, q, tr)
  {
    if events == [] then tr else TraceAfter(events[1..], q, Traced(events[0], q, tr))
  }

  ghost function TraceOf(samples: map<Port, Sample>, devs: Devices, q: Port): Trace
    requires q in samples
  {
    Trace(samples[q], if q.device in devs then devs[q.device].interval else 0)
  }

  lemma FollowedStep(events: seq<Event>, i: nat, q: Port, tr: Trace)
    requires i < |events| && Followed(events[i..], q, tr)
    ensures Keeps(events[i], q, tr) && Followed(events[i + 1..], q, Traced(events[i], q, tr))
    ensures TraceAfter(events[i..], q, tr) == TraceAfter(events[i + 1..], q, Traced(events[i], q, tr))
  {
    hide Keeps, Traced;
    assert events[i..][1..] == events[i + 1..];
  }

  /** A reading that keeps sight of a port with counters brings their rise. */
  lemma TracedReading(p: Ports, flushed: int, device: string, stats: seq<Stat>, t: int, interval: int, held: When,
                      q: Port, tr: Trace, f: Field)
    requires q in p.samples && p.samples[q] == tr.last && tr.last.hasCounters
    requires Keeps(Reading(device, stats, t, interval), q, tr)
    ensures var p' := ReadAll(p, flushed, device, stats, t, interval, held);
      var tr' := Traced(Reading(device, stats, t, interval), q, tr);
      && q in p'.samples && p'.samples[q] == tr'.last && tr'.last.hasCounters
      && (IsBytes(f) ==> OpenOf(p'.book, q, f) - OpenOf(p.book, q, f) == Of(tr'.last.c, f) - Of(tr.last.c, f))
  {
    hide ReadAll, OpenOf;
    if device == q.device {
      var n :| Once(stats, q.iface, n) && stats[n] == StatOf(stats, q.iface);
      ReadAllBrings(p, flushed, device, stats, t, interval, held, q, n, f);
    } else {
      assert !Read(device, stats, q);
      ReadAllNothing(p, flushed, device, stats, t, interval, held, q, f);
      ReadAllSamples(p, flushed, device, stats, t, interval, held, q);
    }
  }

  // ---------- readings while the device's interval is held open ----------

  /** ReadPort, with the increase since the reading `held` booked in the minutes it overlaps
      whatever was flushed. */
  ghost function ReadPortHeld(p: Ports, flushed: int, device: string, s: Stat, t: int, interval: int, held: When): Ports {
    var port := Port(device, s.name);
    var p' := ReadPort(p, flushed, device, s, t, interval, held);
    if port in p.samples && Usable(p.samples[port], s, t, interval) && held == At(p.samples[port].at) then
      var prev := p.samples[port];
      DeltaNonNegative(prev, s, t, interval);
      p'.(book := BookedInPlace(p.book, port, Spread(SpanOf(prev.at, t, Delta(prev, s)))))
    else p'
  }

  ghost function ReadAllHeld(p: Ports, flushed: int, device: string, stats: seq<Stat>, t: int, interval: int, held: When): Ports {
    if stats == [] then p
    else
      ReadPortHeld(ReadAllHeld(p, flushed, device, stats[..|stats| - 1], t, interval, held), flushed, device,
                   stats[|stats| - 1], t, interval, held)
  }

  lemma {:induction false} ReadAllInPlace(p: Ports, flushed: int, device: string, stats: seq<Stat>, t: int, interval: int,
                                          held: When)
    requires held.At? ==> flushed <= Trunc(held.t)
    ensures ReadAll(p, flushed, device, stats, t, interval, held) == ReadAllHeld(p, flushed, device, stats, t, interval, held)
    decreases |stats|
  {
    if stats != [] {
      var q := ReadAll(p, flushed, device, stats[..|stats| - 1], t, interval, held);
      var s := stats[|stats| - 1];
      var port := Port(device, s.name);
      ReadAllInPlace(p, flushed, device, stats[..|stats| - 1], t, interval, held);
      if port in q.samples && Usable(q.samples[port], s, t, interval) && held == At(q.samples[port].at) {
        DeltaNonNegative(q.samples[port], s, t, interval);
        NotCarried(q.book, flushed, port, SpanOf(held.t, t, Delta(q.samples[port], s)));
      }
    }
  }

  ghost predicate AllInPlace(ds: seq<Increase>) { forall i :: 0 <= i < |ds| && ds[i].expected ==> ds[i].InPlace() }

  type Devices = map<string, Device>

  /** A device whose next reading is still expected at now. */
  predicate Expected(d: Device, now: int) { d.at.At? && now - d.at.t <= d.OpenFor() }

  /** The next reading is expected for the interval, a tenth of it and 10 s after the last. */
  lemma ExpectedIs(d: Device, now: int)
    requires 0 <= d.interval
    ensures Expected(d, now) <==> d.at != Never && 10 * (now - d.at.t - 10_000_000_000) <= 11 * d.interval
  {
  }

  /** The reading a reading of the device at t is expected after. */
  function Awaited(devs: Devices, device: string, t: int): When {
    if device in devs && Expected(devs[device], t) then devs[device].at else Never
  }

  /** The minutes an expected reading will credit are all still open, and nothing after the
      clock's minute was flushed. */
  ghost predicate Held(devs: Devices, flushed: int, clock: int) {
    && flushed <= Trunc(clock)
    && forall id :: id in devs && Expected(devs[id], clock) ==> flushed <= Trunc(devs[id].at.t)
  }

  /** What a flush at now may finalise: everything before the oldest minute still expected
      to be credited, and before now's own minute. */
  ghost predicate IsBoundary(devs: Devices, now: int, b: int) {
    && b <= Trunc(now)
    && (forall id :: id in devs && Expected(devs[id], now) ==> b <= Trunc(devs[id].at.t))
    && (b == Trunc(now) || exists id :: id in devs && Expected(devs[id], now) && b == Trunc(devs[id].at.t))
  }

  lemma TruncMonotone(a: int, b: int)
    requires a <= b
    ensures Trunc(a) <= Trunc(b)
  {
  }

  /** Holds survive the passing of time ... */
  lemma HeldLater(devs: Devices, flushed: int, clock: int, now: int)
    requires Held(devs, flushed, clock) && clock <= now
    ensures Held(devs, flushed, now)
  {
    hide Trunc;
    TruncMonotone(clock, now);
  }

  /** ... an atomic flush at now ... */
  lemma HeldFlush(devs: Devices, flushed: int, now: int, b: int)
    requires Held(devs, flushed, now) && IsBoundary(devs, now, b)
    ensures Held(devs, Max(flushed, b), now)
  {
    hide Trunc;
  }

  /** ... and a reading at t. */
  lemma HeldReading(devs: Devices, flushed: int, t: int, device: string, interval: int)
    requires Held(devs, flushed, t)
    ensures Held(devs[device := Device(At(t), interval)], flushed, t)
  {
    hide Trunc;
  }

  lemma HeldSince(devs: Devices, flushed: int, t: int, device: string)
    requires Held(devs, flushed, t)
    ensures Awaited(devs, device, t).At? ==> flushed <= Trunc(Awaited(devs, device, t).t)
  {
  }

  /** A reading between the halves of a flush never leaves a minute behind the watermark when
      its device was expected as the flush chose its boundary. */
  lemma ExpectedDuringFlush(book: Book, flushed: int, devs: Devices, now: int, b: int, device: string, port: Port, s: Span)
    requires s.from < s.to && forall x :: x in book ==> flushed <= x.minute
    requires IsBoundary(devs, now, b) && Awaited(devs, device, now) == At(s.from)
    ensures var book' := Booked(FromMinute(book, b), flushed, port, Spread(s));
      forall x :: x in book' ==> Max(flushed, b) <= x.minute
  {
    ReadingDuringFlush(book, flushed, b, port, s);
  }

  // ---------- rows ----------

  predicate Idle(a: Acc) { a.sum.rxBytes == 0 && a.sum.txBytes == 0 }

  /** The rows of the minutes before b: idle ports are not written. */
  ghost function RowsBefore(book: Book, b: int): set<Row> {
    set s | s in book && s.minute < b && !Idle(book[s]) :: Row(s, book[s])
  }

  function FromMinute(book: Book, b: int): Book { map s | s in book && b <= s.minute :: book[s] }

  /** The open minutes once the slots of done have been visited. */
  ghost function Kept(book: Book, done: set<Slot>, b: int): Book {
    map s | s in book && !(s in done && s.minute < b) :: book[s]
  }

  ghost function Taken(book: Book, done: set<Slot>, b: int): set<Row> {
    set s | s in done && s in book && s.minute < b && !Idle(book[s]) :: Row(s, book[s])
  }

  lemma TakeStep(book: Book, done: set<Slot>, b: int, s: Slot)
    requires s in book && s !in done
    ensures Kept(book, done + {s}, b) == if s.minute < b then Kept(book, done, b) - {s} else Kept(book, done, b)
    ensures Row(s, book[s]) !in Taken(book, done, b)
    ensures Taken(book, done + {s}, b) ==
            Taken(book, done, b) + if s.minute < b && !Idle(book[s]) then {Row(s, book[s])} else {}
  {
  }

  lemma TakeEnds(book: Book, b: int)
    ensures Kept(book, {}, b) == book && Taken(book, {}, b) == {}
    ensures Kept(book, book.Keys, b) == FromMinute(book, b) && Taken(book, book.Keys, b) == RowsBefore(book, b)
  {
  }

  ghost function RowGauge(who: iset<Port>, f: Field): Row -> int {
    (r: Row) => if r.slot.port in who then Of(r.acc.sum, f) else 0
  }

  ghost function RowsTotal(rows: seq<Row>, who: iset<Port>, f: Field): int { SeqSum(rows, RowGauge(who, f)) }

  predicate IsBytes(f: Field) { f == RxBytes || f == TxBytes }

  lemma KeptHas(book: Book, done: set<Slot>, b: int, s: Slot)
    requires s in book && s !in done
    ensures s in Kept(book, done, b) && Kept(book, done, b)[s] == book[s]
  {
  }

  /** Taking a slot moves its bytes from the book to the rows; an idle one has none. */
  lemma TakeTotal(book: Book, rows: seq<Row>, s: Slot, who: iset<Port>, f: Field)
    requires s in book && IsBytes(f)
    ensures Idle(book[s]) ==> BookTotal(book - {s}, who, f) == BookTotal(book, who, f)
    ensures BookTotal(book - {s}, who, f) + RowsTotal(rows + [Row(s, book[s])], who, f) ==
            BookTotal(book, who, f) + RowsTotal(rows, who, f)
  {
    AmongMinus(book, who, s);
    if s.port in who {
      MapSumRemove(Among(book, who), AccGauge(f), s);
    }
    SeqSumLast(rows, Row(s, book[s]), RowGauge(who, f));
  }

  function SlotGauge(s: Slot, f: Field): Row -> int { (r: Row) => if r.slot == s then Of(r.acc.sum, f) else 0 }

  ghost function SlotWritten(rows: seq<Row>, s: Slot, f: Field): int { SeqSum(rows, SlotGauge(s, f)) }

  /** The bytes of a slot that is taken are in its row. */
  lemma SlotTaken(book: Book, b: int, rows: seq<Row>, s: Slot, f: Field)
    requires Lists(rows, RowsBefore(book, b)) && IsBytes(f)
    ensures SlotOpen(FromMinute(book, b), s, f) + SlotWritten(rows, s, f) == SlotOpen(book, s, f)
  {
    ListLength(rows, RowsBefore(book, b));
    if s in book && s.minute < b && !Idle(book[s]) {
      var r := Row(s, book[s]);
      assert r in rows;
      var i :| 0 <= i < |rows| && rows[i] == r;
      ListDistinct(rows, RowsBefore(book, b));
      forall j | 0 <= j < |rows| && j != i
        ensures SlotGauge(s, f)(rows[j]) == 0
      {
        assert rows[j] in rows && rows[j] != r;
      }
      SeqSumOnly(rows, i, SlotGauge(s, f));
    } else {
      forall j | 0 <= j < |rows|
        ensures SlotGauge(s, f)(rows[j]) == 0
      {
        assert rows[j] in rows;
      }
      SeqSumZero(rows, SlotGauge(s, f));
    }
  }

  lemma RowsAre(book: Book, b: int, rows: seq<Row>)
    requires Lists(rows, RowsBefore(book, b))
    ensures forall s :: s in book && s.minute < b ==>
      (Row(s, book[s]) in rows <==> book[s].sum.rxBytes != 0 || book[s].sum.txBytes != 0)
    ensures forall r :: r in rows ==> r.slot in book && r.slot.minute < b && r.acc == book[r.slot]
  {
    ListLength(rows, RowsBefore(book, b));
  }

  // ---------- the share loop ----------

  /** What is credited once `done` of `total` is: all of it at the end. */
  function ShareUpto(delta: nat, done: nat, total: nat, last: bool): int
    requires 0 < total
  {
    if last then delta else RoundDiv(delta * done, total)
  }

  function SharesUpto(d: Traffic, done: nat, total: nat, last: bool): Traffic
    requires 0 < total && NonNegative(d)
  {
    Traffic(ShareUpto(d.rxBytes, done, total, last), ShareUpto(d.txBytes, done, total, last),
            ShareUpto(d.rxPackets, done, total, last), ShareUpto(d.txPackets, done, total, last))
  }

  function Less(a: Traffic, b: Traffic): Traffic {
    Traffic(a.rxBytes - b.rxBytes, a.txBytes - b.txBytes, a.rxPackets - b.rxPackets, a.txPackets - b.txPackets)
  }

  lemma SharesUptoAre(s: Span, t: int)
    requires s.Valid() && NonNegative(s.d) && s.Rounded()
    ensures var done := Elapsed(s.from, s.to, t);
      forall f :: Of(SharesUpto(s.d, done, s.to - s.from, done >= s.to - s.from), f) == s.upto(f, t)
  {
    hide RoundDiv;
    var done := Elapsed(s.from, s.to, t);
    forall f: Field
      ensures Of(SharesUpto(s.d, done, s.to - s.from, done >= s.to - s.from), f) == s.upto(f, t)
    {
      assert done >= s.to - s.from ==> s.to <= t;
      assert s.upto(f, t) == RoundDiv(Of(s.d, f) * done, s.to - s.from);
    }
  }

  lemma SliceIs(s: Span, m: int, credited: Traffic, now: Traffic)
    requires (forall f :: Of(credited, f) == s.upto(f, m)) && (forall f :: Of(now, f) == s.upto(f, m + MINUTE))
    ensures Less(now, credited) == Between(s, m, m + MINUTE)
  {
    assert Of(now, RxBytes) == s.upto(RxBytes, m + MINUTE) && Of(credited, RxBytes) == s.upto(RxBytes, m);
    assert Of(now, TxBytes) == s.upto(TxBytes, m + MINUTE) && Of(credited, TxBytes) == s.upto(TxBytes, m);
    assert Of(now, RxPackets) == s.upto(RxPackets, m + MINUTE) && Of(credited, RxPackets) == s.upto(RxPackets, m);
    assert Of(now, TxPackets) == s.upto(TxPackets, m + MINUTE) && Of(credited, TxPackets) == s.upto(TxPackets, m);
  }

  /** t is what the interval credits to the time before m. */
  ghost predicate CreditedBefore(t: Traffic, s: Span, m: int) {
    forall f :: Of(t, f) == s.upto(f, m)
  }

  lemma NothingBefore(s: Span, m: int, t: Traffic)
    requires s.Valid() && m <= s.from && forall f :: Of(t, f) == 0
    ensures CreditedBefore(t, s, m) && Elapsed(s.from, s.to, m) == 0
  {
  }

  lemma NothingAfter(book: Book, flushed: int, port: Port, s: Span, m: int)
    requires s.to <= m
    ensures Booked(book, flushed, port, PiecesFrom(s, m)) == book
  {
  }

  lemma ElapsedStep(from: int, to: int, m: int)
    requires from < to && from < m + MINUTE && m < to
    ensures Elapsed(from, to, m + MINUTE) == Elapsed(from, to, m) + Min(to, m + MINUTE) - Max(from, m)
    ensures Elapsed(from, to, m + MINUTE) >= to - from <==> to <= m + MINUTE
  {
  }

  /** One minute of the share loop books the first piece that is left. */
  lemma BookStep(book: Book, flushed: int, port: Port, s: Span, m: int, credited: Traffic)
    requires s.Valid() && NonNegative(s.d) && s.Rounded() && m < s.to && s.from < m + MINUTE
    requires CreditedBefore(credited, s, m)
    ensures var done := Elapsed(s.from, s.to, m + MINUTE);
      var last := done >= s.to - s.from;
      var now := SharesUpto(s.d, done, s.to - s.from, last);
      && CreditedBefore(now, s, m + MINUTE)
      && Booked(Credit(book, Slot(Max(m, flushed), port), Less(now, credited), Overlap(s, m), if last then 1 else 0),
                flushed, port, PiecesFrom(s, m + MINUTE))
         == Booked(book, flushed, port, PiecesFrom(s, m))
  {
    hide SharesUpto, Between, Credit, Less, Elapsed;
    ElapsedStep(s.from, s.to, m);
    SharesUptoAre(s, m + MINUTE);
    var done := Elapsed(s.from, s.to, m + MINUTE);
    SliceIs(s, m, credited, SharesUpto(s.d, done, s.to - s.from, done >= s.to - s.from));
  }

  /** One slot visited: taken when it is before b, and written unless it is idle. */
  function TakeOne(book: Book, s: Slot, b: int): Book { if s.minute < b then book - {s} else book }

  function WriteOne(rows: seq<Row>, book: Book, s: Slot, b: int): seq<Row>
    requires s in book
  {
    if s.minute < b && !Idle(book[s]) then rows + [Row(s, book[s])] else rows
  }

  lemma TakeOneKeeps(b0: Book, done: set<Slot>, b: int, s: Slot, rows: seq<Row>)
    requires s in b0 && s !in done && Lists(rows, Taken(b0, done, b))
    ensures var kept := Kept(b0, done, b);
      && s in kept
      && TakeOne(kept, s, b) == Kept(b0, done + {s}, b)
      && Lists(WriteOne(rows, kept, s, b), Taken(b0, done + {s}, b))
  {
    hide Kept, Taken;
    TakeStep(b0, done, b, s);
    KeptHas(b0, done, b, s);
  }

  lemma TakeOneTotal(book: Book, s: Slot, b: int, rows: seq<Row>, who: iset<Port>, f: Field)
    requires s in book && IsBytes(f)
    ensures BookTotal(TakeOne(book, s, b), who, f) + RowsTotal(WriteOne(rows, book, s, b), who, f) ==
            BookTotal(book, who, f) + RowsTotal(rows, who, f)
  {
    hide BookTotal, RowsTotal;
    TakeTotal(book, rows, s, who, f);
  }

  /** Removes the minutes before b and returns their rows: the bytes go with them. */
  method TakeBefore(book: Book, b: int) returns (kept: Book, rows: seq<Row>)
    ensures kept == FromMinute(book, b)
    ensures Lists(rows, RowsBefore(book, b)) && SortedBy(rows, InOrder)
    ensures forall who, f :: IsBytes(f) ==> BookTotal(kept, who, f) + RowsTotal(rows, who, f) == BookTotal(book, who, f)
  {
    hide Kept, Taken, BookTotal, FromMinute, RowsBefore, TakeOne, WriteOne;
    kept, rows := book, [];
    var todo := book.Keys;
    ghost var done: set<Slot> := {};
    TakeEnds(book, b);
    while todo != {}
      invariant done + todo == book.Keys && done !! todo
      invariant kept == Kept(book, done, b) && Lists(rows, Taken(book, done, b))
      invariant forall who, f :: IsBytes(f) ==> BookTotal(kept, who, f) + RowsTotal(rows, who, f) == BookTotal(book, who, f)
    {
      hide RowsTotal;
      var s :| s in todo;
      TakeOneKeeps(book, done, b, s, rows);
      forall who: iset<Port>, f: Field | IsBytes(f)
        ensures BookTotal(TakeOne(kept, s, b), who, f) + RowsTotal(WriteOne(rows, kept, s, b), who, f) ==
                BookTotal(kept, who, f) + RowsTotal(rows, who, f)
      {
        TakeOneTotal(kept, s, b, rows, who, f);
      }
      kept, rows := TakeOne(kept, s, b), WriteOne(rows, kept, s, b);
      done, todo := done + {s}, todo - {s};
    }
    assert done == book.Keys;
    InOrderOrders();
    SortPermutes(rows, InOrder);
    SortSorts(rows, InOrder);
    forall who: iset<Port>, f: Field
      ensures RowsTotal(SortBy(rows, InOrder), who, f) == RowsTotal(rows, who, f)
    {
      SeqSumPermute(rows, SortBy(rows, InOrder), RowGauge(who, f));
    }
    rows := SortBy(rows, InOrder);
  }

  /** By minute, then device, then interface. */
  const InOrder := (a: Row, b: Row) => SlotLe(a.slot, b.slot)

  predicate SlotLe(a: Slot, b: Slot) {
    if a.minute != b.minute then a.minute < b.minute
    else if a.port.device != b.port.device then Le(a.port.device, b.port.device)
    else Le(a.port.iface, b.port.iface)
  }

  lemma SlotLeTransitive(a: Slot, b: Slot, c: Slot)
    requires SlotLe(a, b) && SlotLe(b, c)
    ensures SlotLe(a, c)
  {
    var d, e, f := a.port.device, b.port.device, c.port.device;
    if a.minute == b.minute == c.minute {
      if d == e == f {
        LeTransitive(a.port.iface, b.port.iface, c.port.iface);
      } else {
        if d == e || e == f {
        } else {
          LeTransitive(d, e, f);
        }
        if d == f {
          LeAntisymmetric(d, e);
        }
      }
    }
  }

  lemma RowsOrdered(rows: seq<Row>)
    requires SortedBy(rows, InOrder)
    ensures forall i, j :: 0 <= i < j < |rows| ==> Ahead(rows[i].slot, rows[j].slot)
  {
    forall i, j | 0 <= i < j < |rows|
      ensures Ahead(rows[i].slot, rows[j].slot)
    {
      assert InOrder(rows[i], rows[j]);
      SlotAhead(rows[i].slot, rows[j].slot);
    }
  }

  /** Not a later minute; in one minute, not a later device; of one device, not a later interface. */
  predicate Ahead(s: Slot, x: Slot) {
    && s.minute <= x.minute
    && (s.minute == x.minute ==> Le(s.port.device, x.port.device))
    && (s.minute == x.minute && s.port.device == x.port.device ==> Le(s.port.iface, x.port.iface))
  }

  lemma SlotAhead(s: Slot, x: Slot)
    requires SlotLe(s, x)
    ensures Ahead(s, x)
  {
    LeTotal(s.port.device, s.port.device);
  }

  lemma InOrderOrders()
    ensures TotalPreorder(InOrder)
  {
    forall x: Row, y: Row
      ensures InOrder(x, y) || InOrder(y, x)
    {
      LeTotal(x.slot.port.device, y.slot.port.device);
      LeTotal(x.slot.port.iface, y.slot.port.iface);
    }
    forall x: Row, y: Row, z: Row | InOrder(x, y) && InOrder(y, z)
      ensures InOrder(x, z)
    {
      SlotLeTransitive(x.slot, y.slot, z.slot);
    }
  }

  // ---------- runs ----------

  /** The collector's steps, a flush split at its lock: taking minutes and advancing the
      watermark may have other steps between them. */
  datatype Event =
    | Reading(device: string, stats: seq<Stat>, t: int, interval: int)
    | TakeMinutes(b: int)
    | AdvanceTo(b: int)
    | EndCycle(now: int, fleetInterval: int, paused: set<string>)

  /** Steps with a flush in one piece. */
  datatype Timed =
    | ReadingAt(t: int, device: string, stats: seq<Stat>, interval: int)
    | FlushAt(t: int)
    | EndCycleAt(t: int, fleetInterval: int, paused: set<string>)

  /** The clock never steps back. */
  predicate Monotone(clock: int, events: seq<Timed>) {
    && (forall i :: 0 <= i < |events| ==> clock <= events[i].t)
    && (forall i, j :: 0 <= i < j < |events| ==> events[i].t <= events[j].t)
  }

  // ---------- the collector ----------

  class Collector {
    var samples: map<Port, Sample>
    var book: Book                  // the open minutes, port by port
    var devs: Devices
    var flushedThrough: int
    var written: seq<Row>           // every row taken for the database
    ghost var deltas: seq<Increase> // every increase counted

    /** No byte is lost or counted twice, for every group of ports and every minute of each. */
    ghost predicate Valid()
      reads this
    {
      && (forall who, f :: IsBytes(f) ==> BookTotal(book, who, f) + RowsTotal(written, who, f) == DeltaTotal(deltas, who, f))
      && (forall s, f :: IsBytes(f) ==> SlotOpen(book, s, f) + SlotWritten(written, s, f) == SlotDue(deltas, s, f))
    }

    constructor ()
      ensures Valid() && book == map[] && samples == map[] && devs == map[] && written == [] && deltas == []
      ensures flushedThrough == ZERO_TIME
    {
      samples, book, devs, flushedThrough, written, deltas := map[], map[], map[], ZERO_TIME, [], [];
    }

    ghost function State(): Ports
      reads this
    {
      Ports(samples, book, deltas)
    }

    /** Spreads one usable interval over the minutes it overlaps. */
    method Accumulate(port: Port, from: int, to: int, d: Traffic)
      requires from < to && NonNegative(d)
      modifies this`book
      ensures book == Booked(old(book), flushedThrough, port, Spread(SpanOf(from, to, d)))
    {
      hide SharesUpto, Credit, Less, CreditedBefore, Booked, PiecesFrom, Elapsed;
      ghost var s := SpanOf(from, to, d);
      var total := to - from;
      var done := 0;
      var credited := Traffic(0, 0, 0, 0);
      var m := Trunc(from);
      NothingBefore(s, m, credited);
      while m < to
        invariant from < m + MINUTE && done == Elapsed(from, to, m)
        invariant CreditedBefore(credited, s, m)
        invariant Booked(book, flushedThrough, port, PiecesFrom(s, m)) ==
                  Booked(old(book), flushedThrough, port, Spread(s))
      {
        var overlap := Min(to, m + MINUTE) - Max(from, m);
        if overlap > 0 {
          ElapsedStep(from, to, m);
          done := done + overlap;
          var last := done >= total;
          var now := SharesUpto(d, done, total, last);
          BookStep(book, flushedThrough, port, s, m, credited);
          book := Credit(book, Slot(Max(m, flushedThrough), port), Less(now, credited), overlap, if last then 1 else 0);
          credited := now;
        }
        m := m + MINUTE;
      }
      NothingAfter(book, flushedThrough, port, s, m);
    }

    /** One device's reading at t: rates aside, minute accumulations and the new samples. */
    method Ingest(device: string, stats: seq<Stat>, t: int, interval: int)
      modifies this`samples, this`book, this`devs, this`deltas
      ensures State() == ReadAll(old(State()), flushedThrough, device, stats, t, interval, Awaited(old(devs), device, t))
      ensures devs == old(devs)[device := Device(At(t), interval)]
      ensures old(Valid()) ==> Valid()
      // the ports read have a sample as old as the device's last reading, the others keep theirs
      ensures forall p :: Read(device, stats, p) ==> p in samples && At(samples[p].at) == devs[device].at
      ensures forall p :: !Read(device, stats, p) ==> (p in samples <==> p in old(samples))
      ensures forall p :: !Read(device, stats, p) && p in samples ==> samples[p] == old(samples)[p]
      // each port read brings what its counters say, the others nothing
      ensures forall q: Port, n, f :: q.device == device && Once(stats, q.iface, n) ==>
        OpenOf(book, q, f) - OpenOf(old(book), q, f) ==
        if q in old(samples) then Brought(old(samples)[q], stats[n], t, interval, f) else 0
      ensures forall q, f :: !Read(device, stats, q) ==> OpenOf(book, q, f) == OpenOf(old(book), q, f)
      // no minute before the watermark is opened
      ensures forall s :: s in book && s !in old(book) ==> flushedThrough <= s.minute
      ensures old(deltas) <= deltas
      // a reading while the device's interval is held open is booked minute by minute
      ensures forall clock :: Held(old(devs), flushedThrough, clock) && clock <= t ==>
        && Held(devs, flushedThrough, t)
        && State() == ReadAllHeld(old(State()), flushedThrough, device, stats, t, interval, Awaited(old(devs), device, t))
        && AllInPlace(deltas[|old(deltas)|..])
    {
      hide ReadPort, ReadAll, Held, BookTotal, DeltaTotal, RowsTotal, SlotOpen, SlotDue, SlotWritten, Awaited, Read, Brought,
        OpenOf;
      ghost var p, held := State(), Awaited(devs, device, t);
      devs := devs[device := Device(At(t), interval)];
      ReadStats(device, stats, t, interval, held);
      ReadAllOpen(p, flushedThrough, device, stats, t, interval, held);
      forall who: iset<Port>, f: Field
        ensures BookTotal(book, who, f) - DeltaTotal(deltas, who, f) == BookTotal(p.book, who, f) - DeltaTotal(p.deltas, who, f)
      {
        ReadAllTotal(p, flushedThrough, device, stats, t, interval, held, who, f);
      }
      forall x: Slot, f: Field
        ensures SlotOpen(book, x, f) - SlotDue(deltas, x, f) == SlotOpen(p.book, x, f) - SlotDue(p.deltas, x, f)
      {
        ReadAllDue(p, flushedThrough, device, stats, t, interval, held, x, f);
      }
      forall port
        ensures Read(device, stats, port) ==> port in samples && samples[port].at == t
        ensures !Read(device, stats, port) ==>
          (port in samples <==> port in p.samples) && (port in samples ==> samples[port] == p.samples[port])
      {
        ReadAllSamples(p, flushedThrough, device, stats, t, interval, held, port);
      }
      forall q: Port, n, f | q.device == device && Once(stats, q.iface, n)
        ensures OpenOf(book, q, f) - OpenOf(p.book, q, f) ==
                if q in p.samples then Brought(p.samples[q], stats[n], t, interval, f) else 0
      {
        ReadAllBrings(p, flushedThrough, device, stats, t, interval, held, q, n, f);
      }
      forall q, f | !Read(device, stats, q)
        ensures OpenOf(book, q, f) == OpenOf(p.book, q, f)
      {
        ReadAllNothing(p, flushedThrough, device, stats, t, interval, held, q, f);
      }
      forall clock | Held(old(devs), flushedThrough, clock) && clock <= t
        ensures Held(devs, flushedThrough, t) && AllInPlace(deltas[|p.deltas|..])
        ensures State() == ReadAllHeld(p, flushedThrough, device, stats, t, interval, held)
      {
        HeldLater(old(devs), flushedThrough, clock, t);
        HeldReading(old(devs), flushedThrough, t, device, interval);
        HeldSince(old(devs), flushedThrough, t, device);
        ReadAllInPlace(p, flushedThrough, device, stats, t, interval, held);
      }
    }

    method ReadStats(device: string, stats: seq<Stat>, t: int, interval: int, ghost held: When)
      modifies this`samples, this`book, this`deltas
      ensures State() == ReadAll(old(State()), flushedThrough, device, stats, t, interval, held)
    {
      hide ReadPort;
      ghost var p := State();
      for i := 0 to |stats|
        invariant State() == ReadAll(p, flushedThrough, device, stats[..i], t, interval, held)
      {
        assert stats[..i + 1][..i] == stats[..i];
        ReadStat(device, stats[i], t, interval, held);
      }
      assert stats[..|stats|] == stats;
    }

    method ReadStat(device: string, s: Stat, t: int, interval: int, ghost held: When)
      modifies this`samples, this`book, this`deltas
      ensures State() == ReadPort(old(State()), flushedThrough, device, s, t, interval, held)
    {
      hide Spread, Booked;
      var port := Port(device, s.name);
      if port in samples {
        var prev := samples[port];
        if prev.hasCounters && s.running && s.hasCounters {
          var dt := t - prev.at;
          var d := Delta(prev, s);
          if 0 < dt <= 3 * interval && 0 <= d.rxBytes && 0 <= d.txBytes {
            Accumulate(port, prev.at, t, d);
            deltas := deltas + [Increase(port, SpanOf(prev.at, t, d), flushedThrough, held == At(prev.at))];
          }
        }
      }
      samples := samples[port := Sample(t, s.hasCounters, s.c)];
    }

    /** The exclusive end of the minutes a flush at now may finalise. */
    method FlushBoundary(now: int) returns (b: int)
      ensures IsBoundary(devs, now, b)
    {
      hide Trunc;
      b := Trunc(now);
      var ids := Enumerate(devs.Keys);
      ListLength(ids, devs.Keys);
      for i := 0 to |ids|
        invariant b <= Trunc(now)
        invariant forall j :: 0 <= j < i && Expected(devs[ids[j]], now) ==> b <= Trunc(devs[ids[j]].at.t)
        invariant b == Trunc(now) || exists id :: id in devs && Expected(devs[id], now) && b == Trunc(devs[id].at.t)
      {
        var id := ids[i];
        assert id in ids;
        var d := devs[id];
        if d.at.At? && now - d.at.t <= d.OpenFor() {
          var m := Trunc(d.at.t);
          if m < b {
            b := m;
          }
          assert Expected(devs[id], now);
        }
      }
    }

    /** Removes the minutes before b and hands their rows over; idle ports are skipped. */
    method TakeMinutesBefore(b: int) returns (rows: seq<Row>)
      modifies this`book, this`written
      ensures book == FromMinute(old(book), b)
      ensures Lists(rows, RowsBefore(old(book), b)) && SortedBy(rows, InOrder)
      ensures written == old(written) + rows
      ensures old(Valid()) ==> Valid()
      ensures forall q, f :: IsBytes(f) ==> HeldOf(q, f) == old(HeldOf(q, f))
      // a row for each early slot that moved bytes, by minute, device and interface
      ensures forall s :: s in old(book) && s.minute < b ==>
        (Row(s, old(book)[s]) in rows <==> old(book)[s].sum.rxBytes != 0 || old(book)[s].sum.txBytes != 0)
      ensures forall r :: r in rows ==> r.slot in old(book) && r.slot.minute < b && r.acc == old(book)[r.slot]
      ensures forall i, j :: 0 <= i < j < |rows| ==> Ahead(rows[i].slot, rows[j].slot)
    {
      hide BookTotal, DeltaTotal, SlotOpen, SlotDue, RowsBefore, FromMinute, Ahead, SortedBy;
      book, rows := TakeBefore(book, b);
      RowsAre(old(book), b, rows);
      RowsOrdered(rows);
      forall who: iset<Port>, f: Field
        ensures RowsTotal(written + rows, who, f) == RowsTotal(written, who, f) + RowsTotal(rows, who, f)
      {
        SeqSumConcat(written, rows, RowGauge(who, f));
      }
      forall s: Slot, f: Field | IsBytes(f)
        ensures SlotOpen(book, s, f) + SlotWritten(written + rows, s, f) ==
                SlotOpen(old(book), s, f) + SlotWritten(written, s, f)
      {
        SeqSumConcat(written, rows, SlotGauge(s, f));
        SlotTaken(old(book), b, rows, s, f);
      }
      written := written + rows;
    }

    /** Advances the watermark, never back. */
    method Advance(b: int)
      modifies this`flushedThrough
      ensures flushedThrough == Max(old(flushedThrough), b)
      ensures old(Valid()) ==> Valid()
    {
      if flushedThrough < b {
        flushedThrough := b;
      }
    }

    /** A flush in one step: minutes before the watermark are final, and every device whose
        next reading is expected keeps the minutes it will credit open. */
    method Flush(now: int) returns (rows: seq<Row>)
      modifies this`book, this`written, this`flushedThrough
      ensures old(Valid()) ==> Valid()
      ensures exists b ::
        && IsBoundary(devs, now, b) && flushedThrough == Max(old(flushedThrough), b)
        && book == FromMinute(old(book), b) && Lists(rows, RowsBefore(old(book), b)) && SortedBy(rows, InOrder)
      ensures old(Final()) ==> Final()
      ensures forall clock :: Held(devs, old(flushedThrough), clock) && clock <= now ==> Held(devs, flushedThrough, now)
    {
      hide Held, IsBoundary, BookTotal, RowsTotal, DeltaTotal;
      var b := FlushBoundary(now);
      rows := TakeMinutesBefore(b);
      Advance(b);
      forall clock | Held(devs, old(flushedThrough), clock) && clock <= now
        ensures Held(devs, flushedThrough, now)
      {
        HeldLater(devs, old(flushedThrough), clock, now);
        HeldFlush(devs, old(flushedThrough), now, b);
      }
    }

    /** No open minute lies before the watermark. */
    ghost predicate Final()
      reads this
    {
      forall s :: s in book ==> flushedThrough <= s.minute
    }

    /** The end of a cycle: samples and readings not refreshed for three intervals expire,
        except a paused device's. */
    method Expire(now: int, fleetInterval: int, paused: set<string>)
      modifies this`samples, this`devs
      ensures forall p :: p in samples ==> p in old(samples) && samples[p] == old(samples)[p]
      ensures forall p :: p in old(samples) ==>
        (p in samples <==>
          || p.device in paused
          || (p.device in old(devs) && 0 < old(devs)[p.device].interval
              && now <= old(samples)[p].at + 3 * old(devs)[p.device].interval)
          || (!(p.device in old(devs) && 0 < old(devs)[p.device].interval) && now <= old(samples)[p].at + 3 * fleetInterval))
      ensures devs.Keys == old(devs).Keys
      ensures forall id :: id in devs ==>
        && devs[id].interval == old(devs)[id].interval
        && devs[id].at == if id in paused || old(devs)[id].at == Never || now <= old(devs)[id].at.t + 3 * old(devs)[id].interval
                          then old(devs)[id].at else Never
      ensures old(Valid()) ==> Valid()
      ensures forall clock :: Held(old(devs), flushedThrough, clock) ==> Held(devs, flushedThrough, clock)
    {
      samples := map p | p in samples
        && (p.device in paused || now - samples[p].at <= 3 * IntervalOf(devs, p.device, fleetInterval)) :: samples[p];
      devs := map id | id in devs :: if Stale(devs[id], id, now, paused) then devs[id].(at := Never) else devs[id];
    }

    /** What is open and was written of one port. */
    ghost function HeldOf(q: Port, f: Field): int
      reads this
    {
      OpenOf(book, q, f) + RowsTotal(written, iset{q}, f)
    }

    /** Under any interleaving of readings, expiry and the two halves of a flush, with any
        times and boundaries, the bytes in open minutes and written rows are the increases
        counted, for every minute of every port, and the watermark never moves back. Of a port
        q that is never lost sight of they rise by exactly what its counters rose from the first
        reading to the last. */
    method Interleave(events: seq<Event>, ghost q: Port)
      requires Valid()
      modifies this
      ensures Valid() && old(flushedThrough) <= flushedThrough
      ensures old(written) <= written && old(deltas) <= deltas
      ensures q in old(samples) && old(samples)[q].hasCounters && Followed(events, q, old(TraceOf(samples, devs, q))) ==>
        var last := TraceAfter(events, q, old(TraceOf(samples, devs, q))).last;
        && q in samples && samples[q] == last
        && HeldOf(q, RxBytes) - old(HeldOf(q, RxBytes)) == last.c.rxBytes - old(samples)[q].c.rxBytes
        && HeldOf(q, TxBytes) - old(HeldOf(q, TxBytes)) == last.c.txBytes - old(samples)[q].c.txBytes
    {
      ghost var seen := q in samples && samples[q].hasCounters && Followed(events, q, TraceOf(samples, devs, q));
      assert events[0..] == events;
      hide BookTotal, RowsTotal, DeltaTotal, SlotOpen, SlotDue, SlotWritten, ReadAll, ReadAllHeld, Held, Awaited, Read, Followed,
        TraceAfter, Keeps, Traced;
      for i := 0 to |events|
        invariant Valid() && old(flushedThrough) <= flushedThrough
        invariant old(written) <= written && old(deltas) <= deltas
        invariant seen ==> q in samples && samples[q].hasCounters && Followed(events[i..], q, TraceOf(samples, devs, q))
        invariant seen ==>
          TraceAfter(events[i..], q, TraceOf(samples, devs, q)) == TraceAfter(events, q, old(TraceOf(samples, devs, q)))
        invariant seen ==> forall f :: IsBytes(f) ==>
          HeldOf(q, f) - old(HeldOf(q, f)) == Of(samples[q].c, f) - Of(old(samples)[q].c, f)
      {
        if seen {
          FollowedStep(events, i, q, TraceOf(samples, devs, q));
        }
        Take(events[i], q);
      }
      if seen {
        assert events[|events|..] == [];
        NoEvents(q, TraceOf(samples, devs, q));
        assert IsBytes(RxBytes) && IsBytes(TxBytes);
      }
    }

    /** One event. */
    method Take(e: Event, ghost q: Port)
      requires Valid()
      modifies this
      ensures Valid() && old(flushedThrough) <= flushedThrough
      ensures old(written) <= written && old(deltas) <= deltas
      ensures q in old(samples) && old(samples)[q].hasCounters && Keeps(e, q, old(TraceOf(samples, devs, q))) ==>
        && q in samples && samples[q].hasCounters
        && TraceOf(samples, devs, q) == Traced(e, q, old(TraceOf(samples, devs, q)))
        && forall f :: IsBytes(f) ==> HeldOf(q, f) - old(HeldOf(q, f)) == Of(samples[q].c, f) - Of(old(samples)[q].c, f)
    {
      hide BookTotal, RowsTotal, DeltaTotal, SlotOpen, SlotDue, SlotWritten, ReadAll, ReadAllHeld, Held, Awaited, Read;
      match e
      case Reading(device, stats, t, interval) =>
        ghost var p, held := State(), Awaited(devs, device, t);
        ghost var seen := q in samples && samples[q].hasCounters && Keeps(e, q, TraceOf(samples, devs, q));
        ghost var tr := if seen then TraceOf(samples, devs, q) else Trace(Sample(0, false, Traffic(0, 0, 0, 0)), 0);
        Ingest(device, stats, t, interval);
        if seen {
          forall f: Field
            ensures IsBytes(f) ==> OpenOf(book, q, f) - OpenOf(p.book, q, f) == Of(Traced(e, q, tr).last.c, f) - Of(tr.last.c, f)
          {
            TracedReading(p, flushedThrough, device, stats, t, interval, held, q, tr, f);
          }
          TracedReading(p, flushedThrough, device, stats, t, interval, held, q, tr, RxBytes);
        }
      case TakeMinutes(b) =>
        var rows := TakeMinutesBefore(b);
      case AdvanceTo(b) =>
        Advance(b);
      case EndCycle(now, fleetInterval, paused) =>
        Expire(now, fleetInterval, paused);
    }

    /** With flushes in one piece and a clock that never steps back, flushed minutes are
        final and every expected reading finds the minutes it will credit open, after every
        step of every run. */
    method RunAtomically(events: seq<Timed>, clock: int)
      requires Valid() && Final() && Held(devs, flushedThrough, clock) && Monotone(clock, events)
      modifies this
      ensures Valid() && Final()
      ensures Held(devs, flushedThrough, if events == [] then clock else events[|events| - 1].t)
      // every increase of an expected reading was booked in the minutes it overlaps
      ensures old(deltas) <= deltas && AllInPlace(deltas[|old(deltas)|..])
    {
      hide Held, Valid, BookTotal, ReadAll, ReadAllHeld, IsBoundary, Awaited, Read;
      ghost var now := clock;
      for i := 0 to |events|
        invariant Valid() && Final() && Held(devs, flushedThrough, now)
        invariant old(deltas) <= deltas && AllInPlace(deltas[|old(deltas)|..])
        invariant now == if i == 0 then clock else events[i - 1].t
      {
        assert now <= events[i].t;
        match events[i] {
          case ReadingAt(t, device, stats, interval) =>
            Ingest(device, stats, t, interval);
          case FlushAt(t) =>
            var rows := Flush(t);
          case EndCycleAt(t, fleetInterval, paused) =>
            Expire(t, fleetInterval, paused);
            HeldLater(devs, flushedThrough, now, t);
        }
        now := events[i].t;
      }
    }
  }

  lemma NoEvents(q: Port, tr: Trace)
    ensures Followed([], q, tr) && TraceAfter([], q, tr) == tr
  {
  }

  function IntervalOf(devs: Devices, id: string, fleetInterval: int): int {
    if id in devs && devs[id].interval > 0 then devs[id].interval else fleetInterval
  }

  predicate Stale(d: Device, id: string, now: int, paused: set<string>) {
    d.at.At? && !(now - d.at.t <= 3 * d.interval) && id !in paused
  }

  lemma ReadOne(p: Ports, flushed: int, device: string, s: Stat, t: int, interval: int, held: When)
    ensures ReadAll(p, flushed, device, [s], t, interval, held) == ReadPort(p, flushed, device, s, t, interval, held)
  {
    hide ReadPort;
    assert [s][..0] == [];
    assert ReadAll(p, flushed, device, [], t, interval, held) == p;
  }

  /** A usable reading opens the minute its interval starts in, or the watermark's. */
  lemma ReadOpens(p: Ports, flushed: int, device: string, s: Stat, t: int, interval: int, held: When)
    requires Port(device, s.name) in p.samples && Usable(p.samples[Port(device, s.name)], s, t, interval)
    ensures var port := Port(device, s.name);
      Slot(Max(Trunc(p.samples[port].at), flushed), port) in ReadAll(p, flushed, device, [s], t, interval, held).book
  {
    var port := Port(device, s.name);
    var prev := p.samples[port];
    ReadOne(p, flushed, device, s, t, interval, held);
    DeltaNonNegative(prev, s, t, interval);
    BookedSlots(p.book, flushed, port, SpanOf(prev.at, t, Delta(prev, s)), Trunc(prev.at));
  }

  lemma FirstReading(p: Ports, flushed: int, device: string, s: Stat, t: int, interval: int, held: When)
    requires p.samples == map[] && p.book == map[]
    ensures var p' := ReadAll(p, flushed, device, [s], t, interval, held);
      p'.samples == map[Port(device, s.name) := Sample(t, s.hasCounters, s.c)] && p'.book == map[]
  {
    ReadOne(p, flushed, device, s, t, interval, held);
  }

  lemma NobodyExpected(devs: Devices, now: int, b: int)
    requires IsBoundary(devs, now, b) && forall id :: id in devs ==> !Expected(devs[id], now)
    ensures b == Trunc(now)
  {
  }

  /** A flush at `now` no longer expects the device, chooses now's minute and takes what is
      before it; the device answers after all, and its reading is booked before the flush
      advances the watermark: a minute stays open behind it. */
  method ReadingBetween(device: string, first: Stat, again: Stat, t0: int, now: int, t: int, interval: int)
    returns (c: Collector)
    requires ZERO_TIME <= t0 && Trunc(t0) < Trunc(now)
    requires first.hasCounters && again.name == first.name && Usable(Sample(t0, true, first.c), again, t, interval)
    requires !Expected(Device(At(t0), interval), now)
    ensures c.Valid() && !c.Final()
  {
    hide Trunc, ReadAll, FromMinute, RowsBefore, BookTotal, RowsTotal, DeltaTotal, SlotOpen, SlotDue, SlotWritten, Held,
      Awaited, Read, IsBoundary, Usable, Expected;
    c := new Collector();
    FirstReading(c.State(), ZERO_TIME, device, first, t0, interval, Awaited(c.devs, device, t0));
    c.Ingest(device, [first], t0, interval);
    var b := c.FlushBoundary(now);
    NobodyExpected(c.devs, now, b);
    var rows := c.TakeMinutesBefore(b);
    ReadOpens(c.State(), ZERO_TIME, device, again, t, interval, Awaited(c.devs, device, t));
    c.Ingest(device, [again], t, interval);
    c.Advance(b);
    AfterZero(t0);
  }

  lemma AfterZero(t: int)
    requires ZERO_TIME <= t
    ensures ZERO_TIME <= Trunc(t)
  {
  }

  /** Read at 0 s every 60 s, held for 76 s, flushed at 130 s and read again at 140 s. */
  method ReadingAfterHold(device: string, first: Stat, again: Stat) returns (c: Collector)
    requires first.hasCounters && again.running && again.hasCounters && again.name == first.name
    requires first.c.rxBytes <= again.c.rxBytes && first.c.txBytes <= again.c.txBytes
    ensures c.Valid() && !c.Final()
  {
    c := ReadingBetween(device, first, again, 0, 130 * SECOND, 140 * SECOND, 60 * SECOND);
  }
}
