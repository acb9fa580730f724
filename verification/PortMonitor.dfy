/**
 * Watching the links of a device: transitions between two readings of an
 * interface, and flaps counted over a trailing window.
 */
module PortMonitor {
  import opened Arith
  import opened Moments

  const MAX_INT32 := 0x7FFF_FFFF

  datatype Settings = Settings(flapThreshold: int, flapWindow: int, inLoop: string -> bool)

  datatype Times = Times(lastUp: string, lastDown: string)

  datatype About = About(kind: string, slave: bool, comment: string)

  datatype Reading = Reading(name: string, about: About, running: bool, disabled: bool, times: Times,
                             linkDowns: int, hasLinkDowns: bool, hasEthernet: bool, loopProtect: string)

  datatype Mark = Mark(at: int, n: nat)

  /** How the link was at the previous reading. */
  datatype Link = Link(running: bool, disabled: bool, times: Times, loopProtect: string)

  /** The link-downs counter of the previous reading, and when it was read. */
  datatype Base = Base(linkDowns: int, hasLinkDowns: bool, seenAt: When)

  /** The flaps in the window, and whether an event for them stands. */
  datatype Alarm = Alarm(flaps: seq<Mark>, firing: bool, firedAt: int)

  datatype Port = Port(link: Link, base: Base, alarm: Alarm)

  datatype Event = LinkDown | Disabled | LoopProtect(status: string) | LinkFlap(count: int)

  datatype Row = Row(device: string, name: string, about: About, link: Link, flapCount: int)

  /** The settings as they are ever loaded: a positive threshold and window. */
  ghost predicate ValidSettings(s: Settings) { s.flapThreshold > 0 && s.flapWindow > 0 }

  // ---------- flaps in a window ----------

  /** The marks at or after the cutoff. */
  function Recent(flaps: seq<Mark>, cutoff: int): seq<Mark> {
    if flaps == [] then []
    else
      var kept, f := Recent(flaps[..|flaps| - 1], cutoff), flaps[|flaps| - 1];
      if f.at >= cutoff then kept + [f] else kept
  }

  function Total(flaps: seq<Mark>): nat {
    if flaps == [] then 0 else Total(flaps[..|flaps| - 1]) + flaps[|flaps| - 1].n
  }

  lemma RecentAppend(flaps: seq<Mark>, f: Mark, cutoff: int)
    ensures Recent(flaps + [f], cutoff) == Recent(flaps, cutoff) + if f.at >= cutoff then [f] else []
    ensures Total(flaps + [f]) == Total(flaps) + f.n
  {
    assert (flaps + [f])[..|flaps|] == flaps;
  }

  /** Pruning twice is pruning once, at the later cutoff. */
  lemma {:induction false} RecentTwice(flaps: seq<Mark>, early: int, late: int)
    requires early <= late
    ensures Recent(Recent(flaps, early), late) == Recent(flaps, late)
  {
    if flaps != [] {
      var init, f := flaps[..|flaps| - 1], flaps[|flaps| - 1];
      RecentTwice(init, early, late);
      if f.at >= early {
        RecentAppend(Recent(init, early), f, late);
      }
    }
  }

  // ---------- one reading ----------

  function Observed(b: Base, wasRunning: bool, r: Reading, now: int, window: int): nat {
    if b.seenAt.At? && now - b.seenAt.t > window then 0
    else if r.hasLinkDowns && b.hasLinkDowns then
      if r.linkDowns > b.linkDowns then Min(r.linkDowns - b.linkDowns, MAX_INT32) else 0
    else if wasRunning && !r.running then 1
    else 0
  }

  function LoopNow(was: Link, r: Reading): string { if r.hasEthernet then r.loopProtect else was.loopProtect }

  function LinkNow(was: Link, r: Reading): Link { Link(r.running, r.disabled, r.times, LoopNow(was, r)) }

  /** What changed against the previous reading, apart from flaps. */
  function Transitions(was: Link, hadPrev: bool, first: bool, r: Reading, s: Settings): seq<Event> {
    if !hadPrev || first then []
    else
      (if was.running && !r.running && !r.disabled then [LinkDown] else [])
      + (if !was.disabled && r.disabled then [Disabled] else [])
      + (if !s.inLoop(was.loopProtect) && s.inLoop(LoopNow(was, r)) then [LoopProtect(LoopNow(was, r))] else [])
  }

  datatype Flapped = Flapped(alarm: Alarm, count: nat, fires: bool)

  /** Still suppressed: over the threshold, and within a window of the last event. */
  predicate Suppressed(a: Alarm, count: nat, s: Settings, now: int) {
    a.firing && count >= s.flapThreshold && now - a.firedAt <= s.flapWindow
  }

  /** Books n flaps at now. */
  function Booked(a: Alarm, n: nat, first: bool, s: Settings, now: int): Flapped {
    var kept := Recent(a.flaps, now - s.flapWindow);
    var firing := Suppressed(a, Total(kept), s, now);
    if n == 0 then
      Flapped(Alarm(kept, firing, a.firedAt), Total(kept), false)
    else
      var count := Total(kept) + n;
      var fires := count >= s.flapThreshold && !firing && !first;
      Flapped(Alarm(kept + [Mark(now, n)], firing || fires, if fires then now else a.firedAt), count, fires)
  }

  function Flaps(p: Port, hadPrev: bool, first: bool, r: Reading, s: Settings, now: int): Flapped {
    Booked(p.alarm, Observed(p.base, hadPrev && p.link.running, r, now, s.flapWindow), first, s, now)
  }

  function NextPort(p: Port, hadPrev: bool, first: bool, r: Reading, s: Settings, now: int): Port {
    Port(LinkNow(p.link, r), Base(r.linkDowns, r.hasLinkDowns, At(now)), Flaps(p, hadPrev, first, r, s, now).alarm)
  }

  function Events(p: Port, hadPrev: bool, first: bool, r: Reading, s: Settings, now: int): seq<Event> {
    var f := Flaps(p, hadPrev, first, r, s, now);
    Transitions(p.link, hadPrev, first, r, s) + if f.fires then [LinkFlap(f.count)] else []
  }

  function RowOf(p: Port, hadPrev: bool, first: bool, device: string, r: Reading, s: Settings, now: int): Row {
    Row(device, r.name, r.about, LinkNow(p.link, r), Flaps(p, hadPrev, first, r, s, now).count)
  }

  /** What is kept and counted, in terms of the marks before. */
  lemma BookedIs(a: Alarm, n: nat, first: bool, s: Settings, now: int)
    requires ValidSettings(s)
    ensures var f, cutoff := Booked(a, n, first, s, now), now - s.flapWindow;
            && f.alarm.flaps == Recent(a.flaps, cutoff) + (if n > 0 then [Mark(now, n)] else [])
            && Recent(f.alarm.flaps, cutoff) == f.alarm.flaps && Total(f.alarm.flaps) == f.count
  {
    hide Suppressed, Recent, Total;
    var cutoff := now - s.flapWindow;
    RecentTwice(a.flaps, cutoff, cutoff);
    RecentAppend(Recent(a.flaps, cutoff), Mark(now, n), cutoff);
  }

  /** Booking nothing more at the same time leaves the alarm as it is. */
  lemma BookedAgain(a: Alarm, n: nat, first: bool, first': bool, s: Settings, now: int)
    requires ValidSettings(s)
    ensures var f := Booked(a, n, first, s, now);
            Booked(f.alarm, 0, first', s, now) == Flapped(f.alarm, f.count, false)
  {
    hide Recent, Total;
    BookedIs(a, n, first, s, now);
  }

  /** Processing one reading twice, at its own time, changes nothing and says nothing. */
  lemma Reprocessing(p: Port, hadPrev: bool, first: bool, first': bool, device: string, r: Reading, s: Settings, now: int)
    requires ValidSettings(s)
    ensures var q := NextPort(p, hadPrev, first, r, s, now);
            && NextPort(q, true, first', r, s, now) == q
            && Events(q, true, first', r, s, now) == []
            && RowOf(q, true, first', device, r, s, now) == RowOf(p, hadPrev, first, device, r, s, now)
  {
    hide Booked;
    BookedAgain(p.alarm, Observed(p.base, hadPrev && p.link.running, r, now, s.flapWindow), first, first', s, now);
  }

  // ---------- a run of readings ----------

  datatype Obs = Obs(reading: Reading, now: int, first: bool)

  ghost function Ran(p: Port, had: bool, obs: seq<Obs>, s: Settings): Port {
    if obs == [] then p
    else
      var o := obs[|obs| - 1];
      NextPort(Ran(p, had, obs[..|obs| - 1], s), had || |obs| > 1, o.first, o.reading, s, o.now)
  }

  /** The state and the presence of an earlier reading that the k-th reading meets. */
  ghost function Before(p: Port, had: bool, obs: seq<Obs>, s: Settings, k: nat): Port
    requires k < |obs|
  {
    Ran(p, had, obs[..k], s)
  }

  ghost function BookedAt(p: Port, had: bool, obs: seq<Obs>, s: Settings, k: nat): nat
    requires k < |obs|
  {
    Observed(Before(p, had, obs, s, k).base, (had || k > 0) && Before(p, had, obs, s, k).link.running, obs[k].reading,
             obs[k].now, s.flapWindow)
  }

  ghost function FlapsAt(p: Port, had: bool, obs: seq<Obs>, s: Settings, k: nat): Flapped
    requires k < |obs|
  {
    Flaps(Before(p, had, obs, s, k), had || k > 0, obs[k].first, obs[k].reading, s, obs[k].now)
  }

  /** Every flap booked by the first n readings, never pruned. */
  ghost function History(p: Port, had: bool, obs: seq<Obs>, s: Settings, n: nat): seq<Mark>
    requires n <= |obs|
  {
    if n == 0 then []
    else
      History(p, had, obs, s, n - 1)
      + if BookedAt(p, had, obs, s, n - 1) > 0 then [Mark(obs[n - 1].now, BookedAt(p, had, obs, s, n - 1))] else []
  }

  ghost predicate Monotone(obs: seq<Obs>) {
    forall i, j :: 0 <= i < j < |obs| ==> obs[i].now <= obs[j].now
  }

  /** As after a start: nothing booked, no counter to compare with. */
  ghost predicate Starting(p: Port) { p.alarm.flaps == [] && !p.base.hasLinkDowns && p.base.seenAt.Never? && !p.alarm.firing }

  lemma RanStep(p: Port, had: bool, obs: seq<Obs>, s: Settings, k: nat)
    requires k < |obs|
    ensures Ran(p, had, obs[..k + 1], s) ==
            NextPort(Before(p, had, obs, s, k), had || k > 0, obs[k].first, obs[k].reading, s, obs[k].now)
  {
    assert obs[..k + 1][..k] == obs[..k];
  }

  /** The pruned marks are the full history cut to the window, so the count is as from the full history. */
  lemma {:induction false} CountIsFull(p: Port, had: bool, obs: seq<Obs>, s: Settings, k: nat)
    requires Starting(p) && ValidSettings(s) && Monotone(obs) && k < |obs|
    ensures Ran(p, had, obs[..k + 1], s).alarm.flaps == Recent(History(p, had, obs, s, k + 1), obs[k].now - s.flapWindow)
    ensures FlapsAt(p, had, obs, s, k).count ==
            Total(Recent(History(p, had, obs, s, k + 1), obs[k].now - s.flapWindow))
  {
    hide Observed, Booked, Recent, Total;
    var cutoff := obs[k].now - s.flapWindow;
    RanStep(p, had, obs, s, k);
    var past, before := History(p, had, obs, s, k), Before(p, had, obs, s, k);
    BookedIs(before.alarm, BookedAt(p, had, obs, s, k), obs[k].first, s, obs[k].now);
    if k > 0 {
      CountIsFull(p, had, obs, s, k - 1);
      RecentTwice(past, obs[k - 1].now - s.flapWindow, cutoff);
    } else {
      assert obs[..0] == [];
    }
    assert Recent(before.alarm.flaps, cutoff) == Recent(past, cutoff);
    RecentAppend(past, Mark(obs[k].now, BookedAt(p, had, obs, s, k)), cutoff);
    assert past + [] == past && Recent(past, cutoff) + [] == Recent(past, cutoff);
  }

  /** Every flap event is backed by as many booked link-downs in the trailing window of the full history. */
  lemma FlapBacked(p: Port, had: bool, obs: seq<Obs>, s: Settings, k: nat)
    requires Starting(p) && ValidSettings(s) && Monotone(obs) && k < |obs|
    requires FlapsAt(p, had, obs, s, k).fires
    ensures Total(Recent(History(p, had, obs, s, k + 1), obs[k].now - s.flapWindow)) >= s.flapThreshold
    ensures BookedAt(p, had, obs, s, k) > 0 && !obs[k].first
  {
    CountIsFull(p, had, obs, s, k);
  }

  /** Every reading carries the counter, it never steps back, and no reading is missed. */
  ghost predicate Steady(obs: seq<Obs>, s: Settings) {
    && (forall k :: 0 <= k < |obs| ==> obs[k].reading.hasLinkDowns)
    && (forall k :: 0 < k < |obs| ==>
         && obs[k].now - obs[k - 1].now <= s.flapWindow
         && 0 <= obs[k].reading.linkDowns - obs[k - 1].reading.linkDowns <= MAX_INT32)
  }

  /** With steady readings the booked flaps are the link-downs the device counted, none lost between reads. */
  lemma {:induction false} CounterBooked(p: Port, had: bool, obs: seq<Obs>, s: Settings, n: nat)
    requires Steady(obs, s) && 1 <= n <= |obs|
    ensures Total(History(p, had, obs, s, n)) ==
            Total(History(p, had, obs, s, 1)) + obs[n - 1].reading.linkDowns - obs[0].reading.linkDowns
  {
    hide Booked, Total;
    if n > 1 {
      CounterBooked(p, had, obs, s, n - 1);
      RanStep(p, had, obs, s, n - 2);
      var k, past := n - 1, History(p, had, obs, s, n - 1);
      assert BookedAt(p, had, obs, s, k) == obs[k].reading.linkDowns - obs[k - 1].reading.linkDowns;
      RecentAppend(past, Mark(obs[k].now, BookedAt(p, had, obs, s, k)), 0);
      assert past + [] == past;
    }
  }

  /** The flaps in the window before the k-th reading books its own. */
  ghost function CountBefore(p: Port, had: bool, obs: seq<Obs>, s: Settings, k: nat): nat
    requires k < |obs|
  {
    Total(Recent(Before(p, had, obs, s, k).alarm.flaps, obs[k].now - s.flapWindow))
  }

  /** Until it is re-armed an event suppresses the next. */
  lemma {:induction false} StillFiring(p: Port, had: bool, obs: seq<Obs>, s: Settings, k: nat, m: nat)
    requires k <= m < |obs| && FlapsAt(p, had, obs, s, k).fires
    requires forall j :: k < j <= m ==> !FlapsAt(p, had, obs, s, j).fires
    requires forall j :: k < j <= m ==>
      CountBefore(p, had, obs, s, j) >= s.flapThreshold && obs[j].now - obs[k].now <= s.flapWindow
    ensures Ran(p, had, obs[..m + 1], s).alarm.firing && Ran(p, had, obs[..m + 1], s).alarm.firedAt == obs[k].now
  {
    hide Recent, Total, Observed, Ran;
    RanStep(p, had, obs, s, m);
    if k < m {
      StillFiring(p, had, obs, s, k, m - 1);
      assert CountBefore(p, had, obs, s, m) >= s.flapThreshold;
    }
  }

  /** Two successive flap events are more than a window apart, unless the count fell below the threshold between. */
  lemma FlapsSpaced(p: Port, had: bool, obs: seq<Obs>, s: Settings, k: nat, m: nat)
    requires Monotone(obs) && k < m < |obs|
    requires FlapsAt(p, had, obs, s, k).fires && FlapsAt(p, had, obs, s, m).fires
    requires forall j :: k < j < m ==> !FlapsAt(p, had, obs, s, j).fires
    ensures obs[m].now - obs[k].now > s.flapWindow ||
            exists j :: k < j <= m && CountBefore(p, had, obs, s, j) < s.flapThreshold
  {
    hide Recent, Total, Observed;
    if obs[m].now - obs[k].now <= s.flapWindow
       && (forall j :: k < j <= m ==> CountBefore(p, had, obs, s, j) >= s.flapThreshold) {
      assert CountBefore(p, had, obs, s, m) >= s.flapThreshold;
      StillFiring(p, had, obs, s, k, m - 1);
      assert false;
    }
  }

  // ---------- when an event must come ----------

  /** An event at reading j still stands at reading k: at no reading since did the flaps of the
      window fall below the threshold, and the window after it is not over. */
  ghost predicate Stands(p: Port, had: bool, obs: seq<Obs>, s: Settings, j: nat, k: nat)
    requires j <= k < |obs|
  {
    && FlapsAt(p, had, obs, s, j).fires
    && forall i :: j < i <= k ==> CountBefore(p, had, obs, s, i) >= s.flapThreshold && obs[i].now - obs[j].now <= s.flapWindow
  }

  /** As long as it stands the alarm remembers it. */
  lemma {:induction false} Remembered(p: Port, had: bool, obs: seq<Obs>, s: Settings, j: nat, k: nat)
    requires j <= k < |obs| && Stands(p, had, obs, s, j, k)
    ensures Ran(p, had, obs[..k + 1], s).alarm.firing && Ran(p, had, obs[..k + 1], s).alarm.firedAt == obs[j].now
    decreases k
  {
    hide Recent, Total, Observed, Ran;
    RanStep(p, had, obs, s, k);
    if j < k {
      Remembered(p, had, obs, s, j, k - 1);
      assert CountBefore(p, had, obs, s, k) >= s.flapThreshold;
    }
  }

  /** What the alarm remembers is an event that stands. */
  lemma {:induction false} Remembers(p: Port, had: bool, obs: seq<Obs>, s: Settings, k: nat) returns (j: nat)
    requires Starting(p) && k < |obs| && Ran(p, had, obs[..k + 1], s).alarm.firing
    ensures j <= k && Stands(p, had, obs, s, j, k) && Ran(p, had, obs[..k + 1], s).alarm.firedAt == obs[j].now
    decreases k
  {
    hide Recent, Total, Observed, Ran;
    RanStep(p, had, obs, s, k);
    if FlapsAt(p, had, obs, s, k).fires {
      j := k;
    } else {
      if k == 0 {
        RanNothing(p, had, obs, s);
        assert false;
      } else {
        j := Remembers(p, had, obs, s, k - 1);
        assert CountBefore(p, had, obs, s, k) >= s.flapThreshold;
      }
    }
  }

  lemma RanNothing(p: Port, had: bool, obs: seq<Obs>, s: Settings)
    ensures Ran(p, had, obs[..0], s) == p
  {
  }

  /** A flap event comes exactly when a reading other than the device's first books a flap, the
      flaps of the trailing window, of the full history, reach the threshold, and no earlier
      event still stands. */
  lemma FiresWhen(p: Port, had: bool, obs: seq<Obs>, s: Settings, k: nat)
    requires Starting(p) && ValidSettings(s) && Monotone(obs) && k < |obs|
    ensures FlapsAt(p, had, obs, s, k).fires <==>
      && BookedAt(p, had, obs, s, k) > 0 && !obs[k].first
      && Total(Recent(History(p, had, obs, s, k + 1), obs[k].now - s.flapWindow)) >= s.flapThreshold
      && forall j :: 0 <= j < k ==> !Stands(p, had, obs, s, j, k)
  {
    hide Recent, Total, Observed, Ran, History, Stands;
    CountIsFull(p, had, obs, s, k);
    if FlapsAt(p, had, obs, s, k).fires {
      forall j | 0 <= j < k
        ensures !Stands(p, had, obs, s, j, k)
      {
        if Stands(p, had, obs, s, j, k) {
          StoodBefore(p, had, obs, s, j, k);
          Remembered(p, had, obs, s, j, k - 1);
          assert false;
        }
      }
    } else if k > 0 && Before(p, had, obs, s, k).alarm.firing {
      var j := Remembers(p, had, obs, s, k - 1);
      if CountBefore(p, had, obs, s, k) >= s.flapThreshold && obs[k].now - obs[j].now <= s.flapWindow {
        StandsOn(p, had, obs, s, j, k);
      }
    } else if k == 0 {
      RanNothing(p, had, obs, s);
    }
  }

  lemma StoodBefore(p: Port, had: bool, obs: seq<Obs>, s: Settings, j: nat, k: nat)
    requires j < k < |obs| && Stands(p, had, obs, s, j, k)
    ensures Stands(p, had, obs, s, j, k - 1)
    ensures CountBefore(p, had, obs, s, k) >= s.flapThreshold && obs[k].now - obs[j].now <= s.flapWindow
  {
  }

  lemma StandsOn(p: Port, had: bool, obs: seq<Obs>, s: Settings, j: nat, k: nat)
    requires j < k < |obs| && Stands(p, had, obs, s, j, k - 1)
    requires CountBefore(p, had, obs, s, k) >= s.flapThreshold && obs[k].now - obs[j].now <= s.flapWindow
    ensures Stands(p, had, obs, s, j, k)
  {
  }

  /** The flaps a reading meets in the window are those of the full history. */
  lemma CountBeforeIs(p: Port, had: bool, obs: seq<Obs>, s: Settings, k: nat)
    requires Starting(p) && ValidSettings(s) && Monotone(obs) && k < |obs|
    ensures CountBefore(p, had, obs, s, k) == Total(Recent(History(p, had, obs, s, k), obs[k].now - s.flapWindow))
  {
    hide Observed, Booked, Recent, Total;
    if k == 0 {
      RanNothing(p, had, obs, s);
    } else {
      CountIsFull(p, had, obs, s, k - 1);
      RecentTwice(History(p, had, obs, s, k), obs[k - 1].now - s.flapWindow, obs[k].now - s.flapWindow);
    }
  }

  /** What is in the window: the marks no older than it, in order. */
  lemma {:induction false} RecentIs(flaps: seq<Mark>, cutoff: int, m: Mark)
    ensures m in Recent(flaps, cutoff) <==> m in flaps && cutoff <= m.at
    decreases |flaps|
  {
    if flaps != [] {
      RecentIs(flaps[..|flaps| - 1], cutoff, m);
      assert flaps == flaps[..|flaps| - 1] + [flaps[|flaps| - 1]];
    }
  }

  // ---------- what one reading tells ----------

  /** Without counters to compare a flap is a link that was up and is down; with them, what they
      rose; after a gap longer than the window, none. */
  lemma ObservedIs(b: Base, wasRunning: bool, r: Reading, now: int, window: int)
    ensures var n, gap := Observed(b, wasRunning, r, now, window), b.seenAt != Never && b.seenAt.t + window < now;
      && (gap ==> n == 0)
      && (!gap && b.hasLinkDowns && r.hasLinkDowns && r.linkDowns <= b.linkDowns ==> n == 0)
      && (!gap && b.hasLinkDowns && r.hasLinkDowns && b.linkDowns < r.linkDowns <= b.linkDowns + MAX_INT32 ==>
            n == r.linkDowns - b.linkDowns)
      && (!gap && b.hasLinkDowns && r.hasLinkDowns && b.linkDowns + MAX_INT32 < r.linkDowns ==> n == MAX_INT32)
      && (!gap && !(b.hasLinkDowns && r.hasLinkDowns) ==> n == if wasRunning && !r.running then 1 else 0)
  {
  }

  /** The other events of a reading, none on the first sight of an interface or device. */
  lemma TransitionsAre(was: Link, hadPrev: bool, first: bool, r: Reading, s: Settings, e: Event)
    ensures var loop := if r.hasEthernet then r.loopProtect else was.loopProtect;
      e in Transitions(was, hadPrev, first, r, s) <==>
      && hadPrev && !first
      && match e
         case LinkDown => was.running && !r.running && !r.disabled
         case Disabled => r.disabled && !was.disabled
         case LoopProtect(status) => status == loop && s.inLoop(loop) && !s.inLoop(was.loopProtect)
         case LinkFlap(_) => false
  {
  }

  // ---------- the monitor ----------

  function NewPort(): Port {
    Port(Link(false, false, Times("", ""), ""), Base(0, false, Never), Alarm([], false, 0))
  }

  class PortState {
    var running: bool
    var disabled: bool
    var times: Times
    var loopProtect: string
    var linkDowns: int
    var hasLinkDowns: bool
    var seenAt: When
    var flaps: seq<Mark>
    var firing: bool
    var firedAt: int

    ghost function LinkOf(): Link
      reads this`running, this`disabled, this`times, this`loopProtect
    {
      Link(running, disabled, times, loopProtect)
    }

    ghost function BaseOf(): Base
      reads this`linkDowns, this`hasLinkDowns, this`seenAt
    {
      Base(linkDowns, hasLinkDowns, seenAt)
    }

    ghost function AlarmOf(): Alarm
      reads this`flaps, this`firing, this`firedAt
    {
      Alarm(flaps, firing, firedAt)
    }

    ghost function Value(): Port
      reads this
    {
      Port(LinkOf(), BaseOf(), AlarmOf())
    }

    constructor ()
      ensures Value() == NewPort()
    {
      running, disabled, times, loopProtect := false, false, Times("", ""), "";
      linkDowns, hasLinkDowns, seenAt, flaps, firing, firedAt := 0, false, Never, [], false, 0;
    }

    /** Drops the marks older than the window and counts the rest. */
    method FlapsInWindow(now: int, window: int) returns (total: nat)
      modifies this`flaps
      ensures flaps == Recent(old(flaps), now - window) && total == Total(flaps)
    {
      var cutoff, all, kept := now - window, flaps, [];
      total := 0;
      for i := 0 to |all|
        invariant kept == Recent(all[..i], cutoff) && total == Total(kept)
      {
        assert all[..i + 1] == all[..i] + [all[i]];
        RecentAppend(all[..i], all[i], cutoff);
        RecentAppend(kept, all[i], cutoff);
        if all[i].at >= cutoff {
          kept, total := kept + [all[i]], total + all[i].n;
        }
      }
      assert all[..|all|] == all;
      flaps := kept;
    }

    /** The link-downs since the previous reading; moves the baseline to this one. */
    method ObservedFlaps(hadPrev: bool, r: Reading, now: int, window: int) returns (n: nat)
      modifies this`linkDowns, this`hasLinkDowns, this`seenAt
      ensures n == Observed(old(BaseOf()), hadPrev && running, r, now, window)
      ensures BaseOf() == Base(r.linkDowns, r.hasLinkDowns, At(now))
    {
      n := 0;
      var gap := seenAt.At? && now - seenAt.t > window;
      if gap {
      } else if r.hasLinkDowns && hasLinkDowns {
        if r.linkDowns > linkDowns {
          n := Min(r.linkDowns - linkDowns, MAX_INT32);
        }
      } else if hadPrev && running && !r.running {
        n := 1;
      }
      linkDowns, hasLinkDowns, seenAt := r.linkDowns, r.hasLinkDowns, At(now);
    }

    /** Lets the next event through once the storm is over, or a window after the last event. */
    method Rearm(count: nat, s: Settings, now: int)
      modifies this`firing
      ensures firing == Suppressed(old(AlarmOf()), count, s, now)
    {
      if firing && (count < s.flapThreshold || now - firedAt > s.flapWindow) {
        firing := false;
      }
    }

    /** Books the flaps of one reading. */
    method Book(hadPrev: bool, first: bool, r: Reading, s: Settings, now: int) returns (count: nat, fires: bool)
      modifies this`flaps, this`firing, this`firedAt, this`linkDowns, this`hasLinkDowns, this`seenAt
      ensures Flapped(AlarmOf(), count, fires) == old(Flaps(Value(), hadPrev, first, r, s, now))
      ensures BaseOf() == Base(r.linkDowns, r.hasLinkDowns, At(now))
    {
      hide Recent, Total, Observed;
      count := FlapsInWindow(now, s.flapWindow);
      fires := false;
      Rearm(count, s, now);
      var n := ObservedFlaps(hadPrev, r, now, s.flapWindow);
      if n > 0 {
        flaps := flaps + [Mark(now, n)];
        count := count + n;
        if count >= s.flapThreshold && !firing && !first {
          fires := true;
          firing, firedAt := true, now;
        }
      }
    }

    /** What changed against the previous reading, apart from flaps. */
    method Compare(hadPrev: bool, first: bool, r: Reading, s: Settings, loop: string) returns (events: seq<Event>)
      requires loop == LoopNow(LinkOf(), r)
      ensures events == Transitions(LinkOf(), hadPrev, first, r, s)
    {
      events := [];
      if hadPrev && !first {
        if running && !r.running && !r.disabled {
          events := events + [LinkDown];
        }
        if !disabled && r.disabled {
          events := events + [Disabled];
        }
        if !s.inLoop(loopProtect) && s.inLoop(loop) {
          events := events + [LoopProtect(loop)];
        }
      }
    }

    method Settle(r: Reading, loop: string)
      modifies this`running, this`disabled, this`times, this`loopProtect
      ensures LinkOf() == Link(r.running, r.disabled, r.times, loop)
    {
      running, disabled, times, loopProtect := r.running, r.disabled, r.times, loop;
    }

    method Process(hadPrev: bool, first: bool, device: string, r: Reading, s: Settings, now: int)
      returns (events: seq<Event>, row: Row)
      modifies this
      ensures Value() == old(NextPort(Value(), hadPrev, first, r, s, now))
      ensures events == old(Events(Value(), hadPrev, first, r, s, now))
      ensures row == old(RowOf(Value(), hadPrev, first, device, r, s, now))
    {
      hide Flaps, Transitions;
      ghost var p := Value();
      var loop := if r.hasEthernet then r.loopProtect else loopProtect;
      events := Compare(hadPrev, first, r, s, loop);
      var count, fires := Book(hadPrev, first, r, s, now);
      if fires {
        events := events + [LinkFlap(count)];
      }
      Settle(r, loop);
      row := Row(device, r.name, r.about, Link(running, disabled, times, loopProtect), count);
    }
  }

  datatype Key = Key(device: string, iface: string)

  class Monitor {
    var ports: map<Key, PortState>
    var firstRun: set<string>

    /** Each interface has a state of its own. */
    ghost predicate Valid()
      reads this
    {
      forall k, l :: k in ports && l in ports && ports[k] == ports[l] ==> k == l
    }

    constructor ()
      ensures Valid() && ports == map[] && firstRun == {}
    {
      ports, firstRun := map[], {};
    }

    /** One reading moves the state of its own interface and of no other. */
    method ProcessInterface(device: string, r: Reading, s: Settings, now: int) returns (events: seq<Event>, row: Row)
      requires Valid()
      modifies this`ports, ports.Values
      ensures Valid() && ports.Keys == old(ports.Keys) + {Key(device, r.name)}
      ensures forall k :: k in old(ports) ==> ports[k] == old(ports[k])
      ensures forall k :: k in old(ports) && k != Key(device, r.name) ==> ports[k].Value() == old(ports[k].Value())
      ensures var k, first := Key(device, r.name), device in firstRun;
              var had := old(k in ports);
              var p := if had then old(ports[k].Value()) else NewPort();
              && ports[k].Value() == NextPort(p, had, first, r, s, now)
              && events == Events(p, had, first, r, s, now)
              && row == RowOf(p, had, first, device, r, s, now)
    {
      hide NextPort, Events, RowOf, NewPort;
      var k := Key(device, r.name);
      var had := k in ports;
      if !had {
        var fresh' := new PortState();
        ports := ports[k := fresh'];
      }
      events, row := ports[k].Process(had, device in firstRun, device, r, s, now);
    }
  }
}
