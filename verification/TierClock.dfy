/**
 * The jittered schedule of one polling loop: per device and tier, the end of
 * the last run and a retry time.  A loop runs a tier, or asks for a retry,
 * only when the clock says it is due.
 */
module TierClock {
  import opened Moments

  const JITTER_STEPS := 2001

  datatype Key = Key(device: string, tier: string)

  datatype TierRun = TierRun(end: When, retry: When)

  datatype Span = Span(start: int, end: int)

  // ---------- the jitter ----------

  /** A tenth of the interval early at most. */
  function Earliest(interval: int): int { interval - interval / 10 }

  function NextRun(end: int, interval: int, phase: nat): (next: int)
    ensures interval > 0 ==> end + Earliest(interval) <= next <= end + interval + interval / 10
    ensures interval <= 0 ==> next == end
  {
    if interval <= 0 then end
    else
      var step := phase % JITTER_STEPS - (JITTER_STEPS - 1) / 2;
      JitterBound(interval, step);
      end + (interval + interval / 10000 * step)
  }

  /** The phase moves the next run over 2001 places, a ten-thousandth of the interval apart,
      around the interval itself. */
  lemma NextRunMoves(end: int, interval: int, phase: nat)
    requires interval > 0
    ensures NextRun(end, interval, 1000) == end + interval
    ensures phase % 2001 != 2000 ==> NextRun(end, interval, phase + 1) == NextRun(end, interval, phase) + interval / 10_000
    ensures NextRun(end, interval, phase + 2001) == NextRun(end, interval, phase)
  {
    var q, a := interval / 10_000, phase % 2001 - 1000;
    assert phase % 2001 != 2000 ==> (phase + 1) % 2001 == phase % 2001 + 1;
    assert (phase + 2001) % 2001 == phase % 2001;
    assert q * (a + 1) == q * a + q;
  }

  lemma JitterBound(interval: int, step: int)
    requires interval > 0 && -1000 <= step <= 1000
    ensures -(interval / 10) <= interval / 10000 * step <= interval / 10
  {
    var q := interval / 10000;
    assert 1000 * q <= interval / 10;
    ScaleBound(q, step);
  }

  lemma ScaleBound(q: nat, step: int)
    requires -1000 <= step <= 1000
    ensures -1000 * q <= q * step <= 1000 * q
  {
    assert q * (1000 - step) >= 0 && q * (1000 + step) >= 0;
    assert q * (1000 - step) == 1000 * q - q * step && q * (1000 + step) == 1000 * q + q * step;
  }

  lemma EarliestMonotone(a: int, b: int)
    requires a <= b
    ensures Earliest(a) <= Earliest(b)
  {
  }

  /** The window within which one read of a device's log serves every asker. */
  function LogReadWindow(interval: int): int {
    if interval <= 0 then 0 else interval - interval / 10
  }

  // ---------- what a schedule must keep ----------

  /** Each run starts at least nine tenths of the interval after the one before it ended. */
  ghost predicate Spaced(runs: seq<Span>, every: int) {
    forall i :: 0 < i < |runs| ==> runs[i].start >= runs[i - 1].end + Earliest(every)
  }

  /** What the clock remembers of one tier, against its runs so far. */
  ghost predicate Remembers(r: TierRun, runs: seq<Span>, every: int) {
    && (runs == [] <==> r.end.Never?)
    && (r.end.At? && runs != [] ==> r.end.t == runs[|runs| - 1].end)
    && (r.end.At? && r.retry.At? ==> r.retry.t >= r.end.t + Earliest(every))
    && Spaced(runs, every)
  }

  lemma RemembersRun(r: TierRun, runs: seq<Span>, every: int, start: int, end: int)
    requires Remembers(r, runs, every) && (r.end.At? ==> start >= r.end.t + Earliest(every))
    ensures Remembers(TierRun(At(end), Never), runs + [Span(start, end)], every)
    ensures runs != [] ==> start >= runs[|runs| - 1].end + Earliest(every)
  {
  }

  lemma RemembersRetry(r: TierRun, runs: seq<Span>, every: int, at: int)
    requires Remembers(r, runs, every) && (r.end.At? ==> at >= r.end.t + Earliest(every))
    ensures Remembers(TierRun(r.end, At(at)), runs, every)
  {
  }

  /** The outcome of a due check: the tier ran, or could not start and asks to be tried again. */
  datatype Outcome = Ran(end: int) | Retry(at: int)

  class Clock {
    var runs: map<Key, TierRun>
    var published: map<Key, int>
    const phase: string -> nat
    ghost const every: Key -> int       // no run interval of the tier is shorter
    ghost var log: map<Key, seq<Span>>  // the runs of each tier

    function RunOf(key: Key): TierRun
      reads this`runs
    {
      if key in runs then runs[key] else TierRun(Never, Never)
    }

    ghost function LogOf(key: Key): seq<Span>
      reads this`log
    {
      if key in log then log[key] else []
    }

    ghost predicate Valid()
      reads this
    {
      forall key :: Remembers(RunOf(key), LogOf(key), every(key))
    }

    constructor (phase: string -> nat, ghost every: Key -> int)
      ensures Valid() && this.phase == phase && this.every == every && runs == map[] && log == map[]
    {
      runs, published, log := map[], map[], map[];
      this.phase, this.every := phase, every;
    }

    /** When the tier is due next. */
    function Next(key: Key, interval: int, now: int): int
      reads this`runs
    {
      var r := RunOf(key);
      if r.retry.At? then r.retry.t
      else if r.end.Never? then now
      else NextRun(r.end.t, interval, phase(key.device))
    }

    /** Publishes the next run; a paused tier has none and is never due. */
    method Due(key: Key, interval: int, now: int) returns (due: bool)
      modifies this`published
      ensures due <==> interval > 0 && now >= Next(key, interval, now)
      ensures published == if interval > 0 then old(published)[key := Next(key, interval, now)] else old(published) - {key}
    {
      if interval <= 0 {
        published := published - {key};
        return false;
      }
      var next := Next(key, interval, now);
      published := published[key := next];
      return now >= next;
    }

    method RecordRun(key: Key, interval: int, end: int)
      modifies this`runs, this`published
      ensures runs == old(runs)[key := TierRun(At(end), Never)]
      ensures published == if interval > 0 then old(published)[key := NextRun(end, interval, phase(key.device))]
                           else old(published)
    {
      runs := runs[key := TierRun(At(end), Never)];
      var next := Next(key, interval, end);
      if interval > 0 {
        published := published[key := next];
      }
    }

    method RetryAt(key: Key, at: int)
      modifies this`runs, this`published
      ensures runs == old(runs)[key := TierRun(old(RunOf(key)).end, At(at))]
      ensures published == old(published)[key := at]
    {
      runs := runs[key := TierRun(RunOf(key).end, At(at))];
      published := published[key := at];
    }

    /** What the check found holds back the next run until it is due. */
    lemma DueIsLate(key: Key, interval: int, now: int)
      requires Valid() && interval >= every(key) && interval > 0 && now >= Next(key, interval, now)
      ensures RunOf(key).end.At? ==> now >= RunOf(key).end.t + Earliest(every(key))
    {
      EarliestMonotone(every(key), interval);
    }

    /**
     * One turn of a loop: the tier is checked and, when due, run or retried
     * later.  Through any failed starts and pauses the runs stay spaced.
     */
    method Turn(key: Key, interval: int, now: int, outcome: Outcome) returns (due: bool)
      requires Valid()
      requires interval <= 0 || interval >= every(key)
      requires outcome.Ran? ==> outcome.end >= now
      requires outcome.Retry? ==> outcome.at >= now
      modifies this
      ensures Valid()
      ensures due <==> interval > 0 && now >= old(Next(key, interval, now))
      ensures LogOf(key) == old(LogOf(key)) + if due && outcome.Ran? then [Span(now, outcome.end)] else []
      ensures forall k :: k != key ==> RunOf(k) == old(RunOf(k)) && LogOf(k) == old(LogOf(k))
      ensures due && outcome.Ran? && old(LogOf(key)) != [] ==>
        now >= old(LogOf(key))[|old(LogOf(key))| - 1].end + Earliest(every(key))
    {
      hide Remembers, Earliest, Next;
      due := Due(key, interval, now);
      if due {
        DueIsLate(key, interval, now);
        match outcome {
          case Ran(end) => {
            RemembersRun(RunOf(key), LogOf(key), every(key), now, end);
            log := log[key := LogOf(key) + [Span(now, end)]];
            RecordRun(key, interval, end);
          }
          case Retry(at) => {
            RemembersRetry(RunOf(key), LogOf(key), every(key), at);
            RetryAt(key, at);
          }
        }
      }
    }

    /** Forgets the devices not kept. */
    method Retain(keep: set<string>)
      requires Valid()
      modifies this`runs, this`log
      ensures Valid()
      ensures runs == map k | k in old(runs) && k.device in keep :: old(runs)[k]
      ensures forall k: Key :: k.device in keep ==> LogOf(k) == old(LogOf(k))
    {
      runs := map k | k in runs && k.device in keep :: runs[k];
      log := map k | k in log && k.device in keep :: log[k];
    }
  }

  /** A retry comes when it was asked for, a tier that never ran at once, any other within a
      tenth of its interval. */
  lemma NextIs(c: Clock, key: Key, interval: int, now: int)
    ensures key in c.runs && c.runs[key].retry.At? ==> c.Next(key, interval, now) == c.runs[key].retry.t
    ensures key !in c.runs || c.runs[key] == TierRun(Never, Never) ==> c.Next(key, interval, now) == now
    ensures interval > 0 && key in c.runs && c.runs[key].retry == Never && c.runs[key].end.At? ==>
      var next := c.Next(key, interval, now) - c.runs[key].end.t;
      interval - interval / 10 <= next <= interval + interval / 10
  {
  }

  /** A tier that has not run for the interval and a tenth is due, unless a retry was asked for. */
  lemma DueInTime(c: Clock, key: Key, interval: int, now: int)
    requires interval > 0 && c.RunOf(key).end.At? && c.RunOf(key).retry.Never?
    requires now >= c.RunOf(key).end.t + interval + interval / 10
    ensures now >= c.Next(key, interval, now)
  {
  }

  /** Runs spaced for the log tier never come before the shared log read has to be repeated. */
  lemma LogReadAgain(runs: seq<Span>, interval: int, i: nat, readAt: int)
    requires interval > 0 && Spaced(runs, interval) && 0 < i < |runs|
    requires readAt <= runs[i - 1].end
    ensures LogReadWindow(interval) > 0 && runs[i].start - readAt >= LogReadWindow(interval)
  {
  }
}
