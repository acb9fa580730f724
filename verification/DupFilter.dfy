/**
 * The duplicate filter of one exporter: a ring of the last recorded flow
 * hashes beside a map from hash to its latest record.  The ghost log is every
 * record ever made; the ring and the map are proved to be a window onto it.
 */
module DupFilter {
  const CAP: nat := 32768
  const TTL_MS: int := 180000

  datatype Rec = Rec(hash: nat, at: int)
  datatype Entry = Entry(at: int, idx: nat)
  datatype Call = Call(hash: nat, ms: int)

  // ---------- what the filter should answer ----------

  /** The place of the latest record of h, -1 when there is none. */
  ghost function Last(log: seq<Rec>, h: nat): (r: int)
    ensures -1 <= r < |log|
    ensures r >= 0 ==> log[r].hash == h
    ensures forall k :: r < k < |log| ==> log[k].hash != h
  {
    if log == [] then -1
    else if log[|log| - 1].hash == h then |log| - 1
    else Last(log[..|log| - 1], h)
  }

  /** One of the last CAP records is of h. */
  ghost predicate Remembered(log: seq<Rec>, h: nat) {
    exists j :: 0 <= j < |log| && |log| - CAP <= j && log[j].hash == h
  }

  /** h is remembered and its latest record is younger than the TTL. */
  ghost predicate Repeats(log: seq<Rec>, h: nat, ms: int) {
    exists j :: 0 <= j < |log| && |log| - CAP <= j && log[j].hash == h
                && (forall k :: j < k < |log| ==> log[k].hash != h) && ms - log[j].at < TTL_MS
  }

  ghost function Recorded(log: seq<Rec>, h: nat, ms: int): seq<Rec> {
    if Repeats(log, h, ms) then log else log + [Rec(h, ms)]
  }

  ghost function RecordedAll(log: seq<Rec>, calls: seq<Call>): seq<Rec>
    decreases |calls|
  {
    if calls == [] then log
    else RecordedAll(Recorded(log, calls[0].hash, calls[0].ms), calls[1..])
  }

  /** Two successive records of one hash, less than CAP records apart, are a full TTL apart. */
  ghost predicate Spaced(log: seq<Rec>) {
    forall i, j :: 0 <= i < j < |log| && j - i <= CAP && log[i].hash == log[j].hash
                   && (forall k :: i < k < j ==> log[k].hash != log[i].hash)
                   ==> log[j].at - log[i].at >= TTL_MS
  }

  ghost predicate Timely(log: seq<Rec>) {
    forall i, j :: 0 <= i < j < |log| ==> log[i].at <= log[j].at
  }

  lemma LastIs(log: seq<Rec>, h: nat, j: int)
    requires 0 <= j < |log| && log[j].hash == h && forall k :: j < k < |log| ==> log[k].hash != h
    ensures Last(log, h) == j
  {
  }

  lemma RepeatsIs(log: seq<Rec>, h: nat, ms: int)
    ensures Remembered(log, h) <==> Last(log, h) >= 0 && |log| - CAP <= Last(log, h)
    ensures Repeats(log, h, ms) <==> Remembered(log, h) && ms - log[Last(log, h)].at < TTL_MS
  {
    var r := Last(log, h);
    if r >= 0 && |log| - CAP <= r {
      assert log[r].hash == h;
    }
    if Repeats(log, h, ms) {
      var j :| 0 <= j < |log| && |log| - CAP <= j && log[j].hash == h
               && (forall k :: j < k < |log| ==> log[k].hash != h) && ms - log[j].at < TTL_MS;
      LastIs(log, h, j);
    }
  }

  lemma LastAppend(log: seq<Rec>, x: Rec, h: nat)
    ensures Last(log + [x], h) == if x.hash == h then |log| else Last(log, h)
  {
    assert (log + [x])[..|log|] == log;
  }

  /** Nothing is recorded twice within the TTL. */
  lemma RecordedSpaced(log: seq<Rec>, h: nat, ms: int)
    requires Spaced(log)
    ensures Spaced(Recorded(log, h, ms))
  {
    var after := Recorded(log, h, ms);
    if after != log {
      forall i, j | 0 <= i < j < |after| && j - i <= CAP && after[i].hash == after[j].hash
                    && (forall k :: i < k < j ==> after[k].hash != after[i].hash)
        ensures after[j].at - after[i].at >= TTL_MS
      {
        if j < |log| {
          assert forall k :: i < k < j ==> log[k].hash == after[k].hash;
        } else {
          assert forall k :: i < k < |log| ==> after[k] == log[k];
        }
      }
    }
  }

  lemma {:induction false} RecordedAllSpaced(log: seq<Rec>, calls: seq<Call>)
    requires Spaced(log)
    ensures Spaced(RecordedAll(log, calls))
    decreases |calls|
  {
    if calls != [] {
      RecordedSpaced(log, calls[0].hash, calls[0].ms);
      RecordedAllSpaced(Recorded(log, calls[0].hash, calls[0].ms), calls[1..]);
    }
  }

  lemma {:induction false} RecordedAllAppend(log: seq<Rec>, calls: seq<Call>, c: Call)
    ensures RecordedAll(log, calls + [c]) == Recorded(RecordedAll(log, calls), c.hash, c.ms)
    decreases |calls|
  {
    if calls == [] {
      assert (calls + [c])[1..] == [];
    } else {
      assert (calls + [c])[1..] == calls[1..] + [c];
      RecordedAllAppend(Recorded(log, calls[0].hash, calls[0].ms), calls[1..], c);
    }
  }

  /** With a clock that never goes back, any two records of one hash within CAP are a TTL apart. */
  lemma {:induction false} TimelySpaced(log: seq<Rec>, i: nat, j: nat)
    requires Spaced(log) && Timely(log)
    requires i < j < |log| && j - i <= CAP && log[i].hash == log[j].hash
    ensures log[j].at - log[i].at >= TTL_MS
    decreases j - i
  {
    if k :| i < k < j && log[k].hash == log[i].hash {
      TimelySpaced(log, i, k);
      assert log[k].at <= log[j].at;
    }
  }

  /**
   * With a clock that never goes back the answer needs no talk of the latest
   * record: a flow is dropped exactly when one of the last CAP records is of
   * its hash and younger than the TTL.
   */
  lemma RepeatsTimely(log: seq<Rec>, h: nat, ms: int)
    requires Timely(log)
    ensures Repeats(log, h, ms) <==>
            exists j :: 0 <= j < |log| && |log| <= j + 32_768 && log[j].hash == h && ms < log[j].at + 180_000
  {
    if j :| 0 <= j < |log| && |log| - CAP <= j && log[j].hash == h && ms - log[j].at < TTL_MS {
      RepeatsIs(log, h, ms);
      assert j <= Last(log, h);
      assert log[j].at <= log[Last(log, h)].at;
    }
  }

  // ---------- slots of the ring ----------

  function Slot(i: int): nat { i % CAP }

  lemma SameSlot(i: int, j: int)
    requires Slot(i) == Slot(j) && i <= j < i + CAP
    ensures i == j
  {
    assert j - i == (j / CAP - i / CAP) * CAP;
  }

  lemma NextSlot(n: nat)
    ensures Slot(n) < CAP
    ensures Slot(n + 1) == if Slot(n) + 1 == CAP then 0 else Slot(n) + 1
    ensures n >= CAP ==> Slot(n - CAP) == Slot(n)
    ensures Slot(n) + 1 == CAP ==> n + 1 >= CAP
    ensures n + 1 == CAP ==> Slot(n) + 1 == CAP
  {
  }

  /** The map holds exactly the hashes last recorded at lo or later, each with its latest record. */
  ghost predicate Window(log: seq<Rec>, m: map<nat, Entry>, lo: int) {
    && (forall h :: h in m <==> Last(log, h) >= 0 && lo <= Last(log, h))
    && (forall h :: h in m ==> Last(log, h) >= 0 && m[h] == Entry(log[Last(log, h)].at, Slot(Last(log, h))))
  }

  lemma WindowDrop(log: seq<Rec>, m: map<nat, Entry>, lo: int)
    requires 0 <= lo < |log| && Window(log, m, lo)
    ensures Window(log, if Last(log, log[lo].hash) == lo then m - {log[lo].hash} else m, lo + 1)
  {
    forall h | Last(log, h) == lo
      ensures h == log[lo].hash
    {
    }
  }

  lemma WindowAppend(log: seq<Rec>, m: map<nat, Entry>, lo: int, x: Rec)
    requires lo <= |log| && Window(log, m, lo)
    ensures Window(log + [x], m[x.hash := Entry(x.at, Slot(|log|))], lo)
  {
    forall h
      ensures Last(log + [x], h) == if x.hash == h then |log| else Last(log, h)
    {
      LastAppend(log, x, h);
    }
  }

  /** The ring holds the hashes of the records from lo on. */
  ghost predicate Ringed(ring: seq<nat>, log: seq<Rec>, lo: int) {
    |ring| == CAP && forall i :: 0 <= i < |log| && lo <= i ==> ring[Slot(i)] == log[i].hash
  }

  lemma RingedAppend(ring: seq<nat>, log: seq<Rec>, x: Rec)
    requires Ringed(ring, log, |log| - CAP)
    ensures Ringed(ring[Slot(|log|) := x.hash], log + [x], |log| + 1 - CAP)
  {
    forall i | 0 <= i < |log| && |log| + 1 - CAP <= i
      ensures Slot(i) != Slot(|log|)
    {
      if Slot(i) == Slot(|log|) {
        SameSlot(i, |log|);
      }
    }
  }

  lemma Range(n: nat) returns (s: set<nat>)
    ensures |s| == n && forall i: nat :: i in s <==> i < n
  {
    s := {};
    for k := 0 to n
      invariant |s| == k && forall i: nat :: i in s <==> i < k
    {
      s := s + {k};
    }
  }

  /** A set of hashes whose slots are distinct is no larger than the ring. */
  lemma {:induction false} Pigeonhole<T(!new)>(hs: set<T>, slot: map<T, nat>, free: set<nat>)
    requires forall h :: h in hs ==> h in slot && slot[h] in free
    requires forall g, h :: g in hs && h in hs && slot[g] == slot[h] ==> g == h
    ensures |hs| <= |free|
    decreases |hs|
  {
    if hs != {} {
      var h :| h in hs;
      Pigeonhole(hs - {h}, slot, free - {slot[h]});
    }
  }

  // ---------- the filter ----------

  class Filter {
    var seenAt: map<nat, Entry>
    const ring: array<nat>
    var pos: nat
    var full: bool
    ghost var log: seq<Rec>

    ghost predicate Placed()
      reads this, ring
    {
      && Ringed(ring[..], log, |log| - CAP)
      && pos == Slot(|log|)
      && (full <==> |log| >= CAP)
    }

    ghost predicate Valid()
      reads this, ring
    {
      Placed() && Window(log, seenAt, |log| - CAP) && Spaced(log)
    }

    constructor ()
      ensures Valid() && log == []
    {
      ring := new nat[CAP](_ => 0);
      seenAt, pos, full, log := map[], 0, false, [];
    }

    /** The memory is bounded by the ring. */
    lemma Bounded()
      requires Valid()
      ensures |seenAt| <= CAP
    {
      var slot := map h | h in seenAt :: seenAt[h].idx;
      forall g, h | g in seenAt && h in seenAt && slot[g] == slot[h]
        ensures g == h
      {
        RepeatsIs(log, g, 0);
        RepeatsIs(log, h, 0);
        if Last(log, g) <= Last(log, h) {
          SameSlot(Last(log, g), Last(log, h));
        } else {
          SameSlot(Last(log, h), Last(log, g));
        }
      }
      var slots := Range(CAP);
      Pigeonhole(seenAt.Keys, slot, slots);
    }

    /** Answers whether h repeats, recording it if not. */
    method Seen(h: nat, ms: int) returns (r: bool)
      requires Valid()
      modifies this, ring
      ensures Valid()
      ensures r == Repeats(old(log), h, ms)
      ensures log == Recorded(old(log), h, ms)
    {
      hide Spaced, Repeats, Remembered;
      RepeatsIs(log, h, ms);
      if h in seenAt && ms - seenAt[h].at < TTL_MS {
        return true;
      }
      RecordedSpaced(log, h, ms);
      Evict();
      Write(h, ms);
      return false;
    }

    /** Forgets the hash in the slot about to be reused, unless it was recorded again since. */
    method Evict()
      requires Placed() && Window(log, seenAt, |log| - CAP)
      modifies this`seenAt
      ensures Window(log, seenAt, |log| + 1 - CAP)
    {
      hide Slot, Last;
      NextSlot(|log|);
      if full {
        var was := ring[pos];
        assert was == log[|log| - CAP].hash;
        WindowDrop(log, seenAt, |log| - CAP);
        if was in seenAt && seenAt[was].idx == pos {
          SameSlot(|log| - CAP, Last(log, was));
          seenAt := seenAt - {was};
        }
      }
    }

    method Write(h: nat, ms: int)
      requires Placed() && Window(log, seenAt, |log| + 1 - CAP)
      modifies this, ring
      ensures Placed() && Window(log, seenAt, |log| - CAP) && log == old(log) + [Rec(h, ms)]
    {
      hide Window, Last, Slot;
      NextSlot(|log|);
      RingedAppend(ring[..], log, Rec(h, ms));
      WindowAppend(log, seenAt, |log| + 1 - CAP, Rec(h, ms));
      ring[pos] := h;
      seenAt := seenAt[h := Entry(ms, pos)];
      log := log + [Rec(h, ms)];
      pos := pos + 1;
      if pos == ring.Length {
        pos, full := 0, true;
      }
    }

    /** The records after any run of calls, and the answer to each. */
    method Run(calls: seq<Call>) returns (dropped: seq<bool>)
      requires Valid()
      modifies this, ring
      ensures Valid() && log == RecordedAll(old(log), calls)
      ensures |dropped| == |calls|
      ensures forall i :: 0 <= i < |calls| ==>
        dropped[i] == Repeats(RecordedAll(old(log), calls[..i]), calls[i].hash, calls[i].ms)
    {
      hide Repeats, Recorded;
      dropped := [];
      for i := 0 to |calls|
        invariant Valid() && log == RecordedAll(old(log), calls[..i]) && |dropped| == i
        invariant forall j :: 0 <= j < i ==>
          dropped[j] == Repeats(RecordedAll(old(log), calls[..j]), calls[j].hash, calls[j].ms)
      {
        assert calls[..i + 1] == calls[..i] + [calls[i]];
        RecordedAllAppend(old(log), calls[..i], calls[i]);
        var d := Seen(calls[i].hash, calls[i].ms);
        dropped := dropped + [d];
      }
      assert calls[..|calls|] == calls;
    }
  }
}
