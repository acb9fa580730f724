/**
 * The hysteresis on a device's probed class: a known class gives way only to
 * a day of probes that agree on another.
 */
module ClassGate {

  const HYSTERESIS_MS := 86_400_000

  /** A class; Unknown also stands for a probe without usable facts. */
  datatype Class = Unknown | C(n: nat)

  datatype Candidate = Candidate(class': Class, since: int)

  datatype Verdict = Hold | Confirm | Apply

  datatype Probe = Probe(found: Class, at: int)

  /** From probe i on every informative probe found c, and probe i did. */
  ghost predicate AgreeFrom(probes: seq<Probe>, c: Class, i: int) {
    0 <= i < |probes| && probes[i].found == c
    && forall j :: i <= j < |probes| ==> probes[j].found == c || probes[j].found == Unknown
  }

  /** The candidate has been every informative probe's answer since it was opened. */
  ghost predicate Backed(probes: seq<Probe>, cand: Candidate) {
    exists i :: AgreeFrom(probes, cand.class', i) && probes[i].at == cand.since
  }

  /** A day's worth of probes up to now agree on c. */
  ghost predicate AgreedForADay(probes: seq<Probe>, c: Class, now: int) {
    exists i :: AgreeFrom(probes, c, i) && now - probes[i].at >= HYSTERESIS_MS
  }

  lemma BackedMore(probes: seq<Probe>, cand: Candidate, p: Probe)
    requires Backed(probes, cand) && (p.found == cand.class' || p.found == Unknown)
    ensures Backed(probes + [p], cand)
  {
    var i :| AgreeFrom(probes, cand.class', i) && probes[i].at == cand.since;
    assert AgreeFrom(probes + [p], cand.class', i);
  }

  lemma BackedFirst(probes: seq<Probe>, p: Probe)
    ensures Backed(probes + [p], Candidate(p.found, p.at))
  {
    assert AgreeFrom(probes + [p], p.found, |probes|);
  }

  lemma BackedDay(probes: seq<Probe>, cand: Candidate, now: int)
    requires Backed(probes, cand) && now - cand.since >= HYSTERESIS_MS
    ensures AgreedForADay(probes, cand.class', now)
  {
    var i :| AgreeFrom(probes, cand.class', i) && probes[i].at == cand.since;
  }

  class Gate {
    var pending: map<string, Candidate>
    var stored: map<string, Class>            // the class of each device, as persisted
    ghost var probes: map<string, seq<Probe>> // every probe of each device

    ghost function ProbesOf(id: string): seq<Probe>
      reads this`probes
    {
      if id in probes then probes[id] else []
    }

    function Current(id: string): Class
      reads this`stored
    {
      if id in stored then stored[id] else Unknown
    }

    ghost predicate Valid()
      reads this
    {
      forall id :: id in pending ==> pending[id].class' != Unknown && Backed(ProbesOf(id), pending[id])
    }

    constructor ()
      ensures Valid() && pending == map[] && stored == map[]
    {
      pending, stored, probes := map[], map[], map[];
    }

    /** What a probe means for a device stored as current, and the candidate it opened. */
    method Judge(id: string, current: Class, probed: Class, now: int) returns (v: Verdict, started: bool)
      modifies this`pending
      ensures v == Apply <==>
        || current == Unknown
        || (probed != Unknown && probed != current && id in old(pending) && old(pending)[id].class' == probed
            && now - old(pending)[id].since >= HYSTERESIS_MS)
      ensures v == Confirm <==> current != Unknown && probed == current
      ensures started <==>
        && current != Unknown && probed != Unknown && probed != current
        && (id !in old(pending) || old(pending)[id].class' != probed)
      ensures pending ==
        if v != Hold then old(pending) - {id}
        else if started then old(pending)[id := Candidate(probed, now)]
        else old(pending)
    {
      if current == Unknown {
        pending := pending - {id};
        return Apply, false;
      }
      if probed == Unknown {
        return Hold, false;
      }
      if probed == current {
        pending := pending - {id};
        return Confirm, false;
      }
      if id in pending && pending[id].class' == probed {
        if now - pending[id].since >= HYSTERESIS_MS {
          pending := pending - {id};
          return Apply, false;
        }
        return Hold, false;
      }
      pending := pending[id := Candidate(probed, now)];
      return Hold, true;
    }

    /** One probe of a device; storing a class may fail. */
    method Take(id: string, probed: Class, now: int, stores: bool) returns (v: Verdict)
      requires Valid()
      modifies this
      ensures Valid()
      ensures probes == old(probes)[id := old(ProbesOf(id)) + [Probe(probed, now)]]
      ensures forall k :: k != id ==> Current(k) == old(Current(k))
      ensures Current(id) == old(Current(id)) || Current(id) == probed
      // a known class changes only after a day of agreeing probes, this one among them
      ensures old(Current(id)) != Unknown && Current(id) != old(Current(id)) ==>
        Current(id) != Unknown && AgreedForADay(ProbesOf(id), Current(id), now)
      // a device never classified takes the class at once
      ensures old(Current(id)) == Unknown && stores ==> Current(id) == probed
      ensures !stores ==> stored == old(stored)
    {
      ghost var before := ProbesOf(id);
      ghost var p := Probe(probed, now);
      var current := Current(id);
      BackedFirst(before, p);
      if id in pending && (probed == pending[id].class' || probed == Unknown) {
        BackedMore(before, pending[id], p);
        if now - pending[id].since >= HYSTERESIS_MS {
          BackedDay(before + [p], pending[id], now);
        }
      }
      var started;
      v, started := Judge(id, current, probed, now);
      probes := probes[id := before + [p]];
      if v == Apply && stores {
        stored := stored[id := probed];
      } else if v == Confirm && stores {
        stored := stored[id := current];
      }
    }

    /** Drops the candidates of the devices not kept. */
    method Forget(keep: set<string>)
      requires Valid()
      modifies this`pending
      ensures Valid() && pending == map id | id in old(pending) && id in keep :: old(pending)[id]
    {
      pending := map id | id in pending && id in keep :: pending[id];
    }

    /** After a restart the candidates start over; the stored classes stay. */
    method Restart()
      requires Valid()
      modifies this`pending
      ensures Valid() && pending == map[]
    {
      pending := map[];
    }
  }
}
