/**
 * Following devices to new addresses: from recent neighbor sightings, at most
 * one change of address per device, planned so that whatever part of the plan
 * is later committed the managed addresses stay distinct.
 */
module IpFollow {

  datatype Device = Device(id: string, address: string)

  datatype Neighbor = Neighbor(reporter: string, mac: string, address: string, lastSeen: int)

  datatype Move = Move(device: string, oldAddr: string, newAddr: string, mac: string)

  /** A move without the address of the interface that betrayed it. */
  datatype Change = Change(device: string, oldAddr: string, newAddr: string)

  /**
   * What a sighting is judged by: the owner of each interface address, the
   * interface addresses owned twice, and the parsers and clocks of the caller.
   */
  datatype Rules = Rules(owner: map<string, string>, ambiguous: set<string>,
                         normal: string -> string, recent: Neighbor -> bool, followable: string -> bool)

  // ---------- sightings ----------

  predicate Usable(e: Rules, n: Neighbor) {
    && n.mac != "" && n.address != ""
    && e.recent(n) && e.followable(n.address)
    && e.normal(n.mac) != "" && e.normal(n.mac) !in e.ambiguous && e.normal(n.mac) in e.owner
  }

  /** n places the device at the address. */
  predicate Names(e: Rules, n: Neighbor, id: string, addr: string) {
    Usable(e, n) && e.owner[e.normal(n.mac)] == id && n.address == addr
  }

  ghost predicate Sighted(e: Rules, ns: seq<Neighbor>, id: string, addr: string) {
    exists n :: n in ns && Names(e, n, id, addr)
  }

  /** A recent neighbor entry with a followable address, whose hardware address belongs to
      exactly one device, this one. */
  predicate Places(e: Rules, n: Neighbor, id: string, addr: string) {
    && n.address == addr && addr != "" && n.mac != ""
    && e.recent(n) && e.followable(addr)
    && e.normal(n.mac) != "" && e.normal(n.mac) !in e.ambiguous
    && e.normal(n.mac) in e.owner && e.owner[e.normal(n.mac)] == id
  }

  lemma SightedIs(e: Rules, ns: seq<Neighbor>, id: string, addr: string)
    ensures Sighted(e, ns, id, addr) <==> exists i :: 0 <= i < |ns| && Places(e, ns[i], id, addr)
  {
    if Sighted(e, ns, id, addr) {
      var n :| n in ns && Names(e, n, id, addr);
      var i :| 0 <= i < |ns| && ns[i] == n;
      assert Places(e, ns[i], id, addr);
    }
    if i :| 0 <= i < |ns| && Places(e, ns[i], id, addr) {
      assert Names(e, ns[i], id, addr);
    }
  }

  /** The sightings of d name x and nothing else, and x is news. */
  ghost predicate Chosen(e: Rules, ns: seq<Neighbor>, d: Device, x: string) {
    && Sighted(e, ns, d.id, x)
    && (forall y :: Sighted(e, ns, d.id, y) ==> y == x)
    && x != d.address
  }

  /** No other device owns or was promised x. */
  ghost predicate Free(taken: map<string, string>, id: string, x: string) {
    x in taken ==> taken[x] == id
  }

  // ---------- the plan ----------

  ghost function Planned(e: Rules, ns: seq<Neighbor>, devices: seq<Device>, taken: map<string, string>): seq<Change> {
    if devices == [] then []
    else
      var d := devices[0];
      if exists x :: Chosen(e, ns, d, x) && Free(taken, d.id, x) then
        var x :| Chosen(e, ns, d, x) && Free(taken, d.id, x);
        [Change(d.id, d.address, x)] + Planned(e, ns, devices[1..], taken[x := d.id])
      else
        Planned(e, ns, devices[1..], taken)
  }

  ghost predicate DistinctIds(devices: seq<Device>) {
    forall i, j :: 0 <= i < j < |devices| ==> devices[i].id != devices[j].id
  }

  ghost predicate Justified(e: Rules, ns: seq<Neighbor>, devices: seq<Device>, taken: map<string, string>, c: Change) {
    exists d :: d in devices && c.device == d.id && c.oldAddr == d.address && Chosen(e, ns, d, c.newAddr)
                && Free(taken, d.id, c.newAddr)
  }

  /** At most one change per device, and no two changes share a target. */
  ghost predicate Apart(cs: seq<Change>) {
    forall c, c' :: c in cs && c' in cs && (c.newAddr == c'.newAddr || c.device == c'.device) ==> c == c'
  }

  lemma ApartMore(c: Change, cs: seq<Change>)
    requires Apart(cs) && forall b :: b in cs ==> b.newAddr != c.newAddr && b.device != c.device
    ensures Apart([c] + cs)
  {
    assert forall b :: b in [c] + cs <==> b == c || b in cs;
  }

  /** Every change is backed by sightings, at most one per device, and no two share a target. */
  lemma {:induction false} PlannedFacts(e: Rules, ns: seq<Neighbor>, devices: seq<Device>, taken: map<string, string>)
    requires DistinctIds(devices)
    ensures forall c :: c in Planned(e, ns, devices, taken) ==> Justified(e, ns, devices, taken, c)
    ensures Apart(Planned(e, ns, devices, taken))
  {
    hide Chosen, Justified, Apart;
    if devices == [] {
      ApartNone();
    } else {
      var d := devices[0];
      if exists x :: Chosen(e, ns, d, x) && Free(taken, d.id, x) {
        var x :| Chosen(e, ns, d, x) && Free(taken, d.id, x);
        FirstChange(e, ns, devices, taken, x);
        PlannedFacts(e, ns, devices[1..], taken[x := d.id]);
        var first, rest := Change(d.id, d.address, x), Planned(e, ns, devices[1..], taken[x := d.id]);
        forall c | c in rest
          ensures Justified(e, ns, devices, taken, c) && c.newAddr != x && c.device != d.id
        {
          JustifiedMore(e, ns, devices, taken, x, c);
        }
        JustifiedFirst(e, ns, devices, taken, x);
        ApartMore(first, rest);
      } else {
        PlannedFacts(e, ns, devices[1..], taken);
        forall c | c in Planned(e, ns, devices[1..], taken)
          ensures Justified(e, ns, devices, taken, c)
        {
          JustifiedRest(e, ns, devices, taken, c);
        }
      }
    }
  }

  lemma ApartNone()
    ensures Apart([])
  {
  }

  lemma JustifiedMore(e: Rules, ns: seq<Neighbor>, devices: seq<Device>, taken: map<string, string>, x: string, c: Change)
    requires DistinctIds(devices) && devices != []
    requires Justified(e, ns, devices[1..], taken[x := devices[0].id], c)
    ensures Justified(e, ns, devices, taken, c) && c.newAddr != x && c.device != devices[0].id
  {
    hide Chosen;
    var d :| d in devices[1..] && c.device == d.id && c.oldAddr == d.address && Chosen(e, ns, d, c.newAddr)
             && Free(taken[x := devices[0].id], d.id, c.newAddr);
    assert d in devices && d.id != devices[0].id;
  }

  lemma JustifiedRest(e: Rules, ns: seq<Neighbor>, devices: seq<Device>, taken: map<string, string>, c: Change)
    requires devices != [] && Justified(e, ns, devices[1..], taken, c)
    ensures Justified(e, ns, devices, taken, c)
  {
  }

  lemma JustifiedFirst(e: Rules, ns: seq<Neighbor>, devices: seq<Device>, taken: map<string, string>, x: string)
    requires devices != [] && Chosen(e, ns, devices[0], x) && Free(taken, devices[0].id, x)
    ensures Justified(e, ns, devices, taken, Change(devices[0].id, devices[0].address, x))
  {
    assert devices[0] in devices;
  }

  lemma FirstChange(e: Rules, ns: seq<Neighbor>, devices: seq<Device>, taken: map<string, string>, x: string)
    requires devices != [] && Chosen(e, ns, devices[0], x) && Free(taken, devices[0].id, x)
    ensures Planned(e, ns, devices, taken) ==
            [Change(devices[0].id, devices[0].address, x)] + Planned(e, ns, devices[1..], taken[x := devices[0].id])
  {
  }

  /** The order in which neighbors were listed does not matter. */
  lemma {:induction false} PlannedOrderFree(e: Rules, ns: seq<Neighbor>, ns': seq<Neighbor>, devices: seq<Device>,
                                            taken: map<string, string>)
    requires forall n :: n in ns <==> n in ns'
    ensures Planned(e, ns, devices, taken) == Planned(e, ns', devices, taken)
  {
    assert forall id, x :: Sighted(e, ns, id, x) <==> Sighted(e, ns', id, x);
    if devices != [] {
      var d := devices[0];
      assert forall x :: Chosen(e, ns, d, x) <==> Chosen(e, ns', d, x);
      if exists x :: Chosen(e, ns, d, x) && Free(taken, d.id, x) {
        var x :| Chosen(e, ns, d, x) && Free(taken, d.id, x);
        FirstChange(e, ns, devices, taken, x);
        FirstChange(e, ns', devices, taken, x);
        PlannedOrderFree(e, ns, ns', devices[1..], taken[x := d.id]);
      } else {
        PlannedOrderFree(e, ns, ns', devices[1..], taken);
      }
    }
  }

  /**
   * Which devices move: device k moves to x exactly when its sightings choose
   * x, no other device holds x, and no device before it was promised x.
   */
  lemma {:induction false} MovesIff(e: Rules, ns: seq<Neighbor>, devices: seq<Device>, taken: map<string, string>,
                                    k: nat, x: string)
    requires DistinctIds(devices) && k < |devices|
    ensures Change(devices[k].id, devices[k].address, x) in Planned(e, ns, devices, taken) <==>
            && Chosen(e, ns, devices[k], x) && Free(taken, devices[k].id, x)
            && forall c :: c in Planned(e, ns, devices[..k], taken) ==> c.newAddr != x
    decreases k
  {
    hide Chosen, Justified, Apart;
    var d := devices[0];
    PlannedFacts(e, ns, devices, taken);
    var plan := Planned(e, ns, devices, taken);
    if k == 0 {
      if Change(d.id, d.address, x) in plan {
        JustifiedFor(e, ns, devices, taken, 0, Change(d.id, d.address, x));
      } else if Chosen(e, ns, d, x) && Free(taken, d.id, x) {
        FirstChange(e, ns, devices, taken, x);
        assert false;
      }
    } else {
      var rest, before := devices[1..], devices[..k];
      assert rest[k - 1] == devices[k] && before[0] == d && before[1..] == rest[..k - 1];
      assert devices[k].id != d.id;
      if exists y :: Chosen(e, ns, d, y) && Free(taken, d.id, y) {
        var y :| Chosen(e, ns, d, y) && Free(taken, d.id, y);
        FirstChange(e, ns, devices, taken, y);
        FirstChange(e, ns, before, taken, y);
        MovesIff(e, ns, rest, taken[y := d.id], k - 1, x);
        var first := Change(d.id, d.address, y);
        var more := Planned(e, ns, rest[..k - 1], taken[y := d.id]);
        assert forall c :: c in [first] + more <==> c == first || c in more;
      } else {
        MovesIff(e, ns, rest, taken, k - 1, x);
      }
    }
  }

  lemma JustifiedFor(e: Rules, ns: seq<Neighbor>, devices: seq<Device>, taken: map<string, string>, k: nat, c: Change)
    requires DistinctIds(devices) && k < |devices| && c.device == devices[k].id && Justified(e, ns, devices, taken, c)
    ensures Chosen(e, ns, devices[k], c.newAddr) && Free(taken, c.device, c.newAddr)
  {
    var d :| d in devices && c.device == d.id && c.oldAddr == d.address && Chosen(e, ns, d, c.newAddr)
             && Free(taken, d.id, c.newAddr);
    var j :| 0 <= j < |devices| && devices[j] == d;
    assert j == k;
  }

  // ---------- the planner ----------

  type Proposals = map<string, map<string, string>>

  ghost predicate Proposes(p: Proposals, id: string, x: string) { id in p && x in p[id] }

  ghost predicate IsIndex(devices: seq<Device>, byId: map<string, Device>) {
    && (forall d :: d in devices ==> d.id in byId && byId[d.id] == d)
    && (forall id :: id in byId ==> byId[id] in devices && byId[id].id == id)
  }

  method Index(devices: seq<Device>) returns (byId: map<string, Device>)
    requires DistinctIds(devices)
    ensures IsIndex(devices, byId)
  {
    byId := map[];
    for i := 0 to |devices|
      invariant IsIndex(devices[..i], byId)
    {
      byId := byId[devices[i].id := devices[i]];
      assert forall d :: d in devices[..i + 1] <==> d in devices[..i] || d == devices[i];
    }
    assert devices[..|devices|] == devices;
  }

  /** The proposals are the sightings away from the current address; live marks the sightings at it. */
  ghost predicate IsCollected(e: Rules, ns: seq<Neighbor>, byId: map<string, Device>, p: Proposals, live: set<string>) {
    && (forall id :: id in byId ==> (id in live <==> Sighted(e, ns, id, byId[id].address)))
    && (forall id, x :: Proposes(p, id, x) <==> id in byId && Sighted(e, ns, id, x) && x != byId[id].address)
    && (forall id, x :: Proposes(p, id, x) ==> IsSightedMac(e, ns, id, x, p[id][x]))
  }

  ghost predicate IsSightedMac(e: Rules, ns: seq<Neighbor>, id: string, x: string, mac: string) {
    exists n :: n in ns && Names(e, n, id, x) && e.normal(n.mac) == mac
  }

  lemma SightedMore(e: Rules, ns: seq<Neighbor>, n: Neighbor)
    ensures forall id, x :: Sighted(e, ns + [n], id, x) <==> Sighted(e, ns, id, x) || Names(e, n, id, x)
    ensures forall id, x, mac :: IsSightedMac(e, ns, id, x, mac) ==> IsSightedMac(e, ns + [n], id, x, mac)
  {
    assert forall b :: b in ns + [n] <==> b in ns || b == n;
  }

  method Collect(e: Rules, ns: seq<Neighbor>, byId: map<string, Device>) returns (p: Proposals, live: set<string>)
    ensures IsCollected(e, ns, byId, p, live)
  {
    p, live := map[], {};
    for i := 0 to |ns|
      invariant IsCollected(e, ns[..i], byId, p, live)
    {
      var n := ns[i];
      assert ns[..i + 1] == ns[..i] + [n];
      SightedMore(e, ns[..i], n);
      p, live := Note(e, ns[..i], n, byId, p, live);
    }
    assert ns[..|ns|] == ns;
  }

  /** Takes account of one more sighting. */
  method Note(e: Rules, ghost ns: seq<Neighbor>, n: Neighbor, byId: map<string, Device>, p: Proposals, live: set<string>)
    returns (p': Proposals, live': set<string>)
    requires IsCollected(e, ns, byId, p, live)
    ensures IsCollected(e, ns + [n], byId, p', live')
  {
    hide IsSightedMac;
    SightedMore(e, ns, n);
    hide Sighted;
    p', live' := p, live;
    if !Usable(e, n) {
      return;
    }
    var id := e.owner[e.normal(n.mac)];
    if id !in byId {
      return;
    }
    if n.address == byId[id].address {
      live' := live + {id};
      return;
    }
    NewMac(e, ns, n, id);
    var s := if id in p then p[id] else map[];
    p' := p[id := s[n.address := e.normal(n.mac)]];
    forall a, x
      ensures Proposes(p', a, x) <==> Proposes(p, a, x) || (a == id && x == n.address)
      ensures Proposes(p, a, x) && !(a == id && x == n.address) ==> p'[a][x] == p[a][x]
    {
    }
  }

  lemma NewMac(e: Rules, ns: seq<Neighbor>, n: Neighbor, id: string)
    requires Usable(e, n) && e.owner[e.normal(n.mac)] == id
    ensures IsSightedMac(e, ns + [n], id, n.address, e.normal(n.mac))
  {
    assert n in ns + [n];
  }

  ghost function ChangesOf(moves: seq<Move>): (cs: seq<Change>)
    ensures |cs| == |moves|
  {
    seq(|moves|, i requires 0 <= i < |moves| => Change(moves[i].device, moves[i].oldAddr, moves[i].newAddr))
  }

  /** What one device's proposals come to: one entry, and no sighting at the current address. */
  lemma ChosenIs(e: Rules, ns: seq<Neighbor>, byId: map<string, Device>, p: Proposals, live: set<string>, d: Device)
    requires IsCollected(e, ns, byId, p, live) && d.id in byId && byId[d.id] == d
    ensures forall x :: Chosen(e, ns, d, x) <==> d.id !in live && d.id in p && p[d.id].Keys == {x}
  {
    forall x
      ensures Chosen(e, ns, d, x) <==> d.id !in live && d.id in p && p[d.id].Keys == {x}
    {
      if Chosen(e, ns, d, x) {
        assert Proposes(p, d.id, x);
        forall y | y in p[d.id]
          ensures y == x
        {
          assert Proposes(p, d.id, y);
        }
      }
      if d.id !in live && d.id in p && p[d.id].Keys == {x} {
        assert Proposes(p, d.id, x);
        forall y | Sighted(e, ns, d.id, y)
          ensures y == x
        {
          assert y != d.address;
          assert Proposes(p, d.id, y);
        }
      }
    }
  }

  lemma OnlyKey(m: map<string, string>) returns (x: string)
    requires |m| == 1
    ensures m.Keys == {x}
  {
    assert |m.Keys| == 1;
    x :| x in m;
    assert |m.Keys - {x}| == 0;
  }

  lemma OneKey(m: map<string, string>, x: string)
    requires m.Keys == {x}
    ensures |m| == 1
  {
    assert |m.Keys| == |m|;
  }

  /** The address one device should move to, if any. */
  method Pick(e: Rules, ghost ns: seq<Neighbor>, ghost byId: map<string, Device>, d: Device, p: Proposals,
              live: set<string>, taken: map<string, string>) returns (ok: bool, x: string)
    requires IsCollected(e, ns, byId, p, live) && d.id in byId && byId[d.id] == d
    ensures ok ==> Chosen(e, ns, d, x) && Free(taken, d.id, x) && d.id in p && x in p[d.id]
    ensures ok ==> IsSightedMac(e, ns, d.id, x, p[d.id][x])
    ensures !ok ==> forall y :: !(Chosen(e, ns, d, y) && Free(taken, d.id, y))
  {
    ChosenIs(e, ns, byId, p, live, d);
    hide Chosen, IsSightedMac, Sighted;
    if d.id !in p || |p[d.id]| == 0 || d.id in live || |p[d.id]| != 1 {
      NotChosen(e, ns, d, p, live);
      return false, "";
    }
    ghost var only := OnlyKey(p[d.id]);
    x :| x in p[d.id];
    assert p[d.id].Keys == {x} && Proposes(p, d.id, x);
    if x in taken && taken[x] != d.id {
      NotFree(e, ns, d, x, taken);
      return false, "";
    }
    return true, x;
  }

  /** The addresses owned or promised once these changes are planned. */
  ghost function Promised(taken: map<string, string>, cs: seq<Change>): map<string, string> {
    if cs == [] then taken
    else Promised(taken, cs[..|cs| - 1])[cs[|cs| - 1].newAddr := cs[|cs| - 1].device]
  }

  /** At most one move per device, in the order of the devices. */
  method PlanMoves(e: Rules, devices: seq<Device>, addrOf: map<string, string>, ns: seq<Neighbor>)
    returns (moves: seq<Move>, taken: map<string, string>)
    requires DistinctIds(devices)
    ensures ChangesOf(moves) == Planned(e, ns, devices, addrOf)
    ensures taken == Promised(addrOf, ChangesOf(moves))
    ensures forall m :: m in moves ==> IsSightedMac(e, ns, m.device, m.newAddr, m.mac)
  {
    hide Chosen, IsSightedMac, Planned, IsCollected;
    var byId := Index(devices);
    var p, live := Collect(e, ns, byId);
    moves, taken := [], addrOf;
    assert devices[0..] == devices;
    for i := 0 to |devices|
      invariant Planned(e, ns, devices, addrOf) == ChangesOf(moves) + Planned(e, ns, devices[i..], taken)
      invariant taken == Promised(addrOf, ChangesOf(moves))
      invariant forall m :: m in moves ==> IsSightedMac(e, ns, m.device, m.newAddr, m.mac)
    {
      var d := devices[i];
      ghost var left := devices[i..];
      assert left[0] == d && left[1..] == devices[i + 1..];
      var ok, x := Pick(e, ns, byId, d, p, live, taken);
      if ok {
        FirstChange(e, ns, left, taken, x);
        taken := taken[x := d.id];
        var m := Move(d.id, d.address, x, p[d.id][x]);
        assert ChangesOf(moves + [m]) == ChangesOf(moves) + [Change(d.id, d.address, x)];
        assert ChangesOf(moves + [m])[..|moves|] == ChangesOf(moves);
        moves := moves + [m];
      } else {
        SkipFirst(e, ns, left, taken);
      }
    }
    NonePlanned(e, ns, taken);
  }

  lemma NonePlanned(e: Rules, ns: seq<Neighbor>, taken: map<string, string>)
    ensures Planned(e, ns, [], taken) == []
  {
  }

  lemma SkipFirst(e: Rules, ns: seq<Neighbor>, devices: seq<Device>, taken: map<string, string>)
    requires devices != [] && forall x :: !(Chosen(e, ns, devices[0], x) && Free(taken, devices[0].id, x))
    ensures Planned(e, ns, devices, taken) == Planned(e, ns, devices[1..], taken)
  {
  }

  lemma NotChosen(e: Rules, ns: seq<Neighbor>, d: Device, p: Proposals, live: set<string>)
    requires forall x :: Chosen(e, ns, d, x) <==> d.id !in live && d.id in p && p[d.id].Keys == {x}
    requires d.id !in p || d.id in live || |p[d.id]| != 1
    ensures forall x :: !Chosen(e, ns, d, x)
  {
    forall x
      ensures !Chosen(e, ns, d, x)
    {
      if Chosen(e, ns, d, x) {
        OneKey(p[d.id], x);
        assert false;
      }
    }
  }

  lemma NotFree(e: Rules, ns: seq<Neighbor>, d: Device, x: string, taken: map<string, string>)
    requires Chosen(e, ns, d, x) && !Free(taken, d.id, x)
    ensures forall y :: !(Chosen(e, ns, d, y) && Free(taken, d.id, y))
  {
  }

  // ---------- committing ----------

  /** The index of current addresses the planner starts from. */
  function AddrIndex(devices: seq<Device>): (m: map<string, string>)
  {
    if devices == [] then map[]
    else
      var d, m := devices[|devices| - 1], AddrIndex(devices[..|devices| - 1]);
      if d.address != "" then m[d.address := d.id] else m
  }

  /** No two devices share an address; a device may have none. */
  ghost predicate DistinctAddresses(at: map<string, string>) {
    forall d, d' :: d in at && d' in at && d != d' && at[d] == at[d'] ==> at[d] == ""
  }

  /** A move is committed unless the address was changed since it was planned. */
  function Commit(at: map<string, string>, m: Move): map<string, string> {
    if m.device in at && at[m.device] == m.oldAddr then at[m.device := m.newAddr] else at
  }

  function CommitAll(at: map<string, string>, ms: seq<Move>): map<string, string> {
    if ms == [] then at else Commit(CommitAll(at, ms[..|ms| - 1]), ms[|ms| - 1])
  }

  ghost function AddressesOf(devices: seq<Device>): (at: map<string, string>)
    ensures forall id :: id in at ==> exists d :: d in devices && d.id == id && at[id] == d.address
    ensures forall d :: d in devices ==> d.id in at
  {
    if devices == [] then map[]
    else
      var d, at := devices[|devices| - 1], AddressesOf(devices[..|devices| - 1]);
      assert forall b :: b in devices <==> b in devices[..|devices| - 1] || b == d;
      at[d.id := d.address]
  }

  lemma {:induction false} AddrIndexHas(devices: seq<Device>, d: Device)
    requires d in devices && d.address != ""
    requires forall b :: b in devices && b.address == d.address ==> b.id == d.id
    ensures d.address in AddrIndex(devices) && AddrIndex(devices)[d.address] == d.id
  {
    var last := devices[|devices| - 1];
    if last.address != d.address {
      assert d in devices[..|devices| - 1];
      AddrIndexHas(devices[..|devices| - 1], d);
    }
  }

  /** Each device is where it was, or where a committed move of its own put it. */
  lemma {:induction false} CommittedFrom(at: map<string, string>, ms: seq<Move>, id: string)
    requires id in at
    ensures id in CommitAll(at, ms)
    ensures CommitAll(at, ms)[id] == at[id] || exists m :: m in ms && m.device == id && CommitAll(at, ms)[id] == m.newAddr
  {
    if ms != [] {
      CommittedFrom(at, ms[..|ms| - 1], id);
    }
  }

  lemma {:induction false} CommitKeys(at: map<string, string>, ms: seq<Move>)
    ensures CommitAll(at, ms).Keys == at.Keys
  {
    if ms != [] {
      CommitKeys(at, ms[..|ms| - 1]);
    }
  }

  lemma AddressOf(devices: seq<Device>, d: Device)
    requires DistinctIds(devices) && d in devices
    ensures AddressesOf(devices)[d.id] == d.address
  {
    var at := AddressesOf(devices);
    var b :| b in devices && b.id == d.id && at[d.id] == b.address;
    var i :| 0 <= i < |devices| && devices[i] == b;
    var j :| 0 <= j < |devices| && devices[j] == d;
    assert i == j;
  }

  /** A planned target is an address, and no other device has it. */
  lemma MoveTarget(e: Rules, ns: seq<Neighbor>, devices: seq<Device>, moves: seq<Move>, m: Move, id: string)
    requires DistinctIds(devices) && DistinctAddresses(AddressesOf(devices))
    requires ChangesOf(moves) == Planned(e, ns, devices, AddrIndex(devices)) && m in moves
    requires id in AddressesOf(devices) && id != m.device
    ensures m.newAddr != "" && AddressesOf(devices)[id] != m.newAddr
  {
    hide AddrIndex, AddressesOf, Apart;
    var c := ChangeIn(moves, m);
    PlannedFacts(e, ns, devices, AddrIndex(devices));
    assert Justified(e, ns, devices, AddrIndex(devices), c);
    assert m.newAddr != "";
    if AddressesOf(devices)[id] == m.newAddr {
      var d :| d in devices && d.id == id && AddressesOf(devices)[id] == d.address;
      forall b | b in devices && b.address == d.address
        ensures b.id == d.id
      {
        AddressOf(devices, b);
      }
      AddrIndexHas(devices, d);
      assert false;
    }
  }

  lemma ChangeIn(moves: seq<Move>, m: Move) returns (c: Change)
    requires m in moves
    ensures c == Change(m.device, m.oldAddr, m.newAddr) && c in ChangesOf(moves)
  {
    var i :| 0 <= i < |moves| && moves[i] == m;
    c := ChangesOf(moves)[i];
  }

  lemma PairDistinct(e: Rules, ns: seq<Neighbor>, devices: seq<Device>, moves: seq<Move>, commits: seq<Move>,
                     a: string, b: string)
    requires DistinctIds(devices) && DistinctAddresses(AddressesOf(devices))
    requires ChangesOf(moves) == Planned(e, ns, devices, AddrIndex(devices))
    requires forall m :: m in commits ==> m in moves
    requires a in AddressesOf(devices) && b in AddressesOf(devices) && a != b
    ensures a in CommitAll(AddressesOf(devices), commits) && b in CommitAll(AddressesOf(devices), commits)
    ensures CommitAll(AddressesOf(devices), commits)[a] == CommitAll(AddressesOf(devices), commits)[b] ==>
              CommitAll(AddressesOf(devices), commits)[a] == ""
  {
    hide AddrIndex, AddressesOf, CommitAll, Planned;
    var at := AddressesOf(devices);
    CommittedFrom(at, commits, a);
    CommittedFrom(at, commits, b);
    var after := CommitAll(at, commits);
    if after[a] != at[a] {
      var m :| m in commits && m.device == a && after[a] == m.newAddr;
      MoveTarget(e, ns, devices, moves, m, b);
      if after[b] != at[b] {
        var m' :| m' in commits && m'.device == b && after[b] == m'.newAddr;
        var c := ChangeIn(moves, m);
        var c' := ChangeIn(moves, m');
        PlannedFacts(e, ns, devices, AddrIndex(devices));
      }
    } else if after[b] != at[b] {
      var m' :| m' in commits && m'.device == b && after[b] == m'.newAddr;
      MoveTarget(e, ns, devices, moves, m', a);
    }
  }

  /** Committing any of the moves, in any order, keeps the addresses distinct. */
  lemma CommitKeepsDistinct(e: Rules, ns: seq<Neighbor>, devices: seq<Device>, moves: seq<Move>, commits: seq<Move>)
    requires DistinctIds(devices) && DistinctAddresses(AddressesOf(devices))
    requires ChangesOf(moves) == Planned(e, ns, devices, AddrIndex(devices))
    requires forall m :: m in commits ==> m in moves
    ensures DistinctAddresses(CommitAll(AddressesOf(devices), commits))
  {
    hide Chosen, CommitAll, AddrIndex, AddressesOf, DistinctAddresses;
    var at := AddressesOf(devices);
    var after := CommitAll(at, commits);
    CommitKeys(at, commits);
    forall a, b | a in after && b in after && a != b && after[a] == after[b]
      ensures after[a] == ""
    {
      PairDistinct(e, ns, devices, moves, commits, a, b);
    }
    AreDistinct(after);
  }

  /** Committed one by one, every move of a plan takes effect. */
  lemma {:induction false} AllCommitted(at: map<string, string>, ms: seq<Move>, m: Move)
    requires forall a, b :: 0 <= a < b < |ms| ==> ms[a].device != ms[b].device
    requires forall x :: x in ms ==> x.device in at && at[x.device] == x.oldAddr
    requires m in ms
    ensures m.device in CommitAll(at, ms) && CommitAll(at, ms)[m.device] == m.newAddr
    decreases |ms|
  {
    var rest, last := ms[..|ms| - 1], ms[|ms| - 1];
    assert ms == rest + [last] && last in ms;
    forall x | x in rest
      ensures x in ms && x.device != last.device
    {
      var a :| 0 <= a < |rest| && rest[a] == x;
      assert ms[a].device != ms[|ms| - 1].device;
    }
    assert CommitAll(at, ms) == Commit(CommitAll(at, rest), last);
    hide CommitAll;
    if m == last {
      CommittedFrom(at, rest, m.device);
    } else {
      AllCommitted(at, rest, m);
    }
  }

  lemma AreDistinct(at: map<string, string>)
    requires forall a, b :: a in at && b in at && a != b && at[a] == at[b] ==> at[a] == ""
    ensures DistinctAddresses(at)
  {
  }
}
