/**
 * Building the address plan from what the managed devices report: each
 * address is classified, the rows of one prefix are merged by rank, and every
 * address gets a host row with the class of the network holding it.
 */
module PlanBuild {
  import opened Addresses
  import opened Prefixes
  import opened AddressPlan
  import opened Sorting
  import opened TopN

  datatype PlanAddr = PlanAddr(host: Addr, prefix: Prefix, device: string, iface: string, vpnType: bool)

  datatype UplinkKind = VpnUplink | DefaultRoute | OtherUplink

  datatype Uplink = Uplink(device: string, iface: string, kind: UplinkKind, vpnType: bool, gateway: Addr)

  datatype IfKey = IfKey(device: string, iface: string)

  datatype Inputs = Inputs(addrs: seq<PlanAddr>, devices: map<string, Addr>, uplinks: seq<Uplink>, external: seq<Prefix>)

  function KeyOf(u: Uplink): IfKey { IfKey(u.device, u.iface) }

  // ---------- classifying an address ----------

  /** Another device has an address inside the prefix. */
  predicate Shared(i: Inputs, a: PlanAddr) {
    || (exists o :: o in i.addrs && o.device != a.device && Contains(a.prefix, o.host))
    || (exists id :: id in i.devices && id != a.device && Contains(a.prefix, i.devices[id]))
  }

  /** The gateway of this uplink lies in a shared prefix of its own interface. */
  predicate ViaLan(i: Inputs, u: Uplink) {
    exists a :: a in i.addrs && a.device == u.device && a.iface == u.iface && Contains(a.prefix, u.gateway) && Shared(i, a)
  }

  predicate IsWan(u: Uplink) { u.kind == DefaultRoute && !u.vpnType }

  ghost predicate VpnIface(i: Inputs, k: IfKey) {
    exists u :: u in i.uplinks && KeyOf(u) == k && u.kind == VpnUplink
  }

  ghost predicate WanIface(i: Inputs, k: IfKey) {
    && (exists u :: u in i.uplinks && KeyOf(u) == k && IsWan(u))
    && !exists u :: u in i.uplinks && KeyOf(u) == k && ViaLan(i, u)
  }

  /** The class of a reported address. */
  ghost function KindOf(i: Inputs, a: PlanAddr): (k: Kind)
    ensures k == Transit || k == Vpn || k == Internal
  {
    var key := IfKey(a.device, a.iface);
    if a.vpnType || VpnIface(i, key) then Vpn
    else if WanIface(i, key) && !Shared(i, a) then Transit
    else Internal
  }

  /** Another device has an address inside the prefix of a. */
  ghost predicate Neighboured(i: Inputs, a: PlanAddr) {
    || (exists n :: 0 <= n < |i.addrs| && i.addrs[n].device != a.device && Contains(a.prefix, i.addrs[n].host))
    || (exists id :: id in i.devices.Keys && id != a.device && Contains(a.prefix, i.devices[id]))
  }

  /** u is an uplink of the interface of a, and b an address there whose network holds its gateway. */
  predicate Through(a: PlanAddr, u: Uplink, b: PlanAddr) {
    && u.device == a.device && u.iface == a.iface && b.device == a.device && b.iface == a.iface
    && Contains(b.prefix, u.gateway)
  }

  lemma SharedIs(i: Inputs, a: PlanAddr)
    ensures Shared(i, a) <==> Neighboured(i, a)
  {
    if o :| o in i.addrs && o.device != a.device && Contains(a.prefix, o.host) {
      var n :| 0 <= n < |i.addrs| && i.addrs[n] == o;
      assert i.addrs[n].device != a.device;
    }
    if n :| 0 <= n < |i.addrs| && i.addrs[n].device != a.device && Contains(a.prefix, i.addrs[n].host) {
      assert i.addrs[n] in i.addrs;
    }
  }

  /**
   * What the classes mean. Vpn: the interface is of a vpn type or carries a
   * vpn uplink. Transit: the interface carries a default route that is no vpn,
   * none of its uplinks has its gateway in a network of the interface that
   * another device is in, and no other device is in this network. All else is
   * internal.
   */
  lemma KindMeans(i: Inputs, a: PlanAddr)
    ensures KindOf(i, a) == Vpn <==>
      a.vpnType || exists u :: u in i.uplinks && u.device == a.device && u.iface == a.iface && u.kind == VpnUplink
    ensures KindOf(i, a) == Transit <==>
      && KindOf(i, a) != Vpn
      && (exists u :: u in i.uplinks && u.device == a.device && u.iface == a.iface && u.kind == DefaultRoute && !u.vpnType)
      && !Neighboured(i, a)
      && (forall u, b :: u in i.uplinks && b in i.addrs && Through(a, u, b) ==> !Neighboured(i, b))
    ensures KindOf(i, a) == Internal <==> KindOf(i, a) != Vpn && KindOf(i, a) != Transit
  {
    hide Shared, Neighboured, Contains;
    SharedIs(i, a);
    forall b
      ensures Shared(i, b) <==> Neighboured(i, b)
    {
      SharedIs(i, b);
    }
    var key := IfKey(a.device, a.iface);
    if u, b :| u in i.uplinks && b in i.addrs && Through(a, u, b) && Neighboured(i, b) {
      assert KeyOf(u) == key && ViaLan(i, u);
    }
  }

  method UplinkKeys(uplinks: seq<Uplink>) returns (vpn: set<IfKey>, wan: set<IfKey>)
    ensures forall k :: k in vpn <==> exists u :: u in uplinks && KeyOf(u) == k && u.kind == VpnUplink
    ensures forall k :: k in wan <==> exists u :: u in uplinks && KeyOf(u) == k && IsWan(u)
  {
    vpn, wan := {}, {};
    for n := 0 to |uplinks|
      invariant forall k :: k in vpn <==> exists u :: u in uplinks[..n] && KeyOf(u) == k && u.kind == VpnUplink
      invariant forall k :: k in wan <==> exists u :: u in uplinks[..n] && KeyOf(u) == k && IsWan(u)
    {
      var u := uplinks[n];
      assert forall x :: x in uplinks[..n + 1] <==> x in uplinks[..n] || x == u;
      if u.kind == VpnUplink {
        vpn := vpn + {KeyOf(u)};
      } else if IsWan(u) {
        wan := wan + {KeyOf(u)};
      }
    }
    assert uplinks[..|uplinks|] == uplinks;
  }

  /** A default route through the LAN is no Internet uplink. */
  method DropLanRoutes(i: Inputs, wan: set<IfKey>) returns (r: set<IfKey>)
    ensures forall k :: k in r <==> k in wan && !exists u :: u in i.uplinks && KeyOf(u) == k && ViaLan(i, u)
  {
    r := wan;
    for n := 0 to |i.uplinks|
      invariant forall k :: k in r <==> k in wan && !exists u :: u in i.uplinks[..n] && KeyOf(u) == k && ViaLan(i, u)
    {
      var u := i.uplinks[n];
      assert forall x :: x in i.uplinks[..n + 1] <==> x in i.uplinks[..n] || x == u;
      if KeyOf(u) in r && ViaLan(i, u) {
        r := r - {KeyOf(u)};
      }
    }
    assert i.uplinks[..|i.uplinks|] == i.uplinks;
  }

  // ---------- merging the rows of one prefix ----------

  predicate InsideExternal(external: seq<Prefix>, p: Prefix) {
    exists e :: e in external && e.bits <= p.bits && Contains(e, p.addr)
  }

  /** All of p lies in an external prefix. */
  lemma InsideExternalIs(external: seq<Prefix>, p: Prefix)
    requires ValidPrefix(p)
    ensures InsideExternal(external, p) <==>
      exists e :: e in external && e.bits <= p.bits && forall a :: Contains(p, a) ==> Contains(e, a)
  {
    assert Contains(p, p.addr);
    if e :| e in external && e.bits <= p.bits && Contains(e, p.addr) {
      forall a | Contains(p, a)
        ensures Contains(e, a)
      {
        Nested(e, p, p.addr, a);
      }
    }
  }

  function Rank(external: seq<Prefix>, r: Row): nat {
    match r.kind
    case Transit => 1
    case Vpn => 2
    case Internal => if InsideExternal(external, r.prefix) then 0 else 3
    case Unrecognised(_) => 0
  }

  /** Row j is the first of the rows of its prefix with the highest rank. */
  ghost predicate FirstBest(external: seq<Prefix>, rows: seq<Row>, j: int) {
    && 0 <= j < |rows|
    && (forall l :: 0 <= l < j && rows[l].prefix == rows[j].prefix ==> Rank(external, rows[l]) < Rank(external, rows[j]))
    && (forall l :: j <= l < |rows| && rows[l].prefix == rows[j].prefix ==> Rank(external, rows[l]) <= Rank(external, rows[j]))
  }

  ghost predicate IsMerged(external: seq<Prefix>, rows: seq<Row>, best: map<Prefix, Row>) {
    && (forall r :: r in rows ==> r.prefix in best)
    && forall p :: p in best ==> exists j :: 0 <= j < |rows| && FirstBest(external, rows, j) && best[p] == rows[j] && rows[j].prefix == p
  }

  ghost function RowsOf(i: Inputs, n: nat): (rows: seq<Row>)
    requires n <= |i.addrs|
    ensures |rows| == n
  {
    seq(n, j requires 0 <= j < n => RowOf(i, i.addrs[j]))
  }

  ghost function RowOf(i: Inputs, a: PlanAddr): Row { Row(a.prefix, KindOf(i, a), a.device, a.iface) }

  function Merge(external: seq<Prefix>, best: map<Prefix, Row>, row: Row): map<Prefix, Row> {
    if row.prefix !in best || Rank(external, row) > Rank(external, best[row.prefix]) then best[row.prefix := row] else best
  }

  lemma MergeStep(external: seq<Prefix>, rows: seq<Row>, best: map<Prefix, Row>, row: Row)
    requires IsMerged(external, rows, best)
    ensures IsMerged(external, rows + [row], Merge(external, best, row))
  {
    hide Rank;
    var all, after := rows + [row], Merge(external, best, row);
    forall p | p in after
      ensures exists j :: 0 <= j < |all| && FirstBest(external, all, j) && after[p] == all[j] && all[j].prefix == p
    {
      if p in best {
        var j :| 0 <= j < |rows| && FirstBest(external, rows, j) && best[p] == rows[j] && rows[j].prefix == p;
        FirstBestStep(external, rows, row, j);
        if row.prefix == p && Rank(external, row) > Rank(external, best[p]) {
          assert all[|rows|] == row;
        } else {
          assert all[j] == rows[j];
        }
      } else {
        assert FirstBest(external, all, |rows|);
      }
    }
  }

  lemma FirstBestStep(external: seq<Prefix>, rows: seq<Row>, row: Row, j: int)
    requires FirstBest(external, rows, j)
    ensures row.prefix != rows[j].prefix || Rank(external, row) <= Rank(external, rows[j]) ==>
              FirstBest(external, rows + [row], j)
    ensures row.prefix == rows[j].prefix && Rank(external, row) > Rank(external, rows[j]) ==>
              FirstBest(external, rows + [row], |rows|)
  {
    hide Rank;
    var all := rows + [row];
    assert forall l :: 0 <= l < |rows| ==> all[l] == rows[l];
  }

  /** Merges the classified rows of all reported addresses. */
  method MergeAll(i: Inputs, vpn: set<IfKey>, wan: set<IfKey>) returns (best: map<Prefix, Row>)
    requires forall k :: k in vpn <==> VpnIface(i, k)
    requires forall k :: k in wan <==> WanIface(i, k)
    ensures IsMerged(i.external, RowsOf(i, |i.addrs|), best)
  {
    hide IsMerged, Rank;
    best := map[];
    assert IsMerged(i.external, RowsOf(i, 0), best) by { MergeNone(i.external); assert RowsOf(i, 0) == []; }
    for n := 0 to |i.addrs|
      invariant IsMerged(i.external, RowsOf(i, n), best)
    {
      var a := i.addrs[n];
      var key := IfKey(a.device, a.iface);
      var kind := Internal;
      if a.vpnType || key in vpn {
        kind := Vpn;
      } else if key in wan && !Shared(i, a) {
        kind := Transit;
      }
      var row := Row(a.prefix, kind, a.device, a.iface);
      assert RowsOf(i, n + 1) == RowsOf(i, n) + [row];
      MergeStep(i.external, RowsOf(i, n), best, row);
      best := Merge(i.external, best, row);
    }
  }

  lemma MergeNone(external: seq<Prefix>)
    ensures IsMerged(external, [], map[])
  {
  }

  ghost predicate Reported(i: Inputs, p: Prefix, k: Kind) {
    exists a :: a in i.addrs && a.prefix == p && KindOf(i, a) == k
  }

  /**
   * The class of a merged prefix, whatever the order of the addresses:
   * internal beats vpn beats transit, except that inside an external prefix
   * internal gives way to the others.
   */
  ghost function MergedKind(i: Inputs, p: Prefix): Kind {
    if Reported(i, p, Internal) && !InsideExternal(i.external, p) then Internal
    else if Reported(i, p, Vpn) then Vpn
    else if Reported(i, p, Transit) then Transit
    else Internal
  }

  ghost predicate IsNetworks(i: Inputs, best: map<Prefix, Row>) {
    && (forall p :: p in best <==> exists a :: a in i.addrs && a.prefix == p)
    && (forall p :: p in best ==> best[p].prefix == p && best[p].kind == MergedKind(i, p))
  }

  lemma MergedIs(i: Inputs, best: map<Prefix, Row>)
    requires IsMerged(i.external, RowsOf(i, |i.addrs|), best)
    ensures IsNetworks(i, best)
  {
    hide Rank, KindOf, MergedKind, Reported, FirstBest;
    var rows := RowsOf(i, |i.addrs|);
    forall a | a in i.addrs
      ensures RowOf(i, a) in rows
    {
      var j :| 0 <= j < |i.addrs| && i.addrs[j] == a;
      assert rows[j] == RowOf(i, a);
    }
    forall p | p in best
      ensures (exists a :: a in i.addrs && a.prefix == p) && best[p].prefix == p && best[p].kind == MergedKind(i, p)
    {
      var j :| 0 <= j < |rows| && FirstBest(i.external, rows, j) && best[p] == rows[j] && rows[j].prefix == p;
      BestOf(i.external, rows, j);
      assert i.addrs[j] in i.addrs && rows[j] == RowOf(i, i.addrs[j]);
      ReportedBy(i, i.addrs[j]);
      MergedAt(i, rows, p, best[p]);
    }
    forall a | a in i.addrs
      ensures a.prefix in best
    {
      assert RowOf(i, a) in rows;
    }
  }

  lemma BestOf(external: seq<Prefix>, rows: seq<Row>, j: int)
    requires FirstBest(external, rows, j)
    ensures 0 <= j < |rows| && forall r :: r in rows && r.prefix == rows[j].prefix ==> Rank(external, r) <= Rank(external, rows[j])
  {
    hide Rank;
  }

  lemma ReportedBy(i: Inputs, a: PlanAddr)
    requires a in i.addrs
    ensures Reported(i, a.prefix, KindOf(i, a))
  {
    hide KindOf;
  }

  lemma MergedAt(i: Inputs, rows: seq<Row>, p: Prefix, b: Row)
    requires forall a :: a in i.addrs ==> RowOf(i, a) in rows
    requires b.prefix == p && Reported(i, p, b.kind)
    requires b.kind == Transit || b.kind == Vpn || b.kind == Internal
    requires forall r :: r in rows && r.prefix == p ==> Rank(i.external, r) <= Rank(i.external, b)
    ensures b.kind == MergedKind(i, p)
  {
    hide KindOf;
    forall k | Reported(i, p, k)
      ensures Rank(i.external, b.(kind := k)) <= Rank(i.external, b)
    {
      var a :| a in i.addrs && a.prefix == p && KindOf(i, a) == k;
      assert RowOf(i, a) in rows;
    }
  }

  // ---------- host rows ----------

  ghost predicate Keyed(best: map<Prefix, Row>) {
    forall p :: p in best ==> best[p].prefix == p && IsMasked(p)
  }

  /** The rows are the values of the map. */
  ghost predicate RowsAre(rows: seq<Row>, best: map<Prefix, Row>) {
    forall r :: r in rows <==> r.prefix in best && best[r.prefix] == r
  }

  ghost predicate LongestIn(best: map<Prefix, Row>, a: Addr, p: Prefix) {
    p in best && Contains(p, a) && forall q :: q in best && Contains(q, a) ==> q.bits <= p.bits
  }

  /** A row for a single address, of the class of the most specific network holding it. */
  ghost predicate IsHostRow(addrs: seq<PlanAddr>, nets: map<Prefix, Row>, r: Row) {
    exists a, q :: a in addrs && r.prefix == HostPrefix(a.host) && LongestIn(nets, a.host, q) && r.kind == nets[q].kind
                   && r.device == a.device && r.iface == a.iface
  }

  ghost predicate IsHosted(addrs: seq<PlanAddr>, nets: map<Prefix, Row>, best: map<Prefix, Row>) {
    && (forall p :: p in nets ==> p in best && best[p] == nets[p])
    && (forall p :: p in best && p !in nets ==> best[p].prefix == p && IsHostRow(addrs, nets, best[p]))
    && (forall a, q :: a in addrs && q in nets && Contains(q, a.host) ==> HostPrefix(a.host) in best)
  }

  lemma LongestThere(rows: seq<Row>, nets: map<Prefix, Row>, a: Addr, r: Row)
    requires Keyed(nets) && RowsAre(rows, nets) && IsLongest(rows, a, r)
    ensures LongestIn(nets, a, r.prefix) && nets[r.prefix] == r
  {
    forall q | q in nets && Contains(q, a)
      ensures q.bits <= r.prefix.bits
    {
      assert nets[q] in rows;
    }
  }

  /** The values of the map, in the order given. */
  method Listed(best: map<Prefix, Row>, le: (Row, Row) -> bool) returns (rows: seq<Row>)
    requires Keyed(best) && TotalPreorder(le)
    ensures RowsAre(rows, best) && SortedBy(rows, le)
    ensures Lists(rows, best.Values)
  {
    var some := Enumerate(best.Values);
    rows := SortBy(some, le);
    SortPermutes(some, le);
    SortSorts(some, le);
    ListLength(rows, best.Values);
  }

  method AddHosts(i: Inputs, nets: map<Prefix, Row>) returns (best: map<Prefix, Row>)
    requires Keyed(nets)
    ensures IsHosted(i.addrs, nets, best)
  {
    var rows := Listed(nets, MoreSpecific);
    best := nets;
    for n := 0 to |i.addrs|
      invariant IsHosted(i.addrs[..n], nets, best)
    {
      var a := i.addrs[n];
      assert forall x :: x in i.addrs[..n + 1] <==> x in i.addrs[..n] || x == a;
      HostedMore(i.addrs[..n], i.addrs[..n + 1], nets, best, a);
      if HostPrefix(a.host) !in best {
        match Scan(rows, a.host) {
          case Found(kind) => {
            var row := Row(HostPrefix(a.host), kind, a.device, a.iface);
            HostFound(i.addrs[..n + 1], rows, nets, a, row);
            best := Merge(i.external, best, row);
          }
          case Missing => {
            NoneHolds(rows, nets, a.host);
          }
        }
      }
    }
    assert i.addrs[..|i.addrs|] == i.addrs;
  }

  /** All but the last clause of IsHosted survive one more address. */
  lemma HostedMore(addrs: seq<PlanAddr>, more: seq<PlanAddr>, nets: map<Prefix, Row>, best: map<Prefix, Row>, a: PlanAddr)
    requires IsHosted(addrs, nets, best)
    requires forall x :: x in more <==> x in addrs || x == a
    ensures forall p :: p in best && p !in nets ==> best[p].prefix == p && IsHostRow(more, nets, best[p])
    ensures forall b, q :: b in more && b != a && q in nets && Contains(q, b.host) ==> HostPrefix(b.host) in best
  {
    forall p | p in best && p !in nets
      ensures IsHostRow(more, nets, best[p])
    {
      assert IsHostRow(addrs, nets, best[p]);
    }
  }

  lemma HostFound(addrs: seq<PlanAddr>, rows: seq<Row>, nets: map<Prefix, Row>, a: PlanAddr, row: Row)
    requires Keyed(nets) && RowsAre(rows, nets) && SortedBy(rows, MoreSpecific) && a in addrs
    requires Scan(rows, a.host) == Found(row.kind) && row.prefix == HostPrefix(a.host)
    requires row.device == a.device && row.iface == a.iface
    ensures IsHostRow(addrs, nets, row)
  {
    ScanLongest(rows, a.host);
    var r :| IsLongest(rows, a.host, r) && Scan(rows, a.host) == Found(r.kind);
    LongestThere(rows, nets, a.host, r);
  }

  lemma NoneHolds(rows: seq<Row>, nets: map<Prefix, Row>, a: Addr)
    requires Keyed(nets) && RowsAre(rows, nets) && Scan(rows, a).Missing?
    ensures forall q :: q in nets ==> !Contains(q, a)
  {
    forall q | q in nets
      ensures !Contains(q, a)
    {
      assert nets[q] in rows;
    }
  }

  lemma LongestInUnique(best: map<Prefix, Row>, a: Addr, p: Prefix, q: Prefix)
    requires Keyed(best) && LongestIn(best, a, p) && LongestIn(best, a, q)
    ensures p == q
  {
    SameLength(p, q, a);
  }

  lemma HostedKeyed(addrs: seq<PlanAddr>, nets: map<Prefix, Row>, best: map<Prefix, Row>)
    requires Keyed(nets) && IsHosted(addrs, nets, best)
    ensures Keyed(best)
    ensures forall p :: p in best && p !in nets ==> IsSingle(p)
  {
    forall p | p in best && p !in nets
      ensures IsMasked(p) && IsSingle(p)
    {
      var a, q :| a in addrs && p == HostPrefix(a.host) && LongestIn(nets, a.host, q) && best[p].kind == nets[q].kind;
      HostContains(p, a.host);
    }
  }

  /** The host rows change the class of no address. */
  lemma HostsNeutral(addrs: seq<PlanAddr>, nets: map<Prefix, Row>, best: map<Prefix, Row>, a: Addr, p: Prefix)
    requires Keyed(nets) && IsHosted(addrs, nets, best) && LongestIn(best, a, p)
    ensures exists q :: LongestIn(nets, a, q) && nets[q].kind == best[p].kind
  {
    HostedKeyed(addrs, nets, best);
    if p in nets {
      assert LongestIn(nets, a, p);
    } else {
      var b, q :| b in addrs && p == HostPrefix(b.host) && LongestIn(nets, b.host, q) && best[p].kind == nets[q].kind;
      HostContains(p, a);
    }
  }

  // ---------- the plan ----------

  function Value(a: Addr): nat { if a.NoAddr? then 0 else a.v }

  /** By address, then by length. */
  predicate InOrder(a: Row, b: Row) { PrefixLe(a.prefix, b.prefix) }

  predicate PrefixLe(p: Prefix, q: Prefix) {
    if Width(p.addr) != Width(q.addr) then Width(p.addr) < Width(q.addr)
    else if Value(p.addr) != Value(q.addr) then Value(p.addr) < Value(q.addr)
    else p.bits <= q.bits
  }

  /** IPv4 before IPv6, then the smaller address, then the shorter prefix. */
  predicate Earlier(p: Prefix, q: Prefix) {
    && (p.addr.V6? ==> !q.addr.V4?)
    && ((p.addr.V4? && q.addr.V4?) || (p.addr.V6? && q.addr.V6?) ==>
          p.addr.v < q.addr.v || (p.addr.v == q.addr.v && p.bits <= q.bits))
  }

  lemma OutInOrder(out: seq<Row>)
    requires SortedBy(out, InOrder)
    ensures forall j, k :: 0 <= j < k < |out| ==> Earlier(out[j].prefix, out[k].prefix)
  {
    forall j, k | 0 <= j < k < |out|
      ensures Earlier(out[j].prefix, out[k].prefix)
    {
      assert InOrder(out[j], out[k]);
    }
  }

  /** The merged networks, the host rows beside them, and the list that is stored. */
  ghost predicate IsBuilt(i: Inputs, nets: map<Prefix, Row>, best: map<Prefix, Row>, out: seq<Row>) {
    && IsNetworks(i, nets)
    && IsHosted(i.addrs, nets, best)
    && RowsAre(out, best) && SortedBy(out, InOrder) && Lists(out, best.Values)
  }

  ghost predicate Masks(i: Inputs) {
    forall a :: a in i.addrs ==> IsMasked(a.prefix)
  }

  method BuildPlan(i: Inputs) returns (out: seq<Row>, ghost nets: map<Prefix, Row>, ghost best: map<Prefix, Row>)
    requires Masks(i)
    ensures IsBuilt(i, nets, best, out)
    ensures forall j, k :: 0 <= j < k < |out| ==> Earlier(out[j].prefix, out[k].prefix)
  {
    hide IsMerged, IsHosted, KindOf, MergedKind, InOrder, PrefixLe, Earlier;
    var vpn, wan := UplinkKeys(i.uplinks);
    wan := DropLanRoutes(i, wan);
    var merged := MergeAll(i, vpn, wan);
    MergedIs(i, merged);
    var hosted := AddHosts(i, merged);
    HostedKeyed(i.addrs, merged, hosted);
    OrderTotal();
    out := Listed(hosted, InOrder);
    OutInOrder(out);
    nets, best := merged, hosted;
  }

  lemma OrderTotal()
    ensures TotalPreorder(InOrder)
  {
  }

  lemma {:induction false} CanonicalUsable(rows: seq<Row>)
    requires Canonical(rows)
    ensures forall r :: r in Usable(rows) <==> r in rows
  {
    forall q
      ensures q in Usable(rows) <==> q in rows
    {
      UsableIs(rows, q);
      if q in rows {
        MaskedSame(q.prefix);
      }
    }
  }

  /** Plans with the same most specific class everywhere and the same networks classify alike. */
  lemma SameClass(pl: Plan, pl0: Plan, rows: seq<Row>, rows0: seq<Row>, internal: seq<Prefix>, external: seq<Prefix>,
                  known: set<Addr>, self: set<Addr>, a: Addr)
    requires IsPlan(pl, rows, internal, external, known, self) && IsPlan(pl0, rows0, internal, external, known, self)
    requires IsDirectedBroadcast(rows, a) <==> IsDirectedBroadcast(rows0, a)
    requires (exists r :: r in Usable(rows) && Contains(r.prefix, a)) <==>
             (exists r :: r in Usable(rows0) && Contains(r.prefix, a))
    requires forall r, r0 :: IsLongest(Usable(rows), a, r) && IsLongest(Usable(rows0), a, r0) ==> r.kind == r0.kind
    ensures Class(pl, a) == Class(pl0, a)
  {
    hide IsMulticast, Lookup, Usable, Contains, IsDirectedBroadcast, IsLongest, ContainedIn, Nets, Hosts, SortBy,
         ValidOnes, Broadcasts;
    SettingsMean(pl, rows, internal, external, known, self, a);
    SettingsMean(pl0, rows0, internal, external, known, self, a);
    assert Lookup(pl, a) == Lookup(pl0, a) by {
      LongestMatch(pl, rows, internal, external, known, self, a);
      LongestMatch(pl0, rows0, internal, external, known, self, a);
    }
  }

  /** The host rows change what no view says of any address. */
  lemma HostsKeepClass(i: Inputs, nets: map<Prefix, Row>, best: map<Prefix, Row>, out: seq<Row>, rows0: seq<Row>,
                       pl: Plan, pl0: Plan, internal: seq<Prefix>, external: seq<Prefix>,
                       known: set<Addr>, self: set<Addr>, a: Addr)
    requires Masks(i) && IsBuilt(i, nets, best, out) && RowsAre(rows0, nets)
    requires IsPlan(pl, out, internal, external, known, self) && IsPlan(pl0, rows0, internal, external, known, self)
    ensures Class(pl, a) == Class(pl0, a)
  {
    hide IsPlan, Class, KindOf, MergedKind, Contains, IsMasked;
    NetworksKeyed(i, nets);
    HostedKeyed(i.addrs, nets, best);
    RowsCanonical(out, best);
    RowsCanonical(rows0, nets);
    SameBroadcasts(nets, best, out, rows0, a);
    SameHolding(i.addrs, nets, best, out, rows0, a);
    SameClass(pl, pl0, out, rows0, internal, external, known, self, a);
  }

  lemma NetworksKeyed(i: Inputs, nets: map<Prefix, Row>)
    requires Masks(i) && IsNetworks(i, nets)
    ensures Keyed(nets)
  {
  }

  lemma RowsCanonical(rows: seq<Row>, best: map<Prefix, Row>)
    requires Keyed(best) && RowsAre(rows, best)
    ensures Canonical(rows) && DistinctPrefixes(Usable(rows)) && forall r :: r in Usable(rows) <==> r in rows
  {
    CanonicalUsable(rows);
  }

  lemma SameBroadcasts(nets: map<Prefix, Row>, best: map<Prefix, Row>, out: seq<Row>, rows0: seq<Row>, a: Addr)
    requires Keyed(nets) && Keyed(best) && RowsAre(out, best) && RowsAre(rows0, nets)
    requires forall p :: p in nets ==> p in best && best[p] == nets[p]
    requires forall p :: p in best && p !in nets ==> IsSingle(p)
    ensures IsDirectedBroadcast(out, a) <==> IsDirectedBroadcast(rows0, a)
  {
    hide IsLast;
  }

  lemma SameHolding(addrs: seq<PlanAddr>, nets: map<Prefix, Row>, best: map<Prefix, Row>, out: seq<Row>, rows0: seq<Row>,
                    a: Addr)
    requires Keyed(nets) && Keyed(best) && IsHosted(addrs, nets, best)
    requires RowsAre(out, best) && RowsAre(rows0, nets)
    requires forall r :: r in Usable(out) <==> r in out
    requires forall r :: r in Usable(rows0) <==> r in rows0
    ensures (exists r :: r in Usable(out) && Contains(r.prefix, a)) <==>
            (exists r :: r in Usable(rows0) && Contains(r.prefix, a))
    ensures forall r, r0 :: IsLongest(Usable(out), a, r) && IsLongest(Usable(rows0), a, r0) ==> r.kind == r0.kind
  {
    hide Contains, IsMasked, IsHosted;
    forall r, r0 | IsLongest(Usable(out), a, r) && IsLongest(Usable(rows0), a, r0)
      ensures r.kind == r0.kind
    {
      SameKind(addrs, nets, best, out, rows0, a, r, r0);
    }
    if r :| r in Usable(out) && Contains(r.prefix, a) {
      HeldStill(addrs, nets, best, r.prefix, a);
      var q :| q in nets && Contains(q, a);
      assert nets[q] in Usable(rows0) && nets[q].prefix == q;
    }
    if r :| r in Usable(rows0) && Contains(r.prefix, a) {
      NetsStay(addrs, nets, best, r.prefix);
      assert r in Usable(out);
    }
  }

  lemma NetsStay(addrs: seq<PlanAddr>, nets: map<Prefix, Row>, best: map<Prefix, Row>, p: Prefix)
    requires IsHosted(addrs, nets, best) && p in nets
    ensures p in best && best[p] == nets[p]
  {
  }

  lemma HeldStill(addrs: seq<PlanAddr>, nets: map<Prefix, Row>, best: map<Prefix, Row>, p: Prefix, a: Addr)
    requires Keyed(nets) && IsHosted(addrs, nets, best) && p in best && Contains(p, a)
    ensures exists q :: q in nets && Contains(q, a)
  {
    if p !in nets {
      var b, q :| b in addrs && p == HostPrefix(b.host) && LongestIn(nets, b.host, q) && best[p].kind == nets[q].kind;
      HostContains(p, a);
    }
  }

  lemma SameKind(addrs: seq<PlanAddr>, nets: map<Prefix, Row>, best: map<Prefix, Row>, out: seq<Row>, rows0: seq<Row>,
                 a: Addr, r: Row, r0: Row)
    requires Keyed(nets) && Keyed(best) && IsHosted(addrs, nets, best)
    requires RowsAre(out, best) && RowsAre(rows0, nets)
    requires forall r :: r in Usable(out) <==> r in out
    requires forall r :: r in Usable(rows0) <==> r in rows0
    requires IsLongest(Usable(out), a, r) && IsLongest(Usable(rows0), a, r0)
    ensures r.kind == r0.kind
  {
    hide Contains, IsMasked, IsHosted, Usable;
    LongestThere(Usable(out), best, a, r);
    LongestThere(Usable(rows0), nets, a, r0);
    HostsNeutral(addrs, nets, best, a, r.prefix);
    var q :| LongestIn(nets, a, q) && nets[q].kind == best[r.prefix].kind;
    LongestInUnique(nets, a, q, r0.prefix);
  }

  // ---------- the order of what is reported does not matter ----------

  ghost predicate Reordered(i: Inputs, j: Inputs) {
    && (forall a :: a in i.addrs <==> a in j.addrs)
    && (forall u :: u in i.uplinks <==> u in j.uplinks)
    && i.devices == j.devices && i.external == j.external
  }

  lemma ReorderedKind(i: Inputs, j: Inputs, a: PlanAddr)
    requires Reordered(i, j)
    ensures KindOf(i, a) == KindOf(j, a)
  {
    assert forall b :: Shared(i, b) <==> Shared(j, b);
    assert forall u :: ViaLan(i, u) <==> ViaLan(j, u);
  }

  lemma ReorderedMerge(i: Inputs, j: Inputs, p: Prefix)
    requires Reordered(i, j)
    ensures MergedKind(i, p) == MergedKind(j, p)
  {
    hide KindOf;
    forall a
      ensures KindOf(i, a) == KindOf(j, a)
    {
      ReorderedKind(i, j, a);
    }
    assert forall k :: Reported(i, p, k) <==> Reported(j, p, k);
  }

  lemma ReorderedNets(i: Inputs, j: Inputs, nets: map<Prefix, Row>, nets': map<Prefix, Row>)
    requires Reordered(i, j) && IsNetworks(i, nets) && IsNetworks(j, nets')
    ensures SameKinds(nets, nets')
    ensures forall a, q :: LongestIn(nets, a, q) <==> LongestIn(nets', a, q)
  {
    hide MergedKind, Contains;
    forall p | p in nets
      ensures p in nets' && nets[p].kind == nets'[p].kind
    {
      ReorderedMerge(i, j, p);
    }
  }

  ghost predicate SameKinds(best: map<Prefix, Row>, best': map<Prefix, Row>) {
    best.Keys == best'.Keys && forall p :: p in best ==> best[p].kind == best'[p].kind
  }

  lemma ReorderedHost(i: Inputs, j: Inputs, nets: map<Prefix, Row>, nets': map<Prefix, Row>,
                      best: map<Prefix, Row>, best': map<Prefix, Row>, p: Prefix)
    requires Masks(i) && Masks(j) && Reordered(i, j) && IsNetworks(i, nets) && IsNetworks(j, nets')
    requires IsHosted(i.addrs, nets, best) && IsHosted(j.addrs, nets', best')
    requires p in best
    ensures p in best' && best'[p].kind == best[p].kind
  {
    hide MergedKind, Contains, KindOf, IsMasked;
    ReorderedNets(i, j, nets, nets');
    NetworksKeyed(j, nets');
    if p !in nets {
      var a, q :| a in i.addrs && p == HostPrefix(a.host) && LongestIn(nets, a.host, q) && best[p].kind == nets[q].kind;
      assert LongestIn(nets', a.host, q);
      assert p in best' && p !in nets';
      assert IsHostRow(j.addrs, nets', best'[p]);
      var b, r :| b in j.addrs && p == HostPrefix(b.host) && LongestIn(nets', b.host, r) && best'[p].kind == nets'[r].kind;
      LongestInUnique(nets', a.host, q, r);
    }
  }

  lemma ReorderedBest(i: Inputs, j: Inputs, nets: map<Prefix, Row>, nets': map<Prefix, Row>,
                      best: map<Prefix, Row>, best': map<Prefix, Row>)
    requires Masks(i) && Masks(j) && Reordered(i, j) && IsNetworks(i, nets) && IsNetworks(j, nets')
    requires IsHosted(i.addrs, nets, best) && IsHosted(j.addrs, nets', best')
    ensures SameKinds(best, best')
  {
    hide IsNetworks, IsHosted;
    forall p | p in best
      ensures p in best' && best[p].kind == best'[p].kind
    {
      ReorderedHost(i, j, nets, nets', best, best', p);
    }
    forall p | p in best'
      ensures p in best
    {
      ReorderedHost(j, i, nets', nets, best', best, p);
    }
  }

  /** The same reports in any order give the same prefixes, in the same order, with the same classes. */
  lemma PlanOrderFree(i: Inputs, nets: map<Prefix, Row>, best: map<Prefix, Row>, out: seq<Row>,
                      j: Inputs, nets': map<Prefix, Row>, best': map<Prefix, Row>, out': seq<Row>)
    requires Masks(i) && Masks(j) && Reordered(i, j)
    requires IsBuilt(i, nets, best, out) && IsBuilt(j, nets', best', out')
    ensures |out| == |out'|
    ensures forall k :: 0 <= k < |out| ==> out[k].prefix == out'[k].prefix && out[k].kind == out'[k].kind
  {
    hide IsNetworks, IsHosted, Reordered, Masks, RowsAre, SortedBy, Lists, SameKinds, Keyed;
    ReorderedBest(i, j, nets, nets', best, best');
    NetworksKeyed(i, nets);
    NetworksKeyed(j, nets');
    HostedKeyed(i.addrs, nets, best);
    HostedKeyed(j.addrs, nets', best');
    SameListing(best, best', out, out');
  }

  lemma SameListing(best: map<Prefix, Row>, best': map<Prefix, Row>, out: seq<Row>, out': seq<Row>)
    requires Keyed(best) && Keyed(best') && SameKinds(best, best')
    requires RowsAre(out, best) && SortedBy(out, InOrder) && Lists(out, best.Values)
    requires RowsAre(out', best') && SortedBy(out', InOrder) && Lists(out', best'.Values)
    ensures |out| == |out'|
    ensures forall k :: 0 <= k < |out| ==> out[k].prefix == out'[k].prefix && out[k].kind == out'[k].kind
  {
    hide PrefixLe, InOrder, SortedBy, Lists, IsMasked;
    PrefixesSorted(out);
    PrefixesSorted(out');
    PrefixesListed(best, out);
    PrefixesListed(best', out');
    PrefixNoTies(best.Keys, best);
    SortedUnique(PrefixesOf(out), PrefixesOf(out'), best.Keys, PrefixLe);
    forall k | 0 <= k < |out|
      ensures out[k].prefix == out'[k].prefix && out[k].kind == out'[k].kind
    {
      assert out[k].prefix == PrefixesOf(out)[k] == PrefixesOf(out')[k] == out'[k].prefix;
      assert out[k] in out && out'[k] in out';
    }
  }

  lemma PrefixNoTies(s: set<Prefix>, best: map<Prefix, Row>)
    requires Keyed(best) && s <= best.Keys
    ensures NoTies(s, PrefixLe)
  {
    forall p, q | p in s && q in s && PrefixLe(p, q) && PrefixLe(q, p)
      ensures p == q
    {
      assert IsMasked(p) && IsMasked(q);
    }
  }

  ghost function PrefixesOf(out: seq<Row>): (ps: seq<Prefix>)
    ensures |ps| == |out|
  {
    seq(|out|, k requires 0 <= k < |out| => out[k].prefix)
  }

  lemma PrefixesSorted(out: seq<Row>)
    requires SortedBy(out, InOrder)
    ensures SortedBy(PrefixesOf(out), PrefixLe)
  {
    hide PrefixLe;
    var ps := PrefixesOf(out);
    forall k, l | 0 <= k < l < |ps|
      ensures PrefixLe(ps[k], ps[l])
    {
      assert InOrder(out[k], out[l]);
    }
  }

  lemma PrefixesListed(best: map<Prefix, Row>, out: seq<Row>)
    requires Keyed(best) && RowsAre(out, best) && Lists(out, best.Values)
    ensures Lists(PrefixesOf(out), best.Keys)
  {
    hide Lists, IsMasked;
    var ps := PrefixesOf(out);
    ListDistinct(out, best.Values);
    forall k, l | 0 <= k < l < |ps|
      ensures ps[k] != ps[l]
    {
      assert out[k] in out && out[l] in out && out[k] != out[l];
    }
    DistinctLists(ps);
    forall p
      ensures p in (set x | x in ps) <==> p in best.Keys
    {
      if p in best {
        assert best[p] in out;
        var k :| 0 <= k < |out| && out[k] == best[p];
        assert ps[k] == p;
      }
      if p in ps {
        var k :| 0 <= k < |ps| && ps[k] == p;
        assert out[k] in out;
      }
    }
    assert (set x | x in ps) == best.Keys;
  }
}
