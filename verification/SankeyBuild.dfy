/** Building the Sankey graph from the selected rows of a point. */
module SankeyBuild {
  import opened Sankey
  import opened Sorting
  import opened Strings
  import opened Sums
  import opened TopN

  /** A selected row: the texts of its remote end, its application and its local end. */
  datatype FlowRow = FlowRow(remote: string, app: string, local: string, bytes: int, other: bool)

  datatype Options = Options(dir: Dir, byApp: bool, point: string, seconds: real,
                             maxRemote: int, maxLocal: int, maxPorts: int)

  /** Where a local endpoint attaches. */
  datatype Attach = Nowhere | Port(device: string, iface: string)

  // ---------- groups ----------

  ghost function Positive(rows: seq<FlowRow>): int {
    if rows == [] then 0
    else Positive(rows[..|rows| - 1]) + if rows[|rows| - 1].bytes > 0 then rows[|rows| - 1].bytes else 0
  }

  predicate Counts(r: FlowRow) { r.bytes > 0 && !r.other }

  ghost function Folded(rows: seq<FlowRow>): int {
    if rows == [] then 0
    else
      var r := rows[|rows| - 1];
      Folded(rows[..|rows| - 1]) + if r.bytes > 0 && r.other then r.bytes else 0
  }

  /** The bytes of the rows with endpoints under one key. */
  ghost function Amount(rows: seq<FlowRow>, key: FlowRow -> string, k: string): (n: int)
    ensures n >= 0
  {
    if rows == [] then 0
    else
      var r := rows[|rows| - 1];
      Amount(rows[..|rows| - 1], key, k) + if Counts(r) && key(r) == k then r.bytes else 0
  }

  function Same(): int -> int { (n: int) => n }

  /** The map holds the amount of every key that has one; with the folded rows that is everything. */
  ghost predicate IsGroups(rows: seq<FlowRow>, key: FlowRow -> string, m: map<string, int>) {
    && (forall k :: k in m ==> m[k] == Amount(rows, key, k) && m[k] > 0)
    && (forall k :: k !in m ==> Amount(rows, key, k) == 0)
    && MapSum(m, Same()) + Folded(rows) == Positive(rows)
  }

  function AddTo(m: map<string, int>, k: string, n: int): map<string, int> {
    m[k := (if k in m then m[k] else 0) + n]
  }

  lemma RowsAppend(rows: seq<FlowRow>, r: FlowRow)
    ensures Positive(rows + [r]) == Positive(rows) + if r.bytes > 0 then r.bytes else 0
    ensures Folded(rows + [r]) == Folded(rows) + if r.bytes > 0 && r.other then r.bytes else 0
    ensures forall key: FlowRow -> string, k ::
      Amount(rows + [r], key, k) == Amount(rows, key, k) + if Counts(r) && key(r) == k then r.bytes else 0
  {
    assert (rows + [r])[..|rows|] == rows;
  }

  lemma GroupStep(rows: seq<FlowRow>, key: FlowRow -> string, m: map<string, int>, r: FlowRow)
    requires IsGroups(rows, key, m)
    ensures IsGroups(rows + [r], key, if Counts(r) then AddTo(m, key(r), r.bytes) else m)
  {
    hide Positive, Folded, Amount;
    RowsAppend(rows, r);
    if Counts(r) {
      MapSumUpdate(m, Same(), key(r), (if key(r) in m then m[key(r)] else 0) + r.bytes);
    }
  }

  function RemoteKey(byApp: bool): FlowRow -> string { (r: FlowRow) => if byApp then r.app else r.remote }

  function LocalKey(): FlowRow -> string { (r: FlowRow) => r.local }

  method Gather(rows: seq<FlowRow>, byApp: bool)
    returns (remotes: map<string, int>, locals: map<string, int>, folded: int, total: int)
    ensures IsGroups(rows, RemoteKey(byApp), remotes) && IsGroups(rows, LocalKey(), locals)
    ensures folded == Folded(rows) && total == Positive(rows)
  {
    hide Amount, IsGroups;
    remotes, locals, folded, total := map[], map[], 0, 0;
    NoGroups(RemoteKey(byApp));
    NoGroups(LocalKey());
    for i := 0 to |rows|
      invariant IsGroups(rows[..i], RemoteKey(byApp), remotes) && IsGroups(rows[..i], LocalKey(), locals)
      invariant folded == Folded(rows[..i]) && total == Positive(rows[..i])
    {
      var r := rows[i];
      assert rows[..i + 1] == rows[..i] + [r];
      RowsAppend(rows[..i], r);
      GroupStep(rows[..i], RemoteKey(byApp), remotes, r);
      GroupStep(rows[..i], LocalKey(), locals, r);
      if r.bytes > 0 {
        total := total + r.bytes;
        if r.other {
          folded := folded + r.bytes;
        } else {
          remotes := AddTo(remotes, if byApp then r.app else r.remote, r.bytes);
          locals := AddTo(locals, r.local, r.bytes);
        }
      }
    }
    assert rows[..|rows|] == rows;
  }

  lemma NoGroups(key: FlowRow -> string)
    ensures IsGroups([], key, map[])
  {
  }

  // ---------- ranking ----------

  const ByBytesThenKey := (a: Group, b: Group) => Outranks(a.bytes, a.key, b.bytes, b.key)

  lemma RankOrders()
    ensures TotalPreorder(ByBytesThenKey)
  {
    forall x: Group, y: Group
      ensures ByBytesThenKey(x, y) || ByBytesThenKey(y, x)
    {
      OutranksTotal(x.bytes, x.key, y.bytes, y.key);
    }
    forall x: Group, y: Group, z: Group | ByBytesThenKey(x, y) && ByBytesThenKey(y, z)
      ensures ByBytesThenKey(x, z)
    {
      OutranksTransitive(x.bytes, x.key, y.bytes, y.key, z.bytes, z.key);
    }
  }

  ghost predicate IsListed(m: map<string, int>, all: seq<Group>) {
    DistinctKeys(all) && forall g :: g in all <==> g.key in m && m[g.key] == g.bytes && g.bytes > 0
  }

  /** The positive groups, largest first. */
  ghost predicate IsRanked(m: map<string, int>, all: seq<Group>) {
    IsListed(m, all) && SortedBy(all, ByBytesThenKey)
  }

  /** There is only one ranking: map order does not show. */
  lemma RankedUnique(m: map<string, int>, a: seq<Group>, b: seq<Group>)
    requires IsRanked(m, a) && IsRanked(m, b)
    ensures a == b
  {
    var s := set g | g in a;
    assert s == set g | g in b;
    DistinctLists(a);
    DistinctLists(b);
    forall x, y | x in s && y in s && ByBytesThenKey(x, y) && ByBytesThenKey(y, x)
      ensures x == y
    {
      OutranksAntisymmetric(x.bytes, x.key, y.bytes, y.key);
    }
    SortedUnique(a, b, s, ByBytesThenKey);
  }

  lemma IsInList(m: map<string, int>, all: seq<Group>, k: string)
    requires IsListed(m, all) && k in m && m[k] > 0
    ensures Group(k, m[k]) in all
  {
  }

  lemma {:induction false} ListedSum(m: map<string, int>, all: seq<Group>)
    requires IsListed(m, all) && forall k :: k in m ==> m[k] > 0
    ensures SeqSum(all, Weight()) == MapSum(m, Same())
    decreases |all|
  {
    if all == [] {
      forall k | k in m
        ensures false
      {
        IsInList(m, all, k);
      }
      assert m == map[];
    } else {
      var g, rest := all[|all| - 1], all[..|all| - 1];
      assert all == rest + [g] && g in all;
      MapSumRemove(m, Same(), g.key);
      forall x
        ensures x in rest <==> x.key in m - {g.key} && (m - {g.key})[x.key] == x.bytes && x.bytes > 0
      {
        if x in rest {
          var i :| 0 <= i < |rest| && rest[i] == x;
          assert all[i].key != g.key;
        }
        if x.key in m - {g.key} && m[x.key] == x.bytes && x.bytes > 0 {
          assert x in all && x != g;
        }
      }
      ListedSum(m - {g.key}, rest);
    }
  }

  method Rank(m: map<string, int>) returns (all: seq<Group>)
    ensures IsRanked(m, all)
  {
    var keys := Enumerate(m.Keys);
    ListDistinct(keys, m.Keys);
    ListLength(keys, m.Keys);
    var some: seq<Group> := [];
    for i := 0 to |keys|
      invariant DistinctKeys(some)
      invariant forall g :: g in some <==> g.key in keys[..i] && m[g.key] == g.bytes && g.bytes > 0
    {
      assert keys[..i + 1] == keys[..i] + [keys[i]] && keys[i] in keys;
      assert keys[i] !in keys[..i];
      if m[keys[i]] > 0 {
        assert forall j :: 0 <= j < |some| ==> some[j] in some;
        some := some + [Group(keys[i], m[keys[i]])];
      }
    }
    assert keys[..|keys|] == keys;
    RankOrders();
    SortPermutes(some, ByBytesThenKey);
    SortSorts(some, ByBytesThenKey);
    all := SortBy(some, ByBytesThenKey);
    SortedListed(m, some, all);
  }

  lemma SortedListed(m: map<string, int>, some: seq<Group>, all: seq<Group>)
    requires IsListed(m, some) && multiset(some) == multiset(all)
    ensures IsListed(m, all)
  {
    forall g
      ensures g in all <==> g in some
    {
      assert g in all <==> g in multiset(all);
      assert g in some <==> g in multiset(some);
    }
    var s := set g | g in some;
    DistinctLists(some);
    ListDistinct(all, s);
    assert forall i :: 0 <= i < |all| ==> all[i] in all;
  }

  /** The n largest groups and what the others come to. */
  method TopGroups(m: map<string, int>, n: nat) returns (top: seq<Group>, rest: int, count: nat, ghost all: seq<Group>)
    ensures IsRanked(m, all)
    ensures top == all[..Least(n, |all|)] && rest == SeqSum(all[Least(n, |all|)..], Weight()) && count == |all| - |top|
  {
    hide IsRanked, SeqSum;
    var ranked := Rank(m);
    all := ranked;
    top, rest, count := ranked, 0, 0;
    if |ranked| > n {
      rest := SumOf(ranked[n..]);
      count, top := |ranked| - n, ranked[..n];
    } else {
      assert ranked[..|ranked|] == ranked && ranked[|ranked|..] == [];
      NoSum();
    }
  }

  lemma NoSum()
    ensures SeqSum([], Weight()) == 0
  {
  }

  method SumOf(gs: seq<Group>) returns (n: int)
    ensures n == SeqSum(gs, Weight())
  {
    n := 0;
    for i := 0 to |gs|
      invariant n == SeqSum(gs[..i], Weight())
    {
      assert gs[..i + 1][..i] == gs[..i];
      n := n + gs[i].bytes;
    }
    assert gs[..|gs|] == gs;
  }

  // ---------- ports ----------

  /** The port a host is shown at, "" when it has none. */
  function PortOf(a: Attach): string {
    if a.Port? && a.device != "" && a.iface != "" then PortId(a.device, a.iface) else ""
  }

  lemma PortOfIs(a: Attach)
    ensures PortOf(a) == "" || IsPortId(PortOf(a))
  {
    if PortOf(a) != "" {
      assert PortOf(a)[..5] == "port:";
    }
  }

  ghost function HostPorts(hosts: seq<Group>, attach: string -> Attach): map<string, string> {
    if hosts == [] then map[]
    else
      var h, m := hosts[|hosts| - 1], HostPorts(hosts[..|hosts| - 1], attach);
      if PortOf(attach(h.key)) == "" then m else m[h.key := PortOf(attach(h.key))]
  }

  /** The bytes of the shown hosts at each port. */
  ghost function PortBytes(hosts: seq<Group>, attach: string -> Attach): map<string, int> {
    if hosts == [] then map[]
    else
      var h, m := hosts[|hosts| - 1], PortBytes(hosts[..|hosts| - 1], attach);
      if PortOf(attach(h.key)) == "" then m else AddTo(m, PortOf(attach(h.key)), h.bytes)
  }

  lemma {:induction false} PortBytesAre(hosts: seq<Group>, attach: string -> Attach)
    requires forall i :: 0 <= i < |hosts| ==> hosts[i].bytes > 0
    ensures forall id :: id in PortBytes(hosts, attach) ==> IsPortId(id) && PortBytes(hosts, attach)[id] > 0
  {
    if hosts != [] {
      PortBytesAre(hosts[..|hosts| - 1], attach);
      PortOfIs(attach(hosts[|hosts| - 1].key));
    }
  }

  method PortsOf(hosts: seq<Group>, attach: string -> Attach) returns (ports: map<string, int>, hostPort: map<string, string>)
    ensures ports == PortBytes(hosts, attach) && hostPort == HostPorts(hosts, attach)
  {
    hide PortOf;
    ports, hostPort := map[], map[];
    for i := 0 to |hosts|
      invariant ports == PortBytes(hosts[..i], attach) && hostPort == HostPorts(hosts[..i], attach)
    {
      assert hosts[..i + 1][..i] == hosts[..i];
      var id := PortOf(attach(hosts[i].key));
      if id != "" {
        ports := AddTo(ports, id, hosts[i].bytes);
        hostPort := hostPort[hosts[i].key := id];
      }
    }
    assert hosts[..|hosts|] == hosts;
  }

  function Keys(gs: seq<Group>): seq<string> {
    seq(|gs|, i requires 0 <= i < |gs| => gs[i].key)
  }

  // ---------- the parts ----------

  function Limit(n: int, standard: nat): nat { if n <= 0 then standard else n }

  /** One side of the point: its largest groups, and the rest with the folded rows. */
  ghost predicate IsSide(rows: seq<FlowRow>, key: FlowRow -> string, n: nat, top: seq<Group>, rest: int) {
    exists m, all :: IsGroups(rows, key, m) && IsRanked(m, all)
      && top == all[..Least(n, |all|)] && rest == SeqSum(all[Least(n, |all|)..], Weight()) + Folded(rows)
  }

  ghost predicate IsTopPorts(hosts: seq<Group>, attach: string -> Attach, n: nat, ports: seq<string>) {
    exists all :: IsRanked(PortBytes(hosts, attach), all) && ports == Keys(all[..Least(n, |all|)])
  }

  ghost predicate IsParts(rows: seq<FlowRow>, o: Options, attach: string -> Attach, p: Parts) {
    && p.byApp == o.byApp && p.point == o.point
    && IsSide(rows, RemoteKey(o.byApp), Limit(o.maxRemote, 12), p.remotes, p.restRemote)
    && IsSide(rows, LocalKey(), Limit(o.maxLocal, 15), p.locals, p.restLocal)
    && IsTopPorts(p.locals, attach, Limit(o.maxPorts, 15), p.ports)
    && p.hostPort == HostPorts(p.locals, attach)
  }

  lemma SideIs(rows: seq<FlowRow>, key: FlowRow -> string, n: nat, top: seq<Group>, rest: int)
    requires IsSide(rows, key, n, top, rest)
    ensures SeqSum(top, Weight()) + rest == Positive(rows)
    ensures DistinctKeys(top) && (forall g :: g in top ==> g.bytes > 0) && rest >= 0
  {
    hide Amount, MapSum, Positive, Folded, SeqSum, SortedBy;
    var m, all :| IsGroups(rows, key, m) && IsRanked(m, all)
      && top == all[..Least(n, |all|)] && rest == SeqSum(all[Least(n, |all|)..], Weight()) + Folded(rows);
    ListedSum(m, all);
    assert forall i :: 0 <= i < |all| ==> all[i] in all;
    CutSum(all, Least(n, |all|));
    FoldedNatural(rows);
  }

  lemma CutSum(all: seq<Group>, c: nat)
    requires c <= |all| && DistinctKeys(all) && forall i :: 0 <= i < |all| ==> all[i].bytes > 0
    ensures SeqSum(all[..c], Weight()) + SeqSum(all[c..], Weight()) == SeqSum(all, Weight())
    ensures DistinctKeys(all[..c]) && (forall g :: g in all[..c] ==> g.bytes > 0) && SeqSum(all[c..], Weight()) >= 0
  {
    hide SeqSum;
    assert all == all[..c] + all[c..];
    SeqSumConcat(all[..c], all[c..], Weight());
    SumNatural(all[c..]);
  }

  lemma {:induction false} SumNatural(gs: seq<Group>)
    requires forall i :: 0 <= i < |gs| ==> gs[i].bytes > 0
    ensures SeqSum(gs, Weight()) >= 0
  {
    if gs != [] {
      SumNatural(gs[..|gs| - 1]);
    }
  }

  lemma {:induction false} FoldedNatural(rows: seq<FlowRow>)
    ensures Folded(rows) >= 0
  {
    if rows != [] {
      FoldedNatural(rows[..|rows| - 1]);
    }
  }

  lemma SideUnique(rows: seq<FlowRow>, key: FlowRow -> string, n: nat, top: seq<Group>, rest: int,
                   top': seq<Group>, rest': int)
    requires IsSide(rows, key, n, top, rest) && IsSide(rows, key, n, top', rest')
    ensures top == top' && rest == rest'
  {
    hide Amount, MapSum, Positive, Folded, SeqSum, IsRanked;
    var m, all :| IsGroups(rows, key, m) && IsRanked(m, all)
      && top == all[..Least(n, |all|)] && rest == SeqSum(all[Least(n, |all|)..], Weight()) + Folded(rows);
    var m', all' :| IsGroups(rows, key, m') && IsRanked(m', all')
      && top' == all'[..Least(n, |all'|)] && rest' == SeqSum(all'[Least(n, |all'|)..], Weight()) + Folded(rows);
    assert forall k :: k in m <==> k in m';
    assert m == m';
    RankedUnique(m, all, all');
  }

  lemma TopPortsUnique(hosts: seq<Group>, attach: string -> Attach, n: nat, ports: seq<string>, ports': seq<string>)
    requires IsTopPorts(hosts, attach, n, ports) && IsTopPorts(hosts, attach, n, ports')
    ensures ports == ports'
  {
    var all :| IsRanked(PortBytes(hosts, attach), all) && ports == Keys(all[..Least(n, |all|)]);
    var all' :| IsRanked(PortBytes(hosts, attach), all') && ports' == Keys(all'[..Least(n, |all'|)]);
    RankedUnique(PortBytes(hosts, attach), all, all');
  }

  /** The rows and the options decide the parts, whatever the order of the maps. */
  lemma PartsUnique(rows: seq<FlowRow>, o: Options, attach: string -> Attach, p: Parts, q: Parts)
    requires IsParts(rows, o, attach, p) && IsParts(rows, o, attach, q)
    ensures p == q
  {
    hide IsSide, IsTopPorts;
    SideUnique(rows, RemoteKey(o.byApp), Limit(o.maxRemote, 12), p.remotes, p.restRemote, q.remotes, q.restRemote);
    SideUnique(rows, LocalKey(), Limit(o.maxLocal, 15), p.locals, p.restLocal, q.locals, q.restLocal);
    TopPortsUnique(p.locals, attach, Limit(o.maxPorts, 15), p.ports, q.ports);
  }

  lemma TopPortsAre(hosts: seq<Group>, attach: string -> Attach, n: nat, ports: seq<string>)
    requires IsTopPorts(hosts, attach, n, ports) && forall i :: 0 <= i < |hosts| ==> hosts[i].bytes > 0
    ensures forall i, j :: 0 <= i < j < |ports| ==> ports[i] != ports[j]
    ensures forall id :: id in ports ==> IsPortId(id)
  {
    hide PortBytes, IsPortId;
    PortBytesAre(hosts, attach);
    var all :| IsRanked(PortBytes(hosts, attach), all) && ports == Keys(all[..Least(n, |all|)]);
    forall i | 0 <= i < |ports|
      ensures IsPortId(ports[i])
    {
      assert all[i] in all;
    }
  }

  /** Parts are always well formed, and each side holds every byte. */
  lemma PartsAre(rows: seq<FlowRow>, o: Options, attach: string -> Attach, p: Parts)
    requires IsParts(rows, o, attach, p)
    ensures WellFormed(p)
    ensures SeqSum(p.remotes, Weight()) + p.restRemote == Positive(rows)
    ensures SeqSum(p.locals, Weight()) + p.restLocal == Positive(rows)
  {
    hide IsSide, IsTopPorts, IsPortId;
    SideIs(rows, RemoteKey(o.byApp), Limit(o.maxRemote, 12), p.remotes, p.restRemote);
    SideIs(rows, LocalKey(), Limit(o.maxLocal, 15), p.locals, p.restLocal);
    assert forall i :: 0 <= i < |p.locals| ==> p.locals[i] in p.locals;
    TopPortsAre(p.locals, attach, Limit(o.maxPorts, 15), p.ports);
  }

  // ---------- what the parts show ----------

  /** The bytes of a row with endpoints that has name k at its remote end, or as its
      application, or at its local end. */
  datatype End = Remote | App | Local

  function EndGauge(e: End, k: string): FlowRow -> int {
    (r: FlowRow) =>
      if r.bytes <= 0 || r.other then 0
      else if (match e case Remote => r.remote case App => r.app case Local => r.local) == k then r.bytes
      else 0
  }

  function KeyAt(e: End): FlowRow -> string {
    match e
    case Remote => RemoteKey(false)
    case App => RemoteKey(true)
    case Local => LocalKey()
  }

  lemma {:induction false} AmountIs(rows: seq<FlowRow>, e: End, k: string)
    ensures Amount(rows, KeyAt(e), k) == SeqSum(rows, EndGauge(e, k))
    decreases |rows|
  {
    if rows != [] {
      AmountIs(rows[..|rows| - 1], e, k);
    }
  }

  /** One side shows the names with the most bytes, largest first and equal ones by name, at
      most n of them, each with all its bytes. */
  ghost predicate Shows(rows: seq<FlowRow>, e: End, n: nat, top: seq<Group>) {
    && |top| <= n
    && (forall g :: g in top ==> 0 < g.bytes == SeqSum(rows, EndGauge(e, g.key)))
    && (forall i, j :: 0 <= i < j < |top| ==>
          && top[i].key != top[j].key && top[j].bytes <= top[i].bytes
          && (top[i].bytes == top[j].bytes ==> Le(top[i].key, top[j].key)))
    && (forall k :: (forall g :: g in top ==> g.key != k) && 0 < SeqSum(rows, EndGauge(e, k)) ==>
          |top| == n && forall g :: g in top ==>
            && SeqSum(rows, EndGauge(e, k)) <= g.bytes
            && (SeqSum(rows, EndGauge(e, k)) == g.bytes ==> Le(g.key, k)))
  }

  lemma RankedAre(m: map<string, int>, all: seq<Group>, i: nat, j: nat)
    requires IsRanked(m, all) && i < j < |all|
    ensures all[i].key != all[j].key && all[j].bytes <= all[i].bytes
    ensures all[i].bytes == all[j].bytes ==> Le(all[i].key, all[j].key)
  {
    assert ByBytesThenKey(all[i], all[j]);
  }

  lemma SideShows(rows: seq<FlowRow>, e: End, n: nat, top: seq<Group>, rest: int)
    requires IsSide(rows, KeyAt(e), n, top, rest)
    ensures Shows(rows, e, n, top)
  {
    hide Amount, MapSum, Positive, Folded, SeqSum, IsRanked, KeyAt, EndGauge, Least;
    var m, all :| IsGroups(rows, KeyAt(e), m) && IsRanked(m, all)
      && top == all[..Least(n, |all|)] && rest == SeqSum(all[Least(n, |all|)..], Weight()) + Folded(rows);
    forall k
      ensures SeqSum(rows, EndGauge(e, k)) == if k in m then m[k] else 0
      ensures k in m ==> 0 < m[k]
    {
      AmountIs(rows, e, k);
    }
    hide IsGroups;
    RankedShows(rows, e, n, m, all);
  }

  lemma RankedShows(rows: seq<FlowRow>, e: End, n: nat, m: map<string, int>, all: seq<Group>)
    requires IsRanked(m, all)
    requires forall k :: SeqSum(rows, EndGauge(e, k)) == if k in m then m[k] else 0
    requires forall k :: k in m ==> 0 < m[k]
    ensures Shows(rows, e, n, all[..Least(n, |all|)])
  {
    hide SeqSum, IsRanked, EndGauge;
    var top := all[..Least(n, |all|)];
    forall g | g in top
      ensures 0 < g.bytes == SeqSum(rows, EndGauge(e, g.key))
    {
      assert g in all;
      RankedHas(m, all, g);
    }
    forall i, j | 0 <= i < j < |top|
      ensures top[i].key != top[j].key && top[j].bytes <= top[i].bytes
      ensures top[i].bytes == top[j].bytes ==> Le(top[i].key, top[j].key)
    {
      RankedAre(m, all, i, j);
    }
    forall k | (forall g :: g in top ==> g.key != k) && 0 < SeqSum(rows, EndGauge(e, k))
      ensures |top| == n && forall g :: g in top ==>
        SeqSum(rows, EndGauge(e, k)) <= g.bytes && (SeqSum(rows, EndGauge(e, k)) == g.bytes ==> Le(g.key, k))
    {
      LeftOut(m, all, n, k);
    }
  }

  lemma RankedHas(m: map<string, int>, all: seq<Group>, g: Group)
    requires IsRanked(m, all) && g in all
    ensures g.key in m && m[g.key] == g.bytes && g.bytes > 0
  {
  }

  /** A group that is not among the first n comes after each of them. */
  lemma LeftOut(m: map<string, int>, all: seq<Group>, n: nat, k: string)
    requires IsRanked(m, all) && k in m && m[k] > 0 && forall g :: g in all[..Least(n, |all|)] ==> g.key != k
    ensures |all[..Least(n, |all|)]| == n
    ensures forall g :: g in all[..Least(n, |all|)] ==> m[k] <= g.bytes && (m[k] == g.bytes ==> Le(g.key, k))
  {
    var c := Least(n, |all|);
    IsInList(m, all, k);
    var j :| 0 <= j < |all| && all[j] == Group(k, m[k]);
    hide IsRanked;
    forall i | 0 <= i < c
      ensures all[i].key != k
    {
      assert all[..c][i] in all[..c];
    }
    forall g | g in all[..c]
      ensures m[k] <= g.bytes && (m[k] == g.bytes ==> Le(g.key, k))
    {
      var i :| 0 <= i < c && all[..c][i] == g;
      RankedAre(m, all, i, j);
    }
  }

  /** The parts of a graph, told from the rows: the remote ends or applications and the local
      ends that are shown, 12 and 15 of them unless the options say otherwise. */
  lemma PartsShow(rows: seq<FlowRow>, o: Options, attach: string -> Attach, p: Parts)
    requires IsParts(rows, o, attach, p)
    ensures Shows(rows, if o.byApp then App else Remote, if o.maxRemote <= 0 then 12 else o.maxRemote, p.remotes)
    ensures Shows(rows, Local, if o.maxLocal <= 0 then 15 else o.maxLocal, p.locals)
    ensures forall h :: h in p.hostPort <==>
      HasKey(p.locals, h) && attach(h).Port? && attach(h).device != "" && attach(h).iface != ""
    ensures forall h :: h in p.hostPort ==> p.hostPort[h] == "port:" + attach(h).device + ":" + attach(h).iface
  {
    hide IsSide, IsTopPorts, Shows;
    SideShows(rows, if o.byApp then App else Remote, Limit(o.maxRemote, 12), p.remotes, p.restRemote);
    SideShows(rows, Local, Limit(o.maxLocal, 15), p.locals, p.restLocal);
    HostPortsAre(p.locals, attach);
  }

  ghost predicate HasKey(gs: seq<Group>, k: string) { exists g :: g in gs && g.key == k }

  // ---------- the ports shown ----------

  /** The bytes of a host that attaches at a port. */
  function PortGauge(attach: string -> Attach, id: string): Group -> int {
    (g: Group) =>
      var a := attach(g.key);
      if a.Port? && a.device != "" && a.iface != "" && "port:" + a.device + ":" + a.iface == id then g.bytes else 0
  }

  lemma {:induction false} PortBytesIs(hosts: seq<Group>, attach: string -> Attach, id: string)
    requires forall g :: g in hosts ==> g.bytes > 0
    ensures SeqSum(hosts, PortGauge(attach, id)) == if id in PortBytes(hosts, attach) then PortBytes(hosts, attach)[id] else 0
    ensures id in PortBytes(hosts, attach) ==> PortBytes(hosts, attach)[id] > 0
    decreases |hosts|
  {
    if hosts != [] {
      var rest, last := hosts[..|hosts| - 1], hosts[|hosts| - 1];
      assert hosts == rest + [last] && last in hosts;
      PortBytesIs(rest, attach, id);
      PortOfGiven(attach(last.key));
      hide PortOf;
      SeqSumLast(rest, last, PortGauge(attach, id));
    }
  }

  /** The ports shown are those with the most bytes of the hosts shown, largest first and equal
      ones by name, at most n of them. */
  lemma PortsShow(hosts: seq<Group>, attach: string -> Attach, n: nat, ports: seq<string>)
    requires IsTopPorts(hosts, attach, n, ports) && forall g :: g in hosts ==> g.bytes > 0
    ensures |ports| <= n && forall id :: id in ports ==> SeqSum(hosts, PortGauge(attach, id)) > 0
    ensures forall i, j :: 0 <= i < j < |ports| ==>
      var a, b := SeqSum(hosts, PortGauge(attach, ports[i])), SeqSum(hosts, PortGauge(attach, ports[j]));
      b <= a && (a == b ==> Le(ports[i], ports[j]))
    ensures forall id :: id !in ports && SeqSum(hosts, PortGauge(attach, id)) > 0 ==>
      |ports| == n && forall x :: x in ports ==> SeqSum(hosts, PortGauge(attach, id)) <= SeqSum(hosts, PortGauge(attach, x))
  {
    hide PortBytes, SeqSum, PortGauge, IsRanked;
    var m := PortBytes(hosts, attach);
    var all: seq<Group> :| IsRanked(m, all) && ports == Keys(all[..Least(n, |all|)]);
    forall id
      ensures SeqSum(hosts, PortGauge(attach, id)) == if id in m then m[id] else 0
      ensures id in m ==> m[id] > 0
    {
      PortBytesIs(hosts, attach, id);
    }
    var c := Least(n, |all|);
    forall i | 0 <= i < c
      ensures ports[i] in m && m[ports[i]] == all[i].bytes
    {
      assert all[i] in all;
      RankedHas(m, all, all[i]);
    }
    forall i, j | 0 <= i < j < |ports|
      ensures m[ports[j]] <= m[ports[i]] && (m[ports[i]] == m[ports[j]] ==> Le(ports[i], ports[j]))
    {
      RankedAre(m, all, i, j);
    }
    forall id | id !in ports && id in m
      ensures |ports| == n && forall x :: x in ports ==> m[id] <= m[x]
    {
      forall g | g in all[..c]
        ensures g.key != id
      {
        var i :| 0 <= i < c && all[..c][i] == g;
        assert ports[i] == g.key;
      }
      LeftOut(m, all, n, id);
      forall x | x in ports
        ensures m[id] <= m[x]
      {
        var i :| 0 <= i < c && ports[i] == x;
        assert all[..c][i] in all[..c];
      }
    }
  }

  lemma {:induction false} HostPortsAre(hosts: seq<Group>, attach: string -> Attach)
    ensures forall h :: h in HostPorts(hosts, attach) <==>
      HasKey(hosts, h) && attach(h).Port? && attach(h).device != "" && attach(h).iface != ""
    ensures forall h :: h in HostPorts(hosts, attach) ==>
      HostPorts(hosts, attach)[h] == "port:" + attach(h).device + ":" + attach(h).iface
    decreases |hosts|
  {
    if hosts != [] {
      var rest, last := hosts[..|hosts| - 1], hosts[|hosts| - 1];
      HostPortsAre(rest, attach);
      PortOfGiven(attach(last.key));
      hide PortOf;
      assert hosts == rest + [last];
      forall h
        ensures HasKey(hosts, h) <==> HasKey(rest, h) || last.key == h
      {
        assert last in hosts;
      }
    }
  }

  lemma PortOfGiven(a: Attach)
    ensures PortOf(a) != "" <==> a.Port? && a.device != "" && a.iface != ""
    ensures PortOf(a) != "" ==> PortOf(a) == "port:" + a.device + ":" + a.iface
  {
  }

  /** Remote bytes in, local bytes out: both are all the positive bytes of the rows. */
  lemma SankeyBalances(rows: seq<FlowRow>, o: Options, attach: string -> Attach, p: Parts)
    requires IsParts(rows, o, attach, p)
    ensures SeqSum(Edges(p), Into(PointId(p.point))) == Positive(rows)
    ensures SeqSum(Edges(p), OutOf(PointId(p.point))) == Positive(rows)
  {
    PartsAre(rows, o, attach, p);
    PointBalance(p);
  }

  method Measure(rows: seq<FlowRow>, o: Options, attach: string -> Attach) returns (p: Parts, total: int)
    ensures total == Positive(rows) && IsParts(rows, o, attach, p)
  {
    hide IsGroups, IsRanked, Folded, PortBytes, HostPorts;
    var remotes, locals, folded, sum := Gather(rows, o.byApp);
    var topRemote, restRemote, nRemote, allRemote := TopGroups(remotes, Limit(o.maxRemote, 12));
    var topLocal, restLocal, nLocal, allLocal := TopGroups(locals, Limit(o.maxLocal, 15));
    var ports, hostPort := PortsOf(topLocal, attach);
    var ids, restPorts, nPorts, allPorts := TopGroups(ports, Limit(o.maxPorts, 15));
    p := Parts(o.byApp, o.point, topRemote, restRemote + folded, topLocal, restLocal + folded, Keys(ids), hostPort);
    total := sum;
    assert IsSide(rows, RemoteKey(o.byApp), Limit(o.maxRemote, 12), p.remotes, p.restRemote);
    assert IsSide(rows, LocalKey(), Limit(o.maxLocal, 15), p.locals, p.restLocal);
  }

  // ---------- the graph ----------

  method RemotePart(p: Parts) returns (nodes: seq<Node>, edges: seq<Edge>)
    ensures nodes == RemoteNodes(p) && edges == RemoteEdges(p)
  {
    nodes, edges := [], [];
    for i := 0 to |p.remotes|
      invariant |nodes| == |edges| == i
      invariant forall j :: 0 <= j < i ==>
        && nodes[j] == Node(RemoteId(p.byApp, p.remotes[j].key), if p.byApp then AppNode else RemoteNode)
        && edges[j] == Edge(RemoteId(p.byApp, p.remotes[j].key), PointId(p.point), p.remotes[j].bytes)
    {
      var id := RemoteId(p.byApp, p.remotes[i].key);
      nodes := nodes + [Node(id, if p.byApp then AppNode else RemoteNode)];
      edges := edges + [Edge(id, PointId(p.point), p.remotes[i].bytes)];
    }
    if p.restRemote > 0 {
      nodes, edges := nodes + [Node(OTHER_REMOTE, OtherNode)], edges + [Edge(OTHER_REMOTE, PointId(p.point), p.restRemote)];
    }
  }

  method LocalPart(p: Parts) returns (nodes: seq<Node>, edges: seq<Edge>)
    ensures nodes == LocalNodes(p) && edges == LocalEdges(p)
  {
    nodes, edges := [], [];
    for i := 0 to |p.locals|
      invariant |nodes| == |edges| == i
      invariant forall j :: 0 <= j < i ==>
        && nodes[j] == Node(HostId(p.locals[j].key), HostNode)
        && edges[j] == Edge(PointId(p.point), HostId(p.locals[j].key), p.locals[j].bytes)
    {
      nodes := nodes + [Node(HostId(p.locals[i].key), HostNode)];
      edges := edges + [Edge(PointId(p.point), HostId(p.locals[i].key), p.locals[i].bytes)];
    }
    if p.restLocal > 0 {
      nodes, edges := nodes + [Node(OTHER_LOCAL, OtherNode)], edges + [Edge(PointId(p.point), OTHER_LOCAL, p.restLocal)];
    }
  }

  method PortPart(p: Parts) returns (nodes: seq<Node>, edges: seq<Edge>)
    ensures nodes == PortNodes(p) && edges == PortEdges(p, |p.locals|)
  {
    nodes, edges := [], [];
    for i := 0 to |p.ports|
      invariant |nodes| == i && forall j :: 0 <= j < i ==> nodes[j] == Node(p.ports[j], PortNode)
    {
      nodes := nodes + [Node(p.ports[i], PortNode)];
    }
    for i := 0 to |p.locals|
      invariant edges == PortEdges(p, i)
    {
      var h := p.locals[i];
      if h.key in p.hostPort && p.hostPort[h.key] in p.ports {
        edges := edges + [Edge(HostId(h.key), p.hostPort[h.key], h.bytes)];
      }
    }
  }

  /** Where each node stands. */
  method IndexOf(nodes: seq<Node>) returns (index: map<string, nat>)
    requires DistinctIds(nodes)
    ensures forall i :: 0 <= i < |nodes| ==> nodes[i].id in index && index[nodes[i].id] == i
  {
    index := map[];
    for n := 0 to |nodes|
      invariant forall i :: 0 <= i < n ==> nodes[i].id in index && index[nodes[i].id] == i
    {
      index := index[nodes[n].id := n];
    }
  }

  lemma EdgeEnds(p: Parts, dir: Dir, e: Edge) returns (i: nat, j: nat)
    requires WellFormed(p) && IsEdge(p, e)
    ensures i < |Nodes(p, dir)| && j < |Nodes(p, dir)|
    ensures Nodes(p, dir)[i].id == e.from && Nodes(p, dir)[j].id == e.to
    ensures if dir == Download then i < j else j < i
  {
    hide Layer, RemoteNodes, LocalNodes, PortNodes;
    NodesInOrder(p);
    i := Find(p, dir, e.from);
    j := Find(p, dir, e.to);
    assert Layer(Nodes(p, dir)[i].id) < Layer(Nodes(p, dir)[j].id);
  }

  lemma Find(p: Parts, dir: Dir, id: string) returns (i: nat)
    requires HasNode(RemoteNodes(p) + LocalNodes(p) + PortNodes(p) + [Node(PointId(p.point), PointNode)], id)
    ensures i < |Nodes(p, dir)| && Nodes(p, dir)[i].id == id
  {
    hide RemoteNodes, LocalNodes, PortNodes;
    var r, l, t, m := RemoteNodes(p), LocalNodes(p), PortNodes(p), [Node(PointId(p.point), PointNode)];
    var all := r + l + t + m;
    var k :| 0 <= k < |all| && all[k].id == id;
    if k < |r| {
      i := if dir == Upload then |t| + |l| + 1 + k else k;
    } else if k < |r| + |l| {
      i := if dir == Upload then |t| + (k - |r|) else k + 1;
    } else if k < |r| + |l| + |t| {
      i := if dir == Upload then k - |r| - |l| else k + 1;
    } else {
      i := if dir == Upload then |t| + |l| else |r|;
    }
  }

  method LinksOf(p: Parts, dir: Dir, seconds: real, edges: seq<Edge>, index: map<string, nat>) returns (links: seq<Link>)
    requires WellFormed(p) && seconds > 0.0 && edges == Edges(p)
    requires forall i :: 0 <= i < |Nodes(p, dir)| ==> Nodes(p, dir)[i].id in index && index[Nodes(p, dir)[i].id] == i
    ensures IsLinks(p, dir, seconds, links)
  {
    hide Edges, Nodes, Rate, WellFormed;
    EdgesAre(p);
    links := [];
    for k := 0 to |edges|
      invariant |links| == k
      invariant forall i :: 0 <= i < k ==> IsLink(Nodes(p, dir), dir, edges[i], links[i], seconds)
    {
      var e := edges[k];
      assert IsEdge(p, Edges(p)[k]) && e.bytes > 0;
      hide IsEdge;
      ghost var i, j := EdgeEnds(p, dir, e);
      var from, to := index[e.from], index[e.to];
      if e.bytes > 0 {
        if dir == Upload {
          from, to := to, from;
        }
        links := links + [Link(from, to, Rate(e.bytes, seconds))];
      }
    }
  }

  /** The graph of a point: empty without time or bytes. */
  method BuildSankey(rows: seq<FlowRow>, o: Options, attach: string -> Attach)
    returns (nodes: seq<Node>, links: seq<Link>, ghost p: Parts)
    ensures IsParts(rows, o, attach, p)
    ensures o.seconds <= 0.0 || Positive(rows) <= 0 ==> nodes == [] && links == []
    ensures o.seconds > 0.0 && Positive(rows) > 0 ==>
      && WellFormed(p) && DistinctIds(nodes)
      && nodes == Nodes(p, o.dir) && IsLinks(p, o.dir, o.seconds, links)
      && SeqSum(Edges(p), Into(PointId(o.point))) == SeqSum(Edges(p), OutOf(PointId(o.point))) == Positive(rows)
  {
    hide IsSide, IsTopPorts, RemoteNodes, LocalNodes, PortNodes, RemoteEdges, LocalEdges, PortEdges, IsLinks, SeqSum;
    nodes, links := [], [];
    var parts, total := Measure(rows, o, attach);
    p := parts;
    if o.seconds <= 0.0 || total <= 0 {
      return;
    }
    PartsAre(rows, o, attach, parts);
    SankeyBalances(rows, o, attach, parts);
    NodesDistinct(parts, o.dir);
    var rn, re := RemotePart(parts);
    var ln, le := LocalPart(parts);
    var pn, pe := PortPart(parts);
    var point := [Node(PointId(o.point), PointNode)];
    nodes := if o.dir == Upload then pn + ln + point + rn else rn + point + ln + pn;
    var index := IndexOf(nodes);
    links := LinksOf(parts, o.dir, o.seconds, re + le + pe, index);
  }

  /** The same rows shown both ways: the same nodes, and every link reversed. */
  lemma BothWays(rows: seq<FlowRow>, down: Options, up: Options, attach: string -> Attach, p: Parts, q: Parts,
                 dl: seq<Link>, ul: seq<Link>)
    requires up == down.(dir := Upload) && down.dir == Download && down.seconds > 0.0
    requires IsParts(rows, down, attach, p) && IsParts(rows, up, attach, q)
    requires IsLinks(p, Download, down.seconds, dl) && IsLinks(q, Upload, down.seconds, ul)
    ensures multiset(Nodes(q, Upload)) == multiset(Nodes(p, Download))
    ensures |ul| == |dl|
    ensures forall k :: 0 <= k < |ul| ==>
      && ul[k].source < |Nodes(q, Upload)| && ul[k].target < |Nodes(q, Upload)|
      && dl[k].source < |Nodes(p, Download)| && dl[k].target < |Nodes(p, Download)|
      && Nodes(q, Upload)[ul[k].source] == Nodes(p, Download)[dl[k].target]
      && Nodes(q, Upload)[ul[k].target] == Nodes(p, Download)[dl[k].source]
      && ul[k].value == dl[k].value
  {
    hide Nodes, Edges, Rate;
    assert IsParts(rows, down, attach, q);
    PartsUnique(rows, down, attach, p, q);
    PartsAre(rows, down, attach, p);
    UploadReverses(p, down.seconds, dl, ul);
  }
}
