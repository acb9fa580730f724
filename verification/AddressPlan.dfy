/**
 * The classifier of endpoint addresses: a map of single addresses and a scan
 * of the other prefixes, most specific first, standing for longest-prefix
 * match over the address plan.
 */
module AddressPlan {
  import opened Addresses
  import opened Prefixes
  import opened Sorting

  datatype Kind = Transit | Vpn | Internal | Unrecognised(name: string)

  datatype Row = Row(prefix: Prefix, kind: Kind, device: string, iface: string)

  datatype Endpoint = InternalEnd | ExternalEnd | SelfEnd | MulticastEnd | VpnEnd

  datatype Found = Missing | Found(kind: Kind)

  datatype Plan =
    | NoPlan
    | Plan(rows: seq<Row>, hosts: map<Addr, Kind>, internal: seq<Prefix>, external: seq<Prefix>,
           known: set<Addr>, self: set<Addr>, bcast: set<Addr>)

  // ---------- longest-prefix match ----------

  /** r is a most specific of the rows holding a. */
  ghost predicate IsLongest(rows: seq<Row>, a: Addr, r: Row) {
    r in rows && Contains(r.prefix, a) && forall q :: q in rows && Contains(q.prefix, a) ==> q.prefix.bits <= r.prefix.bits
  }

  ghost predicate Canonical(rows: seq<Row>) {
    forall r :: r in rows ==> IsMasked(r.prefix)
  }

  ghost predicate DistinctPrefixes(rows: seq<Row>) {
    forall q, r :: q in rows && r in rows && q.prefix == r.prefix ==> q == r
  }

  lemma LongestUnique(rows: seq<Row>, a: Addr, q: Row, r: Row)
    requires Canonical(rows) && DistinctPrefixes(rows)
    requires IsLongest(rows, a, q) && IsLongest(rows, a, r)
    ensures q == r
  {
    SameLength(q.prefix, r.prefix, a);
  }

  // ---------- building the plan ----------

  /** The valid rows, masked. */
  function Usable(rows: seq<Row>): (u: seq<Row>)
    ensures Canonical(u)
  {
    if rows == [] then []
    else
      var u, r := Usable(rows[..|rows| - 1]), rows[|rows| - 1];
      if ValidPrefix(r.prefix) then
        MaskedSame(r.prefix);
        u + [r.(prefix := Masked(r.prefix))]
      else u
  }

  function Nets(u: seq<Row>): (n: seq<Row>)
    ensures forall r :: r in n <==> r in u && !IsSingle(r.prefix)
  {
    if u == [] then []
    else
      var n, r := Nets(u[..|u| - 1]), u[|u| - 1];
      assert forall q :: q in u <==> q in u[..|u| - 1] || q == r;
      if IsSingle(r.prefix) then n else n + [r]
  }

  /** The class of each single address; the last row of an address counts. */
  function Hosts(u: seq<Row>): (h: map<Addr, Kind>)
    requires Canonical(u)
    ensures forall a :: a in h ==> exists r :: r in u && IsSingle(r.prefix) && r.prefix.addr == a && r.kind == h[a]
    ensures forall r :: r in u && IsSingle(r.prefix) ==> r.prefix.addr in h
  {
    if u == [] then map[]
    else
      var h, r := Hosts(u[..|u| - 1]), u[|u| - 1];
      assert forall q :: q in u <==> q in u[..|u| - 1] || q == r;
      if IsSingle(r.prefix) then h[r.prefix.addr := r.kind] else h
  }

  predicate HasBroadcast(r: Row) {
    ValidPrefix(r.prefix) && !IsSingle(r.prefix) && r.kind == Internal && !BroadcastOf(r.prefix).NoAddr?
  }

  function Broadcasts(u: seq<Row>): set<Addr> {
    set r | r in u && HasBroadcast(r) :: BroadcastOf(r.prefix)
  }

  predicate MoreSpecific(a: Row, b: Row) { a.prefix.bits >= b.prefix.bits }

  function ValidOnes(ps: seq<Prefix>): seq<Prefix> {
    if ps == [] then []
    else
      var v, p := ValidOnes(ps[..|ps| - 1]), ps[|ps| - 1];
      if ValidPrefix(p) then v + [Masked(p)] else v
  }

  /** The plan that stands for these rows and settings. */
  ghost predicate IsPlan(pl: Plan, rows: seq<Row>, internal: seq<Prefix>, external: seq<Prefix>,
                         known: set<Addr>, self: set<Addr>)
  {
    var u := Usable(rows);
    && pl.Plan?
    && pl.rows == SortBy(Nets(u), MoreSpecific)
    && pl.hosts == Hosts(u)
    && pl.bcast == Broadcasts(u)
    && pl.internal == ValidOnes(internal) && pl.external == ValidOnes(external)
    && pl.known == known - {NoAddr} && pl.self == self - {NoAddr}
  }

  method MaskAll(ps: seq<Prefix>) returns (out: seq<Prefix>)
    ensures out == ValidOnes(ps)
  {
    out := [];
    for i := 0 to |ps|
      invariant out == ValidOnes(ps[..i])
    {
      assert ps[..i + 1][..i] == ps[..i];
      if ValidPrefix(ps[i]) {
        out := out + [Masked(ps[i])];
      }
    }
    assert ps[..|ps|] == ps;
  }

  lemma UsableStep(rows: seq<Row>, i: nat)
    requires i < |rows|
    ensures Usable(rows[..i + 1]) ==
            Usable(rows[..i]) + if ValidPrefix(rows[i].prefix)
                                then [rows[i].(prefix := Masked(rows[i].prefix))] else []
  {
    assert rows[..i + 1][..i] == rows[..i];
  }

  lemma RowAppend(u: seq<Row>, r: Row)
    requires Canonical(u) && IsMasked(r.prefix)
    ensures Canonical(u + [r])
    ensures Nets(u + [r]) == if IsSingle(r.prefix) then Nets(u) else Nets(u) + [r]
    ensures Hosts(u + [r]) == if IsSingle(r.prefix) then Hosts(u)[r.prefix.addr := r.kind] else Hosts(u)
    ensures Broadcasts(u + [r]) == if HasBroadcast(r) then Broadcasts(u) + {BroadcastOf(r.prefix)} else Broadcasts(u)
  {
    assert (u + [r])[..|u|] == u;
  }

  method NewPlan(rows: seq<Row>, internal: seq<Prefix>, external: seq<Prefix>, known: set<Addr>, self: set<Addr>)
    returns (pl: Plan)
    ensures IsPlan(pl, rows, internal, external, known, self)
  {
    var nets: seq<Row>, hosts: map<Addr, Kind>, bcast: set<Addr> := [], map[], {};
    for i := 0 to |rows|
      invariant nets == Nets(Usable(rows[..i]))
      invariant hosts == Hosts(Usable(rows[..i]))
      invariant bcast == Broadcasts(Usable(rows[..i]))
    {
      UsableStep(rows, i);
      if ValidPrefix(rows[i].prefix) {
        var r := rows[i].(prefix := Masked(rows[i].prefix));
        MaskedSame(rows[i].prefix);
        RowAppend(Usable(rows[..i]), r);
        if IsSingle(r.prefix) {
          hosts := hosts[r.prefix.addr := r.kind];
        } else {
          nets := nets + [r];
          if r.kind == Internal {
            var b := BroadcastOf(r.prefix);
            if !b.NoAddr? {
              bcast := bcast + {b};
            }
          }
        }
      } else {
        assert Usable(rows[..i]) + [] == Usable(rows[..i]);
      }
    }
    assert rows[..|rows|] == rows;
    var ins := MaskAll(internal);
    var exs := MaskAll(external);
    pl := Plan(SortBy(nets, MoreSpecific), hosts, ins, exs, known - {NoAddr}, self - {NoAddr}, bcast);
  }

  // ---------- classifying ----------

  function Scan(rows: seq<Row>, a: Addr): (f: Found)
    ensures f.Missing? <==> forall r :: r in rows ==> !Contains(r.prefix, a)
  {
    if rows == [] then Missing
    else if Contains(rows[0].prefix, a) then Found(rows[0].kind)
    else Scan(rows[1..], a)
  }

  /** The class the plan rows give an address. */
  function Lookup(pl: Plan, a: Addr): Found
    requires pl.Plan?
  {
    if a in pl.hosts then Found(pl.hosts[a]) else Scan(pl.rows, a)
  }

  predicate ContainedIn(ps: seq<Prefix>, a: Addr) {
    exists p :: p in ps && Contains(p, a)
  }

  function EndpointOf(k: Kind): Endpoint {
    match k
    case Transit => ExternalEnd
    case Vpn => VpnEnd
    case Internal => InternalEnd
    case Unrecognised(_) => InternalEnd
  }

  predicate IsMulticast(a: Addr) {
    Contains(Prefix(V4(0xE000_0000), 4), a) || Contains(Prefix(V6(0xFF * Pow2(120)), 8), a)
  }

  const BROADCAST: Addr := V4(0xFFFF_FFFF)

  /** The endpoint class of an address; the first rule that applies decides. */
  function Class(pl: Plan, a: Addr): Endpoint {
    if IsMulticast(a) || a == BROADCAST then MulticastEnd
    else if pl.NoPlan? || a.NoAddr? then ExternalEnd
    else if a in pl.bcast then MulticastEnd
    else if a in pl.self then SelfEnd
    else if ContainedIn(pl.external, a) then ExternalEnd
    else if ContainedIn(pl.internal, a) then InternalEnd
    else
      match Lookup(pl, a)
      case Found(k) => EndpointOf(k)
      case Missing => if a in pl.known then InternalEnd else ExternalEnd
  }

  /** The first row found by the scan is a most specific one. */
  lemma {:induction false} ScanLongest(rows: seq<Row>, a: Addr)
    requires SortedBy(rows, MoreSpecific) && Scan(rows, a).Found?
    ensures exists r :: IsLongest(rows, a, r) && Scan(rows, a) == Found(r.kind)
  {
    if Contains(rows[0].prefix, a) {
      assert IsLongest(rows, a, rows[0]);
    } else {
      ScanLongest(rows[1..], a);
      var r :| IsLongest(rows[1..], a, r) && Scan(rows[1..], a) == Found(r.kind);
      assert forall q :: q in rows ==> q == rows[0] || q in rows[1..];
      assert IsLongest(rows, a, r);
    }
  }

  /** The map and the scan together are longest-prefix match over the rows. */
  lemma LongestMatch(pl: Plan, rows: seq<Row>, internal: seq<Prefix>, external: seq<Prefix>,
                     known: set<Addr>, self: set<Addr>, a: Addr)
    requires IsPlan(pl, rows, internal, external, known, self)
    ensures Lookup(pl, a).Missing? <==> forall r :: r in Usable(rows) ==> !Contains(r.prefix, a)
    ensures Lookup(pl, a).Found? ==> exists r :: IsLongest(Usable(rows), a, r) && r.kind == Lookup(pl, a).kind
  {
    var u := Usable(rows);
    SortPermutes(Nets(u), MoreSpecific);
    SortSorts(Nets(u), MoreSpecific);
    forall r
      ensures r in pl.rows <==> r in u && !IsSingle(r.prefix)
    {
      assert r in pl.rows <==> r in multiset(pl.rows);
      assert r in Nets(u) <==> r in multiset(Nets(u));
    }
    forall r | r in u && IsSingle(r.prefix)
      ensures Contains(r.prefix, a) <==> a == r.prefix.addr
    {
      HostContains(r.prefix, a);
    }
    if a in pl.hosts {
      var r :| r in u && IsSingle(r.prefix) && r.prefix.addr == a && r.kind == pl.hosts[a];
      assert IsLongest(u, a, r);
    } else if Scan(pl.rows, a).Found? {
      ScanLongest(pl.rows, a);
      var r :| IsLongest(pl.rows, a, r) && Scan(pl.rows, a) == Found(r.kind);
      assert IsLongest(u, a, r);
    }
  }

  /** On distinct prefixes the class is that of the one most specific row. */
  lemma DistinctMatch(pl: Plan, rows: seq<Row>, internal: seq<Prefix>, external: seq<Prefix>,
                      known: set<Addr>, self: set<Addr>, a: Addr, r: Row)
    requires IsPlan(pl, rows, internal, external, known, self)
    requires DistinctPrefixes(Usable(rows)) && IsLongest(Usable(rows), a, r)
    ensures Lookup(pl, a) == Found(r.kind)
  {
    LongestMatch(pl, rows, internal, external, known, self, a);
    var q :| IsLongest(Usable(rows), a, q) && q.kind == Lookup(pl, a).kind;
    LongestUnique(Usable(rows), a, q, r);
  }

  // ---------- plans with repeated prefixes ----------

  datatype Hit = NoRow | ARow(row: Row)

  function ScanRow(rows: seq<Row>, a: Addr): (h: Hit)
    ensures h.ARow? ==> h.row in rows
  {
    if rows == [] then NoRow
    else if Contains(rows[0].prefix, a) then ARow(rows[0])
    else ScanRow(rows[1..], a)
  }

  function KindIn(h: Hit): Found { if h.NoRow? then Missing else Found(h.row.kind) }

  /** The earliest of the most specific rows holding a, compared one by one. */
  function NaiveRow(rows: seq<Row>, a: Addr): Hit {
    if rows == [] then NoRow
    else
      var rest := NaiveRow(rows[1..], a);
      if Contains(rows[0].prefix, a) && (rest.NoRow? || rows[0].prefix.bits >= rest.row.prefix.bits) then ARow(rows[0])
      else rest
  }

  /** The latest row for the single address a. */
  function LastHost(u: seq<Row>, a: Addr): Found {
    if u == [] then Missing
    else
      var r := u[|u| - 1];
      if IsSingle(r.prefix) && r.prefix.addr == a then Found(r.kind) else LastHost(u[..|u| - 1], a)
  }

  /** Longest-prefix match without sorting or maps: a host row if there is one, else the best network. */
  function NaiveLookup(u: seq<Row>, a: Addr): Found {
    if LastHost(u, a).Found? then LastHost(u, a) else KindIn(NaiveRow(Nets(u), a))
  }

  lemma {:induction false} InsertScan(x: Row, s: seq<Row>, a: Addr)
    requires SortedBy(s, MoreSpecific)
    ensures ScanRow(Insert(x, s, MoreSpecific), a) ==
            if Contains(x.prefix, a) && (ScanRow(s, a).NoRow? || x.prefix.bits >= ScanRow(s, a).row.prefix.bits)
            then ARow(x) else ScanRow(s, a)
  {
    hide Contains;
    if s == [] || MoreSpecific(x, s[0]) {
      assert ([x] + s)[1..] == s;
    } else {
      InsertScan(x, s[1..], a);
      var t := [s[0]] + Insert(x, s[1..], MoreSpecific);
      assert t[1..] == Insert(x, s[1..], MoreSpecific);
    }
  }

  lemma {:induction false} SortScan(rows: seq<Row>, a: Addr)
    ensures ScanRow(SortBy(rows, MoreSpecific), a) == NaiveRow(rows, a)
  {
    if rows != [] {
      SortScan(rows[1..], a);
      SortSorts(rows[1..], MoreSpecific);
      InsertScan(rows[0], SortBy(rows[1..], MoreSpecific), a);
    }
  }

  lemma {:induction false} ScanIsRow(rows: seq<Row>, a: Addr)
    ensures Scan(rows, a) == KindIn(ScanRow(rows, a))
  {
    if rows != [] && !Contains(rows[0].prefix, a) {
      ScanIsRow(rows[1..], a);
    }
  }

  lemma {:induction false} HostsAreLast(u: seq<Row>, a: Addr)
    requires Canonical(u)
    ensures LastHost(u, a) == if a in Hosts(u) then Found(Hosts(u)[a]) else Missing
  {
    if u != [] {
      HostsAreLast(u[..|u| - 1], a);
    }
  }

  /** On every plan, repeated prefixes included, the map and the scan find what the naive search finds. */
  lemma LookupIsNaive(pl: Plan, rows: seq<Row>, internal: seq<Prefix>, external: seq<Prefix>,
                      known: set<Addr>, self: set<Addr>, a: Addr)
    requires IsPlan(pl, rows, internal, external, known, self)
    ensures Lookup(pl, a) == NaiveLookup(Usable(rows), a)
  {
    var u := Usable(rows);
    HostsAreLast(u, a);
    ScanIsRow(pl.rows, a);
    SortScan(Nets(u), a);
  }

  // ---------- the rules, in terms of what the plan was built from ----------

  lemma {:induction false} UsableIs(rows: seq<Row>, q: Row)
    ensures q in Usable(rows) <==>
            exists r :: r in rows && ValidPrefix(r.prefix) && q == r.(prefix := Masked(r.prefix))
  {
    if rows != [] {
      var r := rows[|rows| - 1];
      UsableIs(rows[..|rows| - 1], q);
      assert forall x :: x in rows <==> x in rows[..|rows| - 1] || x == r;
    }
  }

  lemma {:induction false} ContainedInValid(ps: seq<Prefix>, a: Addr)
    ensures ContainedIn(ValidOnes(ps), a) <==> ContainedIn(ps, a)
  {
    if ps != [] {
      var p := ps[|ps| - 1];
      ContainedInValid(ps[..|ps| - 1], a);
      assert forall x :: x in ps <==> x in ps[..|ps| - 1] || x == p;
      if ValidPrefix(p) {
        MaskedSame(p);
        var v := ValidOnes(ps[..|ps| - 1]);
        assert forall x :: x in v + [Masked(p)] <==> x in v || x == Masked(p);
      }
    }
  }

  /** a is the last address of the prefix. */
  ghost predicate IsLast(p: Prefix, a: Addr) {
    Contains(p, a) && forall b :: Contains(p, b) ==> b.v <= a.v
  }

  /** a is the directed broadcast address of an internal IPv4 network of the plan. */
  ghost predicate IsDirectedBroadcast(rows: seq<Row>, a: Addr) {
    exists r :: r in rows && r.kind == Internal && r.prefix.addr.V4? && r.prefix.bits <= 30 && IsLast(r.prefix, a)
  }

  lemma LastIs(p: Prefix, a: Addr)
    requires ValidPrefix(p) && p.addr.V4? && p.bits <= 30
    ensures IsLast(p, a) <==> a == BroadcastOf(p)
  {
    BroadcastLast(p);
    if IsLast(p, a) {
      assert BroadcastOf(p).v <= a.v;
    }
  }

  lemma MaskedBroadcast(p: Prefix)
    requires ValidPrefix(p)
    ensures BroadcastOf(Masked(p)) == BroadcastOf(p)
  {
    MaskedSame(p);
    assert Masked(Masked(p)) == Masked(p);
  }

  lemma BroadcastsAre(rows: seq<Row>, a: Addr)
    ensures a in Broadcasts(Usable(rows)) <==> IsDirectedBroadcast(rows, a)
  {
    if a in Broadcasts(Usable(rows)) {
      var q :| q in Usable(rows) && HasBroadcast(q) && a == BroadcastOf(q.prefix);
      UsableIs(rows, q);
      var r :| r in rows && ValidPrefix(r.prefix) && q == r.(prefix := Masked(r.prefix));
      MaskedBroadcast(r.prefix);
      LastIs(r.prefix, a);
    }
    if IsDirectedBroadcast(rows, a) {
      var r :| r in rows && r.kind == Internal && r.prefix.addr.V4? && r.prefix.bits <= 30 && IsLast(r.prefix, a);
      var q := r.(prefix := Masked(r.prefix));
      UsableIs(rows, q);
      MaskedBroadcast(r.prefix);
      LastIs(r.prefix, a);
      assert HasBroadcast(q);
    }
  }

  ghost predicate IsGroupAddress(rows: seq<Row>, a: Addr) {
    IsMulticast(a) || a == BROADCAST || (!a.NoAddr? && IsDirectedBroadcast(rows, a))
  }

  lemma SettingsMean(pl: Plan, rows: seq<Row>, internal: seq<Prefix>, external: seq<Prefix>,
                     known: set<Addr>, self: set<Addr>, a: Addr)
    requires IsPlan(pl, rows, internal, external, known, self)
    ensures a in pl.bcast <==> IsDirectedBroadcast(rows, a)
    ensures ContainedIn(pl.internal, a) <==> ContainedIn(internal, a)
    ensures ContainedIn(pl.external, a) <==> ContainedIn(external, a)
    ensures a.NoAddr? ==> !ContainedIn(internal, a) && !ContainedIn(external, a)
  {
    BroadcastsAre(rows, a);
    ContainedInValid(internal, a);
    ContainedInValid(external, a);
  }

  /** The multicast ranges: 224.0.0.0 to 239.255.255.255, and ff00::/8. */
  lemma MulticastIs(a: Addr)
    ensures IsMulticast(a) <==>
      || (a.V4? && 0xE000_0000 <= a.v <= 0xEFFF_FFFF)
      || (a.V6? && 0xFF * Pow2(120) <= a.v < 0x100 * Pow2(120))
  {
    hide Contains, Pow2;
    MulticastFour(a);
    MulticastSix(a, Pow2(120));
  }

  lemma MulticastFour(a: Addr)
    ensures Contains(Prefix(V4(0xE000_0000), 4), a) <==> a.V4? && 0xE000_0000 <= a.v <= 0xEFFF_FFFF
  {
    hide Contains;
    ContainsRange(Prefix(V4(0xE000_0000), 4), a);
    PowSum(14, 14);
    PowSum(7, 7);
    assert Pow2(7) == 128;
    hide Pow2;
    assert Pow2(28) == 0x1000_0000;
  }

  lemma MulticastSix(a: Addr, n: nat)
    requires n == Pow2(120)
    ensures Contains(Prefix(V6(0xFF * n), 8), a) <==> a.V6? && 0xFF * n <= a.v < 0x100 * n
  {
    hide Contains, Pow2;
    ContainsRange(Prefix(V6(0xFF * n), 8), a);
    Quotient(n, 0xFF, 0);
  }

  lemma LongestIsAddress(rows: seq<Row>, a: Addr, r: Row)
    requires IsLongest(rows, a, r)
    ensures !a.NoAddr?
  {
  }

  /**
   * What each class means, from the rows and settings: multicast beats the
   * exporter's own addresses, which beat the external list, which beats the
   * internal list, which beats the most specific plan row, which beats being a
   * known host.
   */
  lemma ClassMeans(pl: Plan, rows: seq<Row>, internal: seq<Prefix>, external: seq<Prefix>,
                   known: set<Addr>, self: set<Addr>, a: Addr)
    requires IsPlan(pl, rows, internal, external, known, self) && DistinctPrefixes(Usable(rows))
    ensures Class(pl, a) == MulticastEnd <==> IsGroupAddress(rows, a)
    ensures Class(pl, a) == SelfEnd <==> !a.NoAddr? && a in self && !IsGroupAddress(rows, a)
    ensures !IsGroupAddress(rows, a) && a !in self && ContainedIn(external, a) ==> Class(pl, a) == ExternalEnd
    ensures !IsGroupAddress(rows, a) && a !in self && !ContainedIn(external, a) && ContainedIn(internal, a)
            ==> Class(pl, a) == InternalEnd
    ensures !IsGroupAddress(rows, a) && a !in self && !ContainedIn(external, a) && !ContainedIn(internal, a) ==>
              && (forall r :: IsLongest(Usable(rows), a, r) ==>
                   Class(pl, a) == match r.kind
                                   case Transit => ExternalEnd
                                   case Vpn => VpnEnd
                                   case _ => InternalEnd)
              && ((forall r :: r in Usable(rows) ==> !Contains(r.prefix, a)) ==>
                   Class(pl, a) == if !a.NoAddr? && a in known then InternalEnd else ExternalEnd)
  {
    hide IsMulticast, Contains, Usable, Lookup, ContainedIn, IsDirectedBroadcast, IsLongest;
    SettingsMean(pl, rows, internal, external, known, self, a);
    LongestMatch(pl, rows, internal, external, known, self, a);
    forall r | IsLongest(Usable(rows), a, r)
      ensures !a.NoAddr? && Lookup(pl, a) == Found(r.kind)
    {
      DistinctMatch(pl, rows, internal, external, known, self, a, r);
      LongestIsAddress(Usable(rows), a, r);
    }
  }
}
