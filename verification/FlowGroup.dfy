/** Top-N grouping of selected rows (backend/internal/flowview/flowview.go:204-258). */
module FlowGroup {
  import opened FlowView
  import opened GroupBy
  import opened Sorting
  import opened Strings
  import opened Sums
  import opened TopN

  datatype Measure = Bytes | Packets | Flows

  datatype GroupRow = GroupRow(key: string, bytes: int, packets: int, flows: int)

  function Of(r: DirRow, m: Measure): int {
    match m
    case Bytes => r.bytes
    case Packets => r.packets
    case Flows => r.flows
  }

  function OfGroup(g: GroupRow, m: Measure): int {
    match m
    case Bytes => g.bytes
    case Packets => g.packets
    case Flows => g.flows
  }

  function RowGauge(m: Measure): DirRow -> int { (r: DirRow) => Of(r, m) }

  function GroupGauge(m: Measure): GroupRow -> int { (g: GroupRow) => OfGroup(g, m) }

  // ---------- specification ----------

  /** The rows with endpoints, by key. */
  function Keyed(rows: seq<DirRow>, key: DirRow -> string, m: Measure): seq<(string, int)> {
    if rows == [] then []
    else
      var r := rows[|rows| - 1];
      Keyed(rows[..|rows| - 1], key, m) + if r.other then [] else [(key(r), Of(r, m))]
  }

  /** The folded other rows. */
  function Folded(rows: seq<DirRow>, m: Measure): int {
    if rows == [] then 0
    else Folded(rows[..|rows| - 1], m) + if rows[|rows| - 1].other then Of(rows[|rows| - 1], m) else 0
  }

  function Pairs(groups: seq<GroupRow>, m: Measure): seq<(string, int)> {
    seq(|groups|, i requires 0 <= i < |groups| => (groups[i].key, OfGroup(groups[i], m)))
  }

  ghost predicate HasRow(rows: seq<DirRow>, key: DirRow -> string, k: string) {
    exists i :: 0 <= i < |rows| && !rows[i].other && key(rows[i]) == k
  }

  /** One group per key that a row has, with the exact sums of its rows. */
  ghost predicate Grouped(rows: seq<DirRow>, key: DirRow -> string, groups: seq<GroupRow>) {
    && (forall m :: IsGroupBy(Keyed(rows, key, m), Pairs(groups, m)))
    && (forall i :: 0 <= i < |groups| ==> HasRow(rows, key, groups[i].key))
  }

  lemma RowsMore(rows: seq<DirRow>, r: DirRow, key: DirRow -> string, k: string)
    ensures HasRow(rows, key, k) || (!r.other && key(r) == k) ==> HasRow(rows + [r], key, k)
  {
    if i :| 0 <= i < |rows| && !rows[i].other && key(rows[i]) == k {
      assert (rows + [r])[i] == rows[i];
    }
    assert (rows + [r])[|rows|] == r;
  }

  lemma GroupsHaveRows(rows: seq<DirRow>, r: DirRow, key: DirRow -> string, groups: seq<GroupRow>, groups': seq<GroupRow>)
    requires forall i :: 0 <= i < |groups| ==> HasRow(rows, key, groups[i].key)
    requires |groups| <= |groups'| && forall i :: 0 <= i < |groups| ==> groups'[i].key == groups[i].key
    requires forall i :: |groups| <= i < |groups'| ==> !r.other && groups'[i].key == key(r)
    ensures forall i :: 0 <= i < |groups'| ==> HasRow(rows + [r], key, groups'[i].key)
  {
    hide HasRow;
    forall i | 0 <= i < |groups'|
      ensures HasRow(rows + [r], key, groups'[i].key)
    {
      if i < |groups| {
        assert HasRow(rows, key, groups[i].key);
      }
      RowsMore(rows, r, key, groups'[i].key);
    }
  }

  const ByBytesThenKey := (a: GroupRow, b: GroupRow) => Outranks(a.bytes, a.key, b.bytes, b.key)

  lemma ByBytesThenKeyOrders()
    ensures TotalPreorder(ByBytesThenKey)
  {
    forall x: GroupRow, y: GroupRow
      ensures ByBytesThenKey(x, y) || ByBytesThenKey(y, x)
    {
      OutranksTotal(x.bytes, x.key, y.bytes, y.key);
    }
    forall x: GroupRow, y: GroupRow, z: GroupRow | ByBytesThenKey(x, y) && ByBytesThenKey(y, z)
      ensures ByBytesThenKey(x, z)
    {
      OutranksTransitive(x.bytes, x.key, y.bytes, y.key, z.bytes, z.key);
    }
  }

  predicate Larger(x: GroupRow, y: GroupRow) { y.bytes <= x.bytes && (x.bytes == y.bytes ==> Le(x.key, y.key)) }

  lemma TopIsLargest(all: seq<GroupRow>, top: seq<GroupRow>, n: nat)
    requires SortedBy(top, ByBytesThenKey) && Lists(all, Elems(all)) && Lists(top, Elems(top))
    requires IsTop(Elems(all), Elems(top), n, ByBytesThenKey)
    ensures forall i, j :: 0 <= i < j < |top| ==> Larger(top[i], top[j])
    ensures forall x, y :: x in top && y in all && y !in top ==> Larger(x, y)
    ensures |top| == Least(n, |all|)
  {
    ListLength(all, Elems(all));
    ListLength(top, Elems(top));
    forall i, j | 0 <= i < j < |top|
      ensures Larger(top[i], top[j])
    {
      assert ByBytesThenKey(top[i], top[j]);
    }
    forall x, y | x in top && y in all && y !in top
      ensures Larger(x, y)
    {
      assert ByBytesThenKey(x, y);
    }
  }

  // ---------- conservation ----------

  const Every := (k: string) => true

  lemma {:induction false} AllKeyed(rows: seq<DirRow>, key: DirRow -> string, m: Measure)
    ensures SumIf(Keyed(rows, key, m), Every) + Folded(rows, m) == SeqSum(rows, RowGauge(m))
    decreases |rows|
  {
    if rows != [] {
      var rest, r := rows[..|rows| - 1], rows[|rows| - 1];
      AllKeyed(rest, key, m);
      var s := Keyed(rest, key, m);
      if r.other {
        assert s + [] == s;
      } else {
        assert (s + [(key(r), Of(r, m))])[..|s|] == s;
      }
    }
  }

  lemma {:induction false} AllGroups(groups: seq<GroupRow>, m: Measure)
    ensures SumIf(Pairs(groups, m), Every) == SeqSum(groups, GroupGauge(m))
    decreases |groups|
  {
    if groups != [] {
      var rest := groups[..|groups| - 1];
      AllGroups(rest, m);
      assert Pairs(groups, m)[..|rest|] == Pairs(rest, m);
    }
  }

  /** The groups and the folded rows hold everything. */
  lemma GroupsConserve(rows: seq<DirRow>, key: DirRow -> string, groups: seq<GroupRow>, m: Measure)
    requires Grouped(rows, key, groups)
    ensures SeqSum(groups, GroupGauge(m)) + Folded(rows, m) == SeqSum(rows, RowGauge(m))
  {
    AllKeyed(rows, key, m);
    AllGroups(groups, m);
    GroupBySum(Keyed(rows, key, m), Pairs(groups, m), Every);
  }

  // ---------- implementation ----------

  /** The index finds the group of every key. */
  ghost predicate Indexed(idx: map<string, int>, groups: seq<GroupRow>) {
    && (forall k :: k in idx ==> 0 <= idx[k] < |groups| && groups[idx[k]].key == k)
    && (forall i :: 0 <= i < |groups| ==> groups[i].key in idx && idx[groups[i].key] == i)
  }

  function Plus(g: GroupRow, r: DirRow): GroupRow {
    g.(bytes := g.bytes + r.bytes, packets := g.packets + r.packets, flows := g.flows + r.flows)
  }

  lemma JoinStep(rows: seq<DirRow>, key: DirRow -> string, groups: seq<GroupRow>, r: DirRow, i: nat)
    requires Grouped(rows, key, groups) && !r.other && i < |groups| && groups[i].key == key(r)
    ensures Grouped(rows + [r], key, groups[i := Plus(groups[i], r)])
  {
    var groups' := groups[i := Plus(groups[i], r)];
    forall m: Measure
      ensures IsGroupBy(Keyed(rows + [r], key, m), Pairs(groups', m))
    {
      assert (rows + [r])[..|rows|] == rows;
      JoinGroup(Keyed(rows, key, m), Pairs(groups, m), (key(r), Of(r, m)), i);
      assert Pairs(groups', m) == Pairs(groups, m)[i := (key(r), Pairs(groups, m)[i].1 + Of(r, m))];
    }
    GroupsHaveRows(rows, r, key, groups, groups');
  }

  lemma OpenStep(rows: seq<DirRow>, key: DirRow -> string, groups: seq<GroupRow>, r: DirRow)
    requires Grouped(rows, key, groups) && !r.other && forall i :: 0 <= i < |groups| ==> groups[i].key != key(r)
    ensures Grouped(rows + [r], key, groups + [GroupRow(key(r), r.bytes, r.packets, r.flows)])
  {
    var g := GroupRow(key(r), r.bytes, r.packets, r.flows);
    forall m: Measure
      ensures IsGroupBy(Keyed(rows + [r], key, m), Pairs(groups + [g], m))
    {
      assert (rows + [r])[..|rows|] == rows;
      OpenGroup(Keyed(rows, key, m), Pairs(groups, m), (key(r), Of(r, m)));
      assert Pairs(groups + [g], m) == Pairs(groups, m) + [(key(r), Of(r, m))];
    }
    GroupsHaveRows(rows, r, key, groups, groups + [g]);
  }

  lemma FoldStep(rows: seq<DirRow>, key: DirRow -> string, groups: seq<GroupRow>, r: DirRow)
    requires Grouped(rows, key, groups) && r.other
    ensures Grouped(rows + [r], key, groups)
  {
    forall m: Measure
      ensures Keyed(rows + [r], key, m) == Keyed(rows, key, m)
    {
      assert (rows + [r])[..|rows|] == rows;
    }
    GroupsHaveRows(rows, r, key, groups, groups);
  }

  /** The groups of the rows, in the order of their first row. */
  method GroupRows(rows: seq<DirRow>, key: DirRow -> string) returns (groups: seq<GroupRow>)
    ensures Grouped(rows, key, groups)
    ensures forall i, j :: 0 <= i < j < |groups| ==> groups[i].key != groups[j].key
  {
    hide Grouped;
    groups := [];
    var idx: map<string, int> := map[];
    NoGroups(key);
    for i := 0 to |rows|
      invariant Indexed(idx, groups) && Grouped(rows[..i], key, groups)
    {
      var r := rows[i];
      assert rows[..i + 1] == rows[..i] + [r];
      if r.other {
        FoldStep(rows[..i], key, groups, r);
        continue;
      }
      var k := key(r);
      if k in idx {
        JoinStep(rows[..i], key, groups, r, idx[k]);
        groups := groups[idx[k] := Plus(groups[idx[k]], r)];
      } else {
        OpenStep(rows[..i], key, groups, r);
        idx := idx[k := |groups|];
        groups := groups + [GroupRow(k, r.bytes, r.packets, r.flows)];
      }
    }
    assert rows[..|rows|] == rows;
  }

  lemma NoGroups(key: DirRow -> string)
    ensures Grouped([], key, [])
  {
  }

  /** Everything in total: the rows, their folded part, and the groups left out. */
  method SumOther(rows: seq<DirRow>) returns (other: GroupRow, total: int)
    ensures other.key == "" && (forall m :: OfGroup(other, m) == Folded(rows, m))
    ensures total == SeqSum(rows, RowGauge(Bytes))
  {
    total := 0;
    var b, p, f := 0, 0, 0;
    for i := 0 to |rows|
      invariant total == SeqSum(rows[..i], RowGauge(Bytes))
      invariant b == Folded(rows[..i], Bytes) && p == Folded(rows[..i], Packets) && f == Folded(rows[..i], Flows)
    {
      var r := rows[i];
      assert rows[..i + 1][..i] == rows[..i];
      total := total + r.bytes;
      if r.other {
        b, p, f := b + r.bytes, p + r.packets, f + r.flows;
      }
    }
    assert rows[..|rows|] == rows;
    other := GroupRow("", b, p, f);
  }

  method AddGroups(other: GroupRow, rest: seq<GroupRow>) returns (r: GroupRow)
    ensures r.key == other.key
    ensures forall m :: OfGroup(r, m) == OfGroup(other, m) + SeqSum(rest, GroupGauge(m))
  {
    var b, p, f := other.bytes, other.packets, other.flows;
    for i := 0 to |rest|
      invariant b == other.bytes + SeqSum(rest[..i], GroupGauge(Bytes))
      invariant p == other.packets + SeqSum(rest[..i], GroupGauge(Packets))
      invariant f == other.flows + SeqSum(rest[..i], GroupGauge(Flows))
    {
      assert rest[..i + 1][..i] == rest[..i];
      b, p, f := b + rest[i].bytes, p + rest[i].packets, f + rest[i].flows;
    }
    assert rest[..|rest|] == rest;
    r := GroupRow(other.key, b, p, f);
  }

  /** The top groups by bytes, the rest with the folded rows, and the total. The groups
      returned are exact and distinct, none left out precedes one returned, and for every
      limit what is returned and the rest make up everything. */
  method Group(rows: seq<DirRow>, key: DirRow -> string, limit: int)
    returns (top: seq<GroupRow>, other: GroupRow, total: int, ghost all: seq<GroupRow>)
    ensures Grouped(rows, key, all) && Lists(all, Elems(all))
    ensures SortedBy(top, ByBytesThenKey)
    ensures Lists(top, Elems(top))
    ensures IsTop(Elems(all), Elems(top), if limit > 0 then limit else |all|, ByBytesThenKey)
    // larger groups first, equal ones by key; a group left out is smaller than each one returned
    ensures forall i, j :: 0 <= i < j < |top| ==> Larger(top[i], top[j])
    ensures forall x, y :: x in top && y in all && y !in top ==> Larger(x, y)
    ensures |top| == (if 0 < limit < |all| then limit else |all|)
    ensures other.key == "" && total == SeqSum(rows, RowGauge(Bytes))
    ensures forall m :: SeqSum(top, GroupGauge(m)) + OfGroup(other, m) == SeqSum(rows, RowGauge(m))
  {
    hide Grouped, Larger, IsTop, Lists, SortedBy, Elems, SeqSum, Folded;
    var groups := GroupRows(rows, key);
    all := groups;
    other, total := SumOther(rows);
    groups := SortBy(groups, ByBytesThenKey);
    SortedGroups(all);
    top := groups;
    if limit > 0 && |groups| > limit {
      other := AddGroups(other, groups[limit..]);
      top := groups[..limit];
    } else {
      assert groups[|groups|..] == [] && groups[..|groups|] == groups;
      NoneLeft();
    }
    TopOf(all, groups, if limit > 0 then limit else |all|);
    forall m: Measure
      ensures SeqSum(groups[..|top|], GroupGauge(m)) + SeqSum(groups[|top|..], GroupGauge(m)) + Folded(rows, m) ==
              SeqSum(rows, RowGauge(m))
    {
      Parted(rows, key, all, groups, |top|, m);
    }
  }

  lemma NoneLeft()
    ensures forall m :: SeqSum([], GroupGauge(m)) == 0
  {
  }

  lemma SortedGroups(all: seq<GroupRow>)
    requires forall i, j :: 0 <= i < j < |all| ==> all[i].key != all[j].key
    ensures var s := SortBy(all, ByBytesThenKey); multiset(s) == multiset(all) && SortedBy(s, ByBytesThenKey) && |s| == |all|
    ensures Lists(all, Elems(all))
  {
    SortPermutes(all, ByBytesThenKey);
    ByBytesThenKeyOrders();
    SortSorts(all, ByBytesThenKey);
    assert |multiset(SortBy(all, ByBytesThenKey))| == |multiset(all)|;
    DistinctLists(all);
  }

  /** The first n of the sorted groups. */
  lemma TopOf(all: seq<GroupRow>, sorted: seq<GroupRow>, n: nat)
    requires multiset(sorted) == multiset(all) && SortedBy(sorted, ByBytesThenKey) && Lists(all, Elems(all))
    ensures var top := sorted[..Least(n, |sorted|)];
      && SortedBy(top, ByBytesThenKey) && Lists(top, Elems(top)) && IsTop(Elems(all), Elems(top), n, ByBytesThenKey)
      && (forall i, j :: 0 <= i < j < |top| ==> Larger(top[i], top[j]))
      && (forall x, y :: x in top && y in all && y !in top ==> Larger(x, y))
  {
    var top := sorted[..Least(n, |sorted|)];
    var T := SortedPrefixIsTop(sorted, Elems(all), n, ByBytesThenKey);
    ListLength(top, T);
    assert Elems(top) == T;
    hide Larger, IsTop, Elems;
    TopIsLargest(all, top, n);
  }

  lemma Parted(rows: seq<DirRow>, key: DirRow -> string, all: seq<GroupRow>, sorted: seq<GroupRow>, k: nat, m: Measure)
    requires Grouped(rows, key, all) && multiset(sorted) == multiset(all) && k <= |sorted|
    ensures SeqSum(sorted[..k], GroupGauge(m)) + SeqSum(sorted[k..], GroupGauge(m)) + Folded(rows, m) == SeqSum(rows, RowGauge(m))
  {
    hide Grouped, SeqSum, Folded;
    assert sorted == sorted[..k] + sorted[k..];
    SeqSumConcat(sorted[..k], sorted[k..], GroupGauge(m));
    SeqSumPermute(sorted, all, GroupGauge(m));
    GroupsConserve(rows, key, all, m);
  }

  ghost function Elems(s: seq<GroupRow>): set<GroupRow> { set g | g in s }
}
