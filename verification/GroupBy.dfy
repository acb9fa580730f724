/** What "GROUP BY key, SUM(bytes)" returns, and why sums over groups are sums over rows. */
module GroupBy {

  /** The bytes of the entries whose key passes keep. */
  function SumIf<K>(s: seq<(K, int)>, keep: K -> bool): int {
    if s == [] then 0
    else SumIf(s[..|s| - 1], keep) + if keep(s[|s| - 1].0) then s[|s| - 1].1 else 0
  }

  lemma SumIfLast<K(!new)>(s: seq<(K, int)>, x: (K, int), keep: K -> bool)
    ensures SumIf(s + [x], keep) == SumIf(s, keep) + if keep(x.0) then x.1 else 0
    ensures s + [] == s
  {
    assert (s + [x])[..|s|] == s;
  }

  function SumOf<K(==)>(s: seq<(K, int)>, k: K): int {
    if s == [] then 0
    else SumOf(s[..|s| - 1], k) + if s[|s| - 1].0 == k then s[|s| - 1].1 else 0
  }

  /** One group per key that occurs, each with the sum of its rows; a key that does not occur
      may have an empty one. */
  ghost predicate IsGroupBy<K(!new)>(rows: seq<(K, int)>, groups: seq<(K, int)>) {
    && (forall i, j :: 0 <= i < j < |groups| ==> groups[i].0 != groups[j].0)
    && (forall i :: 0 <= i < |groups| ==> groups[i].1 == SumOf(rows, groups[i].0))
    && (forall i :: 0 <= i < |rows| ==> Occurs(groups, rows[i].0))
  }

  ghost predicate Occurs<K>(s: seq<(K, int)>, k: K) { exists i :: 0 <= i < |s| && s[i].0 == k }

  /** The groups, each counted with the rows of its key. */
  ghost function Spread<K(!new)>(rows: seq<(K, int)>, groups: seq<(K, int)>, keep: K -> bool): int {
    if groups == [] then 0
    else
      var k := groups[|groups| - 1].0;
      Spread(rows, groups[..|groups| - 1], keep) + if keep(k) then SumOf(rows, k) else 0
  }

  lemma {:induction false} GroupsAreSpread<K(!new)>(rows: seq<(K, int)>, groups: seq<(K, int)>, keep: K -> bool)
    requires forall i :: 0 <= i < |groups| ==> groups[i].1 == SumOf(rows, groups[i].0)
    ensures SumIf(groups, keep) == Spread(rows, groups, keep)
    decreases |groups|
  {
    if groups != [] {
      GroupsAreSpread(rows, groups[..|groups| - 1], keep);
    }
  }

  /** One more row adds its bytes to the one group of its key. */
  lemma {:induction false} SpreadOneMore<K(!new)>(rows: seq<(K, int)>, r: (K, int), groups: seq<(K, int)>, keep: K -> bool)
    requires forall i, j :: 0 <= i < j < |groups| ==> groups[i].0 != groups[j].0
    ensures Spread(rows + [r], groups, keep) ==
            Spread(rows, groups, keep) + if Occurs(groups, r.0) && keep(r.0) then r.1 else 0
    decreases |groups|
  {
    assert forall k :: SumOf(rows + [r], k) == SumOf(rows, k) + if r.0 == k then r.1 else 0 by {
      assert (rows + [r])[..|rows|] == rows;
    }
    if groups != [] {
      var last, rest := groups[|groups| - 1], groups[..|groups| - 1];
      SpreadOneMore(rows, r, rest, keep);
      assert Occurs(groups, r.0) <==> Occurs(rest, r.0) || last.0 == r.0 by {
        assert groups[|groups| - 1] == last;
        if i :| 0 <= i < |rest| && rest[i].0 == r.0 {
          assert groups[i].0 == r.0;
        }
      }
      assert last.0 == r.0 ==> !Occurs(rest, r.0);
    }
  }

  lemma {:induction false} SpreadIsSum<K(!new)>(rows: seq<(K, int)>, groups: seq<(K, int)>, keep: K -> bool)
    requires forall i, j :: 0 <= i < j < |groups| ==> groups[i].0 != groups[j].0
    requires forall i :: 0 <= i < |rows| ==> Occurs(groups, rows[i].0)
    ensures Spread(rows, groups, keep) == SumIf(rows, keep)
    decreases |rows|
  {
    if rows == [] {
      SpreadOfNothing(groups, keep);
    } else {
      var rest, r := rows[..|rows| - 1], rows[|rows| - 1];
      assert rows == rest + [r];
      SpreadOneMore(rest, r, groups, keep);
      SpreadIsSum(rest, groups, keep);
    }
  }

  lemma {:induction false} SpreadOfNothing<K(!new)>(groups: seq<(K, int)>, keep: K -> bool)
    ensures Spread([], groups, keep) == 0
    decreases |groups|
  {
    if groups != [] {
      SpreadOfNothing(groups[..|groups| - 1], keep);
    }
  }

  /** A filter on the key commutes with grouping. */
  lemma GroupBySum<K(!new)>(rows: seq<(K, int)>, groups: seq<(K, int)>, keep: K -> bool)
    requires IsGroupBy(rows, groups)
    ensures SumIf(groups, keep) == SumIf(rows, keep)
  {
    GroupsAreSpread(rows, groups, keep);
    SpreadIsSum(rows, groups, keep);
  }

  lemma SumOfLast<K(!new)>(rows: seq<(K, int)>, r: (K, int), k: K)
    ensures SumOf(rows + [r], k) == SumOf(rows, k) + if r.0 == k then r.1 else 0
  {
    assert (rows + [r])[..|rows|] == rows;
  }

  lemma {:induction false} SumOfAbsent<K(!new)>(rows: seq<(K, int)>, k: K)
    requires forall i :: 0 <= i < |rows| ==> rows[i].0 != k
    ensures SumOf(rows, k) == 0
    decreases |rows|
  {
    if rows != [] {
      SumOfAbsent(rows[..|rows| - 1], k);
    }
  }

  /** A row of a known key joins its group. */
  lemma JoinGroup<K(!new)>(rows: seq<(K, int)>, groups: seq<(K, int)>, r: (K, int), i: nat)
    requires IsGroupBy(rows, groups) && i < |groups| && groups[i].0 == r.0
    ensures IsGroupBy(rows + [r], groups[i := (r.0, groups[i].1 + r.1)])
  {
    var groups' := groups[i := (r.0, groups[i].1 + r.1)];
    forall j | 0 <= j < |groups'|
      ensures groups'[j].1 == SumOf(rows + [r], groups'[j].0)
    {
      SumOfLast(rows, r, groups'[j].0);
    }
    forall j | 0 <= j < |rows + [r]|
      ensures Occurs(groups', (rows + [r])[j].0)
    {
      if j < |rows| {
        var l :| 0 <= l < |groups| && groups[l].0 == rows[j].0;
        assert groups'[l].0 == rows[j].0;
      } else {
        assert groups'[i].0 == r.0;
      }
    }
  }

  /** A row of a new key opens a group. */
  lemma OpenGroup<K(!new)>(rows: seq<(K, int)>, groups: seq<(K, int)>, r: (K, int))
    requires IsGroupBy(rows, groups) && !Occurs(groups, r.0)
    ensures IsGroupBy(rows + [r], groups + [r])
  {
    var groups' := groups + [r];
    assert forall j :: 0 <= j < |rows| ==> rows[j].0 != r.0;
    SumOfAbsent(rows, r.0);
    forall j | 0 <= j < |groups'|
      ensures groups'[j].1 == SumOf(rows + [r], groups'[j].0)
    {
      SumOfLast(rows, r, groups'[j].0);
    }
    forall j | 0 <= j < |rows + [r]|
      ensures Occurs(groups', (rows + [r])[j].0)
    {
      if j < |rows| {
        var l :| 0 <= l < |groups| && groups[l].0 == rows[j].0;
        assert groups'[l].0 == rows[j].0;
      } else {
        assert groups'[|groups|].0 == r.0;
      }
    }
  }
}
