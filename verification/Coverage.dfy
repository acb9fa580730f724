/** Flow bytes against port counters: the buckets both covered, by subtracting the runs of
    the others from the whole window (backend/internal/api/flows_view.go:1025-1116). */
module Coverage {
  import opened Addresses
  import opened Arith
  import opened FlowView
  import opened GroupBy
  import opened Sums
  import opened TopN

  /** A stored flow row. */
  datatype Stored = Stored(bucket: int, e: Ends, proto: nat, port: nat, bytes: nat)

  // ---------- the queries ----------

  /** The key of a full aggregate. */
  datatype FullKey = FullKey(e: Ends, proto: nat, port: nat)

  /** Rows a query over [from, to) for the point's interfaces reads. */
  predicate Reads(s: Stored, ifs: seq<nat>, from: int, to: int) {
    from <= s.bucket < to && (s.e.inIf in ifs || s.e.outIf in ifs)
  }

  function FullRows(stored: seq<Stored>, ifs: seq<nat>, from: int, to: int): seq<(FullKey, int)> {
    if stored == [] then []
    else
      var s := stored[|stored| - 1];
      FullRows(stored[..|stored| - 1], ifs, from, to)
      + if Reads(s, ifs, from, to) then [(FullKey(s.e, s.proto, s.port), s.bytes)] else []
  }

  function FullGroups(rows: seq<FlowAgg>): seq<(FullKey, int)> {
    if rows == [] then []
    else
      var r := rows[|rows| - 1];
      FullGroups(rows[..|rows| - 1]) + [(FullKey(EndsOf(r), r.proto, r.port), r.bytes)]
  }

  /** Without endpoints the query groups by interfaces alone. */
  function Reduced(e: Ends, withEndpoints: bool): Ends {
    if withEndpoints then e else Ends(e.inIf, e.outIf, NoAddr, NoAddr)
  }

  function ByteRows(stored: seq<Stored>, ifs: seq<nat>, from: int, to: int, withEndpoints: bool): seq<(Ends, int)> {
    if stored == [] then []
    else
      var s := stored[|stored| - 1];
      ByteRows(stored[..|stored| - 1], ifs, from, to, withEndpoints)
      + if Reads(s, ifs, from, to) then [(Reduced(s.e, withEndpoints), s.bytes)] else []
  }

  /** rows are the whole window grouped by every key column. */
  ghost predicate IsAggregate(stored: seq<Stored>, ifs: seq<nat>, from: int, to: int, rows: seq<FlowAgg>) {
    IsGroupBy(FullRows(stored, ifs, from, to), FullGroups(rows))
  }

  /** rows are one range grouped by interfaces, and endpoints when asked for; the range is
      one step, so every row carries its start. */
  ghost predicate IsByteAggregate(stored: seq<Stored>, ifs: seq<nat>, from: int, to: int, withEndpoints: bool, rows: seq<FlowAgg>) {
    && IsGroupBy(ByteRows(stored, ifs, from, to, withEndpoints), Weights(rows))
    && forall i :: 0 <= i < |rows| ==> rows[i].bucket == from
  }

  // ---------- direct sums ----------

  /** The bytes of the stored rows of [from, to) that count. */
  function RangeSum(stored: seq<Stored>, p: Point, d: Dir, from: int, to: int): int {
    if stored == [] then 0
    else
      var s := stored[|stored| - 1];
      RangeSum(stored[..|stored| - 1], p, d, from, to) + if from <= s.bucket < to && Counts(p, d, s.e) then s.bytes else 0
  }

  /** The bytes of the stored rows in the buckets of S that count. */
  function DirectSum(stored: seq<Stored>, p: Point, d: Dir, S: set<int>): int {
    if stored == [] then 0
    else
      var s := stored[|stored| - 1];
      DirectSum(stored[..|stored| - 1], p, d, S) + if s.bucket in S && Counts(p, d, s.e) then s.bytes else 0
  }

  /** What a stored row brings: its bytes when its bucket is in S and it is in view. */
  function ViewGauge(p: Point, d: Dir, S: set<int>): Stored -> int {
    (s: Stored) => if s.bucket in S && InView(p, d, s.e) then s.bytes else 0
  }

  lemma {:induction false} DirectIsView(stored: seq<Stored>, p: Point, d: Dir, S: set<int>)
    ensures DirectSum(stored, p, d, S) == SeqSum(stored, ViewGauge(p, d, S))
    decreases |stored|
  {
    if stored != [] {
      hide Counts, InView;
      DirectIsView(stored[..|stored| - 1], p, d, S);
      CountsInView(p, d, stored[|stored| - 1].e);
    }
  }

  function FullCounter(p: Point, d: Dir): FullKey -> bool { (k: FullKey) => Counts(p, d, k.e) }

  lemma CountsReads(p: Point, d: Dir, e: Ends)
    ensures Counts(p, d, e) ==> e.inIf in p.ifs || e.outIf in p.ifs
  {
  }

  lemma {:induction false} FullRowsSum(stored: seq<Stored>, p: Point, d: Dir, from: int, to: int)
    ensures SumIf(FullRows(stored, p.ifs, from, to), FullCounter(p, d)) == RangeSum(stored, p, d, from, to)
    decreases |stored|
  {
    if stored != [] {
      var rest, s := stored[..|stored| - 1], stored[|stored| - 1];
      hide Counts, SumIf;
      CountsReads(p, d, s.e);
      FullRowsSum(rest, p, d, from, to);
      SumIfLast(FullRows(rest, p.ifs, from, to), (FullKey(s.e, s.proto, s.port), s.bytes), FullCounter(p, d));
    } else {
      assert SumIf([], FullCounter(p, d)) == 0;
    }
  }

  lemma {:induction false} FullGroupsSum(rows: seq<FlowAgg>, p: Point, d: Dir)
    ensures SumIf(FullGroups(rows), FullCounter(p, d)) == Total(Selected(rows, p, d))
    decreases |rows|
  {
    if rows != [] {
      var rest, r := rows[..|rows| - 1], rows[|rows| - 1];
      FullGroupsSum(rest, p, d);
      var g, t := FullGroups(rest), Selected(rest, p, d);
      assert (g + [(FullKey(EndsOf(r), r.proto, r.port), r.bytes)])[..|g|] == g;
      if Counts(p, d, EndsOf(r)) {
        assert (t + [DirRowOf(r, d)])[..|t|] == t;
      } else {
        assert t + [] == t;
      }
    }
  }

  /** Selecting from the whole window's aggregate is selecting from its rows. */
  lemma WholeWindow(stored: seq<Stored>, p: Point, d: Dir, from: int, to: int, rows: seq<FlowAgg>)
    requires IsAggregate(stored, p.ifs, from, to, rows)
    ensures Total(Selected(rows, p, d)) == RangeSum(stored, p, d, from, to)
  {
    FullRowsSum(stored, p, d, from, to);
    FullGroupsSum(rows, p, d);
    GroupBySum(FullRows(stored, p.ifs, from, to), FullGroups(rows), FullCounter(p, d));
  }

  /** A point that needs no endpoints: its rows count by their interfaces alone. */
  predicate NeedsEndpoints(p: Point) { p.localInternal || p.exclude != {} }

  lemma ReducedCounts(p: Point, d: Dir, e: Ends)
    ensures Counts(p, d, Reduced(e, NeedsEndpoints(p))) == Counts(p, d, e)
  {
  }

  lemma {:induction false} ByteRowsSum(stored: seq<Stored>, p: Point, d: Dir, from: int, to: int)
    ensures SumIf(ByteRows(stored, p.ifs, from, to, NeedsEndpoints(p)), Counter(p, d)) == RangeSum(stored, p, d, from, to)
    decreases |stored|
  {
    if stored != [] {
      var rest, s := stored[..|stored| - 1], stored[|stored| - 1];
      hide Counts, Reduced, NeedsEndpoints, SumIf;
      CountsReads(p, d, s.e);
      ReducedCounts(p, d, s.e);
      ByteRowsSum(rest, p, d, from, to);
      SumIfLast(ByteRows(rest, p.ifs, from, to, NeedsEndpoints(p)), (Reduced(s.e, NeedsEndpoints(p)), s.bytes), Counter(p, d));
    } else {
      assert SumIf([], Counter(p, d)) == 0;
    }
  }

  /** Selecting from a range's reduced aggregate is selecting from its rows, with or without
      endpoints in it. */
  lemma OneRange(stored: seq<Stored>, p: Point, d: Dir, from: int, to: int, rows: seq<FlowAgg>)
    requires IsByteAggregate(stored, p.ifs, from, to, NeedsEndpoints(p), rows)
    ensures Total(Selected(rows, p, d)) == RangeSum(stored, p, d, from, to)
  {
    TotalIsSum(rows, p, d);
    ByteRowsSum(stored, p, d, from, to);
    GroupBySum(ByteRows(stored, p.ifs, from, to, NeedsEndpoints(p)), Weights(rows), Counter(p, d));
  }

  // ---------- runs ----------

  type Run = (int, int)

  /** How many runs hold x. */
  function RunCount(runs: seq<Run>, x: int): int {
    if runs == [] then 0
    else RunCount(runs[..|runs| - 1], x) + if runs[|runs| - 1].0 <= x < runs[|runs| - 1].1 then 1 else 0
  }

  /** How many buckets outside keep hold x. */
  function MissingCount(buckets: seq<int>, keep: set<int>, native: int, x: int): int {
    if buckets == [] then 0
    else
      var b := buckets[|buckets| - 1];
      MissingCount(buckets[..|buckets| - 1], keep, native, x) + if b !in keep && b <= x < b + native then 1 else 0
  }

  lemma MissingStep(buckets: seq<int>, keep: set<int>, native: nat, i: nat)
    requires i < |buckets|
    ensures forall x ::
      MissingCount(buckets[..i + 1], keep, native, x) ==
      MissingCount(buckets[..i], keep, native, x) + if buckets[i] !in keep && buckets[i] <= x < buckets[i] + native then 1 else 0
  {
    assert buckets[..i + 1][..i] == buckets[..i];
  }

  lemma AppendRun(runs: seq<Run>, r: Run)
    ensures forall x :: RunCount(runs + [r], x) == RunCount(runs, x) + if r.0 <= x < r.1 then 1 else 0
  {
    assert (runs + [r])[..|runs|] == runs;
  }

  lemma ExtendRun(runs: seq<Run>, to: int)
    requires runs != [] && runs[|runs| - 1].0 <= runs[|runs| - 1].1 <= to
    ensures forall x ::
      RunCount(runs[|runs| - 1 := (runs[|runs| - 1].0, to)], x) ==
      RunCount(runs, x) + if runs[|runs| - 1].1 <= x < to then 1 else 0
  {
    var n := |runs|;
    assert runs[n - 1 := (runs[n - 1].0, to)][..n - 1] == runs[..n - 1];
  }

  /** Merges the buckets not in keep into contiguous ranges: together they hold exactly what
      those buckets hold, and neighbouring ranges never touch. */
  method MissingRuns(buckets: seq<int>, keep: set<int>, native: nat) returns (runs: seq<Run>)
    ensures forall x :: RunCount(runs, x) == MissingCount(buckets, keep, native, x)
    ensures forall i :: 0 <= i < |runs| ==> runs[i].0 <= runs[i].1
    ensures forall i :: 0 < i < |runs| ==> runs[i - 1].1 != runs[i].0
  {
    runs := [];
    for i := 0 to |buckets|
      invariant forall x :: RunCount(runs, x) == MissingCount(buckets[..i], keep, native, x)
      invariant forall j :: 0 <= j < |runs| ==> runs[j].0 <= runs[j].1
      invariant forall j :: 0 < j < |runs| ==> runs[j - 1].1 != runs[j].0
    {
      hide RunCount, MissingCount;
      var b := buckets[i];
      MissingStep(buckets, keep, native, i);
      if b in keep {
        continue;
      }
      var n := |runs|;
      if n > 0 && runs[n - 1].1 == b {
        ExtendRun(runs, b + native);
        runs := runs[n - 1 := (runs[n - 1].0, b + native)];
        continue;
      }
      AppendRun(runs, (b, b + native));
      runs := runs + [(b, b + native)];
    }
    assert buckets[..|buckets|] == buckets;
  }

  // ---------- coverage ----------

  function RunsSum(stored: seq<Stored>, p: Point, d: Dir, runs: seq<Run>): int {
    if runs == [] then 0
    else RunsSum(stored, p, d, runs[..|runs| - 1]) + RangeSum(stored, p, d, runs[|runs| - 1].0, runs[|runs| - 1].1)
  }

  /** One more row counts once for every run that holds it. */
  lemma {:induction false} RunsSumStep(stored: seq<Stored>, s: Stored, p: Point, d: Dir, runs: seq<Run>)
    ensures RunsSum(stored + [s], p, d, runs) ==
            RunsSum(stored, p, d, runs) + if Counts(p, d, s.e) then RunCount(runs, s.bucket) * s.bytes else 0
    decreases |runs|
  {
    if runs != [] {
      hide Counts, RangeSum;
      var last := runs[|runs| - 1];
      RunsSumStep(stored, s, p, d, runs[..|runs| - 1]);
      RangeSumStep(stored, s, p, d, last.0, last.1);
      OneMoreTimes(RunCount(runs[..|runs| - 1], s.bucket), s.bytes);
    }
  }

  lemma RangeSumStep(stored: seq<Stored>, s: Stored, p: Point, d: Dir, from: int, to: int)
    ensures RangeSum(stored + [s], p, d, from, to) ==
            RangeSum(stored, p, d, from, to) + if from <= s.bucket < to && Counts(p, d, s.e) then s.bytes else 0
  {
    hide Counts;
    assert (stored + [s])[..|stored|] == stored;
  }

  lemma OneMoreTimes(n: int, b: int)
    ensures (n + 1) * b == n * b + b && (n + 0) * b == n * b
  {
  }

  lemma {:induction false} RunsOfNothing(p: Point, d: Dir, runs: seq<Run>)
    ensures RunsSum([], p, d, runs) == 0
    decreases |runs|
  {
    if runs != [] {
      RunsOfNothing(p, d, runs[..|runs| - 1]);
    }
  }

  /** Buckets in ascending order, a whole native bucket apart, inside the window. */
  ghost predicate Spaced(buckets: seq<int>, native: int, start: int, end: int) {
    && (forall i, j :: 0 <= i < j < |buckets| ==> buckets[i] + native <= buckets[j])
    && (forall i :: 0 <= i < |buckets| ==> start <= buckets[i] && buckets[i] + native <= end)
  }

  lemma {:induction false} MissingOnce(buckets: seq<int>, keep: set<int>, native: int, start: int, end: int, x: int)
    requires 0 < native && Spaced(buckets, native, start, end)
    ensures x in buckets ==> MissingCount(buckets, keep, native, x) == if x in keep then 0 else 1
    ensures (x < start || end <= x) ==> MissingCount(buckets, keep, native, x) == 0
    ensures (forall i :: 0 <= i < |buckets| ==> !(buckets[i] <= x < buckets[i] + native)) ==>
            MissingCount(buckets, keep, native, x) == 0
    decreases |buckets|
  {
    if buckets != [] {
      var rest, b := buckets[..|buckets| - 1], buckets[|buckets| - 1];
      MissingOnce(rest, keep, native, start, end, x);
      if x in buckets {
        if x == b {
          assert forall i :: 0 <= i < |rest| ==> rest[i] + native <= b;
        } else {
          assert x in rest;
        }
      }
    }
  }

  /** The whole window less the runs of the missing buckets is the direct sum over the
      buckets kept. */
  lemma {:induction false} Subtraction(stored: seq<Stored>, p: Point, d: Dir, runs: seq<Run>, buckets: seq<int>, keep: set<int>,
                                       native: int, start: int, end: int)
    requires 0 < native && Spaced(buckets, native, start, end)
    requires forall b :: b in keep ==> b in buckets
    requires forall x :: RunCount(runs, x) == MissingCount(buckets, keep, native, x)
    requires forall i :: 0 <= i < |stored| && start <= stored[i].bucket < end ==> stored[i].bucket in buckets
    ensures RangeSum(stored, p, d, start, end) - RunsSum(stored, p, d, runs) == DirectSum(stored, p, d, keep)
    decreases |stored|
  {
    if stored == [] {
      RunsOfNothing(p, d, runs);
    } else {
      hide Counts;
      var rest, s := stored[..|stored| - 1], stored[|stored| - 1];
      assert stored == rest + [s];
      Subtraction(rest, p, d, runs, buckets, keep, native, start, end);
      RunsSumStep(rest, s, p, d, runs);
      MissingOnce(buckets, keep, native, start, end, s.bucket);
    }
  }

  lemma {:induction false} DirectNonNegative(stored: seq<Stored>, p: Point, d: Dir, S: set<int>)
    ensures 0 <= DirectSum(stored, p, d, S)
    decreases |stored|
  {
    if stored != [] {
      DirectNonNegative(stored[..|stored| - 1], p, d, S);
    }
  }

  function FullHours(S: set<int>, minutes: map<int, int>): set<int> { set b | b in S && b in minutes && minutes[b] >= 60 }

  /** The buckets both sides covered; of hours only fully covered ones, when there are any. */
  function Both(buckets: seq<int>, present: set<int>, hourly: bool, minutes: map<int, int>): set<int> {
    var both := set b | b in buckets && b in present;
    if hourly && FullHours(both, minutes) != {} then FullHours(both, minutes) else both
  }

  /** An hour is fully covered when it holds 60 minutes; other hours count only when there is
      no such hour. Minutes always count. */
  lemma BothIs(buckets: seq<int>, present: set<int>, hourly: bool, minutes: map<int, int>, b: int)
    ensures b in Both(buckets, present, hourly, minutes) <==>
      && b in buckets && b in present
      && (!hourly || (b in minutes && 60 <= minutes[b])
          || forall c :: c in buckets && c in present && c in minutes ==> minutes[c] < 60)
  {
    var both := set c | c in buckets && c in present;
    var full := FullHours(both, minutes);
    if c :| c in both && c in minutes && minutes[c] >= 60 {
      assert c in full;
    } else {
      forall c
        ensures c !in full
      {
        assert !(c in both && c in minutes && minutes[c] >= 60);
      }
    }
  }

  ghost function Value(): int -> int { (x: int) => x }

  method SumValues(m: map<int, int>) returns (n: int)
    ensures n == MapSum(m, Value())
  {
    var keys := Enumerate(m.Keys);
    n := 0;
    ghost var left := m;
    ListLength(keys, m.Keys);
    ListDistinct(keys, m.Keys);
    for i := 0 to |keys|
      invariant left.Keys <= m.Keys && forall k :: k in left ==> left[k] == m[k]
      invariant forall j :: 0 <= j < |keys| ==> (keys[j] in left <==> i <= j)
      invariant n + MapSum(left, Value()) == MapSum(m, Value())
    {
      assert keys[i] in keys;
      MapSumRemove(left, Value(), keys[i]);
      n := n + m[keys[i]];
      left := left - {keys[i]};
    }
    assert left == map[] by {
      assert forall k :: k in m ==> k in keys;
    }
  }

  /** When a single step's rows are summed by bucket, the values add up to their total. */
  lemma OneBucket(rows: seq<FlowAgg>, p: Point, d: Dir, m: map<int, int>, from: int)
    requires forall i :: 0 <= i < |rows| ==> rows[i].bucket == from
    requires forall b :: At(m, b) == Total(Selected(OfBucket(rows, b), p, d))
    ensures MapSum(m, Value()) == Total(Selected(rows, p, d))
  {
    OfOneBucket(rows, from);
    forall b | b in m && b != from
      ensures m[b] == 0
    {
      OfNoBucket(rows, b);
      assert At(m, b) == 0;
    }
    if from in m {
      MapSumRemove(m, Value(), from);
      MapSumPad(map[], m - {from}, Value());
    } else {
      MapSumPad(map[], m, Value());
      assert At(m, from) == 0;
    }
  }

  lemma {:induction false} OfOneBucket(rows: seq<FlowAgg>, b: int)
    requires forall i :: 0 <= i < |rows| ==> rows[i].bucket == b
    ensures OfBucket(rows, b) == rows
    decreases |rows|
  {
    if rows != [] {
      OfOneBucket(rows[..|rows| - 1], b);
      assert rows == rows[..|rows| - 1] + [rows[|rows| - 1]];
    }
  }

  lemma {:induction false} OfNoBucket(rows: seq<FlowAgg>, b: int)
    requires forall i :: 0 <= i < |rows| ==> rows[i].bucket != b
    ensures OfBucket(rows, b) == []
    decreases |rows|
  {
    if rows != [] {
      OfNoBucket(rows[..|rows| - 1], b);
    }
  }

  /** The flow bytes of the buckets both sides covered, per direction. stored is what the
      database holds; rowsAll and query are any answers it may give to the two aggregates. */
  method PortCoverage(p: Point, ghost stored: seq<Stored>, start: int, end: int, native: int,
                      buckets: seq<int>, present: set<int>, hourly: bool, minutes: map<int, int>,
                      rowsAll: seq<FlowAgg>, query: (int, int) -> seq<FlowAgg>)
    returns (down: int, up: int, ghost both: set<int>)
    requires 0 < native && Spaced(buckets, native, start, end)
    requires forall i :: 0 <= i < |stored| && start <= stored[i].bucket < end ==> stored[i].bucket in buckets
    requires IsAggregate(stored, p.ifs, start, end, rowsAll)
    requires forall from, to :: IsByteAggregate(stored, p.ifs, from, to, NeedsEndpoints(p), query(from, to))
    ensures forall b :: b in both <==>
      && b in buckets && b in present
      && (!hourly || (b in minutes && 60 <= minutes[b])
          || forall c :: c in buckets && c in present && c in minutes ==> minutes[c] < 60)
    ensures down == SeqSum(stored, ViewGauge(p, Download, both))
    ensures up == SeqSum(stored, ViewGauge(p, Upload, both))
  {
    hide Counts, InView, IsAggregate, IsByteAggregate, RangeSum, DirectSum, Selected, Total, RunCount, MissingCount;
    var covered := Both(buckets, present, hourly, minutes);
    both := covered;
    forall b
      ensures b in both <==>
        && b in buckets && b in present
        && (!hourly || (b in minutes && 60 <= minutes[b])
            || forall c :: c in buckets && c in present && c in minutes ==> minutes[c] < 60)
    {
      BothIs(buckets, present, hourly, minutes, b);
    }
    DirectIsView(stored, p, Download, both);
    DirectIsView(stored, p, Upload, both);
    DirectNonNegative(stored, p, Download, both);
    DirectNonNegative(stored, p, Upload, both);
    if covered == {} {
      NothingKept(stored, p, Download);
      NothingKept(stored, p, Upload);
      return 0, 0, both;
    }
    var downRows := Select(rowsAll, p, Download);
    down := Totals(downRows);
    var upRows := Select(rowsAll, p, Upload);
    up := Totals(upRows);
    WholeWindow(stored, p, Download, start, end, rowsAll);
    WholeWindow(stored, p, Upload, start, end, rowsAll);
    var runs := MissingRuns(buckets, covered, native);
    for i := 0 to |runs|
      invariant down == RangeSum(stored, p, Download, start, end) - RunsSum(stored, p, Download, runs[..i])
      invariant up == RangeSum(stored, p, Upload, start, end) - RunsSum(stored, p, Upload, runs[..i])
    {
      assert runs[..i + 1][..i] == runs[..i];
      var rows := query(runs[i].0, runs[i].1);
      var d, u := SumByBucket(rows, p);
      OneRun(stored, p, Download, runs[i].0, runs[i].1, rows, d);
      OneRun(stored, p, Upload, runs[i].0, runs[i].1, rows, u);
      var nd := SumValues(d);
      var nu := SumValues(u);
      down, up := down - nd, up - nu;
    }
    assert runs[..|runs|] == runs;
    Subtraction(stored, p, Download, runs, buckets, both, native, start, end);
    Subtraction(stored, p, Upload, runs, buckets, both, native, start, end);
    down, up := Max(down, 0), Max(up, 0);
  }

  lemma OneRun(stored: seq<Stored>, p: Point, d: Dir, from: int, to: int, rows: seq<FlowAgg>, m: map<int, int>)
    requires IsByteAggregate(stored, p.ifs, from, to, NeedsEndpoints(p), rows)
    requires forall b :: At(m, b) == Total(Selected(OfBucket(rows, b), p, d))
    ensures MapSum(m, Value()) == RangeSum(stored, p, d, from, to)
  {
    OneRange(stored, p, d, from, to, rows);
    OneBucket(rows, p, d, m, from);
  }

  lemma {:induction false} NothingKept(stored: seq<Stored>, p: Point, d: Dir)
    ensures DirectSum(stored, p, d, {}) == 0
    decreases |stored|
  {
    if stored != [] {
      NothingKept(stored[..|stored| - 1], p, d);
    }
  }
}
