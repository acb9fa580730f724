/** Flushing one exporter-minute: the top conversations of every interface pair, the global
    cap, and the pairs' other rows (backend/internal/flow/aggregate.go:240-351). */
module FlowFlush {
  import opened Arith
  import opened Sums
  import opened Sorting
  import opened TopN
  import opened FlowAggregate

  // ---------- order ----------

  datatype Keyed = Keyed(k: AggKey, v: AggVal)

  function Cmp(a: int, b: int): int { if a < b then -1 else if a > b then 1 else 0 }

  function CompareKeys(a: AggKey, b: AggKey): int {
    if Cmp(a.inIf, b.inIf) != 0 then Cmp(a.inIf, b.inIf)
    else if Cmp(a.outIf, b.outIf) != 0 then Cmp(a.outIf, b.outIf)
    else if Cmp(a.proto, b.proto) != 0 then Cmp(a.proto, b.proto)
    else if Cmp(a.port, b.port) != 0 then Cmp(a.port, b.port)
    else if Cmp(a.src, b.src) != 0 then Cmp(a.src, b.src)
    else Cmp(a.dst, b.dst)
  }

  function CompareKeyed(x: Keyed, y: Keyed): int {
    if Cmp(y.v.bytes, x.v.bytes) != 0 then Cmp(y.v.bytes, x.v.bytes) else CompareKeys(x.k, y.k)
  }

  /** Larger first; ties by key, ascending. */
  const ByBytesThenKey := (x: Keyed, y: Keyed) => CompareKeyed(x, y) <= 0

  /** a's key comes first or is the same: by in and out interface, protocol, port, source, destination. */
  predicate KeyFirst(a: AggKey, b: AggKey) {
    || a.inIf < b.inIf
    || (a.inIf == b.inIf && (a.outIf < b.outIf
    || (a.outIf == b.outIf && (a.proto < b.proto
    || (a.proto == b.proto && (a.port < b.port
    || (a.port == b.port && (a.src < b.src
    || (a.src == b.src && a.dst <= b.dst)))))))))
  }

  /** x carries more bytes, or as many and its key comes first. */
  predicate Larger(x: Keyed, y: Keyed) { y.v.bytes <= x.v.bytes && (y.v.bytes == x.v.bytes ==> KeyFirst(x.k, y.k)) }

  lemma OrderIs(x: Keyed, y: Keyed)
    ensures ByBytesThenKey(x, y) <==> Larger(x, y)
  {
  }

  lemma ByBytesThenKeyOrders()
    ensures TotalPreorder(ByBytesThenKey)
  {
  }

  function ComparePairs(x: PairKey, y: PairKey): int {
    if Cmp(x.inIf, y.inIf) != 0 then Cmp(x.inIf, y.inIf) else Cmp(x.outIf, y.outIf)
  }

  const ByPair := (x: PairKey, y: PairKey) => ComparePairs(x, y) <= 0

  predicate PairFirst(p: PairKey, q: PairKey) { p.inIf < q.inIf || (p.inIf == q.inIf && p.outIf < q.outIf) }

  lemma PairOrderIs(p: PairKey, q: PairKey)
    ensures ByPair(p, q) <==> p == q || PairFirst(p, q)
  {
  }

  lemma ByPairOrders()
    ensures TotalPreorder(ByPair)
  {
  }

  // ---------- the cut ----------

  function Items(m: map<AggKey, AggVal>): set<Keyed> { set k | k in m :: Keyed(k, m[k]) }

  function OfPair(s: set<Keyed>, p: PairKey): set<Keyed> { set x | x in s && PairOf(x.k) == p }

  lemma ItemsDoNotTie(m: map<AggKey, AggVal>)
    ensures NoTies(Items(m), ByBytesThenKey)
  {
  }

  function FoldedOther(other: map<PairKey, AggVal>, folded: seq<Keyed>): map<PairKey, AggVal> {
    if folded == [] then other
    else
      var x := folded[|folded| - 1];
      AddOther(FoldedOther(other, folded[..|folded| - 1]), PairOf(x.k), x.v)
  }

  /** How a minute was cut: the rows kept, in order, and those folded, in the order the
      implementation happened to meet them, and the pairs left with an other row. */
  datatype Cut = Cut(kept: seq<Keyed>, folded: seq<Keyed>, pairs: seq<PairKey>)

  /** The top topN of every pair, then the top maxRows of those, sorted; the rest folded. */
  ghost predicate IsCut(mm: Minute, topN: nat, maxRows: nat, perPair: set<Keyed>, kept: set<Keyed>, c: Cut) {
    && perPair <= Items(mm.keys)
    && (forall p :: IsTop(OfPair(Items(mm.keys), p), OfPair(perPair, p), topN, ByBytesThenKey))
    && IsTop(perPair, kept, maxRows, ByBytesThenKey)
    && Lists(c.kept, kept) && SortedBy(c.kept, ByBytesThenKey)
    && Lists(c.folded, Items(mm.keys) - kept)
    && Lists(c.pairs, FoldedOther(mm.other, c.folded).Keys) && SortedBy(c.pairs, ByPair)
  }

  /** The kept conversations come larger first; a pair keeps at most topN and a minute at most
      maxRows; and a folded one is smaller than all that its pair kept, or, if it is one of the
      topN of its pair, than all that were kept at all. */
  lemma KeptAheadOfFolded(mm: Minute, topN: nat, maxRows: nat, perPair: set<Keyed>, kept: set<Keyed>, c: Cut)
    requires IsCut(mm, topN, maxRows, perPair, kept, c)
    ensures |c.kept| <= maxRows
    ensures forall p :: |OfPair(kept, p)| <= topN
    ensures forall i, j :: 0 <= i < j < |c.kept| ==> Larger(c.kept[i], c.kept[j])
    ensures forall x, y :: x in c.kept && y in c.folded && PairOf(x.k) == PairOf(y.k) ==> Larger(x, y)
    ensures forall x, y :: x in c.kept && y in c.folded ==> Larger(x, y) || Outranked(mm.keys, topN, y)
    ensures |c.kept| < maxRows ==> forall y :: y in c.folded ==> Outranked(mm.keys, topN, y)
  {
    hide CompareKeyed;
    ListLength(c.kept, kept);
    ListLength(c.folded, Items(mm.keys) - kept);
    forall p
      ensures |OfPair(kept, p)| <= topN
    {
      Subset(OfPair(kept, p), OfPair(perPair, p));
    }
    forall i, j | 0 <= i < j < |c.kept|
      ensures Larger(c.kept[i], c.kept[j])
    {
      OrderIs(c.kept[i], c.kept[j]);
    }
    if |c.kept| < maxRows {
      Subset(kept, perPair);
      forall y | y in c.folded
        ensures Outranked(mm.keys, topN, y)
      {
        CutFromPair(mm.keys, topN, perPair, y);
      }
    }
    forall x, y | x in c.kept && y in c.folded
      ensures PairOf(x.k) == PairOf(y.k) ==> Larger(x, y)
      ensures Larger(x, y) || Outranked(mm.keys, topN, y)
    {
      OrderIs(x, y);
      if y !in perPair {
        CutFromPair(mm.keys, topN, perPair, y);
        var p := PairOf(x.k);
        assert PairOf(y.k) == p ==> x in OfPair(perPair, p) && y in OfPair(Items(mm.keys), p) && y !in OfPair(perPair, p);
      }
    }
  }

  /** At least topN conversations of y's pair are larger. */
  ghost predicate Outranked(keys: map<AggKey, AggVal>, topN: nat, y: Keyed) {
    exists T :: T <= OfPair(Items(keys), PairOf(y.k)) && |T| == topN && y !in T && forall x :: x in T ==> Larger(x, y)
  }

  lemma CutFromPair(keys: map<AggKey, AggVal>, topN: nat, perPair: set<Keyed>, y: Keyed)
    requires y in Items(keys) && y !in perPair
    requires IsTop(OfPair(Items(keys), PairOf(y.k)), OfPair(perPair, PairOf(y.k)), topN, ByBytesThenKey)
    ensures Outranked(keys, topN, y)
  {
    hide CompareKeyed, Larger;
    var S, T := OfPair(Items(keys), PairOf(y.k)), OfPair(perPair, PairOf(y.k));
    Subset(T + {y}, S);
    forall x | x in T
      ensures Larger(x, y)
    {
      OrderIs(x, y);
    }
  }

  /** Which conversations a minute keeps, and in which order, does not depend on the order
      its table is walked in. */
  lemma CutUnique(mm: Minute, topN: nat, maxRows: nat, perPair: set<Keyed>, kept: set<Keyed>, c: Cut,
                  perPair': set<Keyed>, kept': set<Keyed>, c': Cut)
    requires IsCut(mm, topN, maxRows, perPair, kept, c)
    requires IsCut(mm, topN, maxRows, perPair', kept', c')
    ensures kept == kept' && c.kept == c'.kept && multiset(c.folded) == multiset(c'.folded)
  {
    ItemsDoNotTie(mm.keys);
    forall p
      ensures OfPair(perPair, p) == OfPair(perPair', p)
    {
      TopUnique(OfPair(Items(mm.keys), p), OfPair(perPair, p), OfPair(perPair', p), topN, ByBytesThenKey);
    }
    assert perPair == perPair' by {
      forall x
        ensures x in perPair <==> x in perPair'
      {
        assert x in perPair <==> x in OfPair(perPair, PairOf(x.k));
        assert x in perPair' <==> x in OfPair(perPair', PairOf(x.k));
      }
    }
    TopUnique(perPair, kept, kept', maxRows, ByBytesThenKey);
    SortedUnique(c.kept, c'.kept, kept, ByBytesThenKey);
  }

  // ---------- rows ----------

  datatype Row = Conversation(k: AggKey, v: AggVal) | Rest(p: PairKey, v: AggVal) {
    function Pair(): PairKey { if Conversation? then PairOf(k) else p }
  }

  datatype Meta = NoMeta | Meta(dgrams: nat, records: nat, bytes: Counter, sampling: int, overflow: nat, late: nat)

  function KeptRows(kept: seq<Keyed>): seq<Row> {
    if kept == [] then []
    else KeptRows(kept[..|kept| - 1]) + [Conversation(kept[|kept| - 1].k, kept[|kept| - 1].v)]
  }

  /** The pairs' other rows; an empty one is not written. */
  function OtherRows(other: map<PairKey, AggVal>, pairs: seq<PairKey>): seq<Row>
    requires forall p :: p in pairs ==> p in other
  {
    if pairs == [] then []
    else
      var p := pairs[|pairs| - 1];
      OtherRows(other, pairs[..|pairs| - 1]) + if other[p] == NOTHING then [] else [Rest(p, other[p])]
  }

  ghost predicate IsFlushed(mm: Minute, c: Cut, rows: seq<Row>, meta: Meta) {
    var other := FoldedOther(mm.other, c.folded);
    && (forall p :: p in c.pairs ==> p in other)
    && rows == KeptRows(c.kept) + OtherRows(other, c.pairs)
    && meta == if mm.alive || rows != []
               then Meta(mm.dgrams, mm.records, mm.bytes, Max(mm.sampling, 1), mm.overflow, mm.late)
               else NoMeta
  }

  lemma {:induction false} KeptRowsAre(kept: seq<Keyed>)
    ensures |KeptRows(kept)| == |kept|
    ensures forall i :: 0 <= i < |kept| ==> KeptRows(kept)[i] == Conversation(kept[i].k, kept[i].v)
    decreases |kept|
  {
    if kept != [] {
      KeptRowsAre(kept[..|kept| - 1]);
    }
  }

  /** The other rows in order: each pair of the list that counts something, once. */
  ghost predicate RestOf(rows: seq<Row>, other: map<PairKey, AggVal>, pairs: seq<PairKey>) {
    && (forall i :: 0 <= i < |rows| ==>
          && rows[i].Rest? && rows[i].p in pairs && rows[i].p in other && rows[i].v == other[rows[i].p]
          && !(rows[i].v.bytes == 0 && rows[i].v.packets == 0 && rows[i].v.flows == 0))
    && (forall p :: p in pairs && p in other && !(other[p].bytes == 0 && other[p].packets == 0 && other[p].flows == 0) ==>
          Rest(p, other[p]) in rows)
    && (forall i, j :: 0 <= i < j < |rows| && rows[i].Rest? && rows[j].Rest? ==> PairFirst(rows[i].p, rows[j].p))
  }

  lemma RestMore(rows: seq<Row>, other: map<PairKey, AggVal>, pairs: seq<PairKey>, p: PairKey)
    requires RestOf(rows, other, pairs) && p in other && forall q :: q in pairs ==> PairFirst(q, p)
    ensures RestOf(rows + if other[p] == NOTHING then [] else [Rest(p, other[p])], other, pairs + [p])
  {
    var more := rows + if other[p] == NOTHING then [] else [Rest(p, other[p])];
    assert forall q :: q in pairs + [p] <==> q in pairs || q == p;
    assert forall r :: r in rows ==> r in more;
    assert other[p] != NOTHING ==> more[|rows|] == Rest(p, other[p]);
  }

  lemma {:induction false} OtherRowsAre(other: map<PairKey, AggVal>, pairs: seq<PairKey>)
    requires forall p :: p in pairs ==> p in other
    requires forall i, j :: 0 <= i < j < |pairs| ==> PairFirst(pairs[i], pairs[j])
    ensures RestOf(OtherRows(other, pairs), other, pairs)
    decreases |pairs|
  {
    if pairs != [] {
      hide RestOf, PairFirst;
      var rest, p := pairs[..|pairs| - 1], pairs[|pairs| - 1];
      OtherRowsAre(other, rest);
      forall q | q in rest
        ensures PairFirst(q, p)
      {
        var i :| 0 <= i < |rest| && rest[i] == q;
        assert pairs[i] == q;
      }
      RestMore(OtherRows(other, rest), other, rest, p);
      assert pairs == rest + [p];
    }
  }

  lemma PairsInOrder(pairs: seq<PairKey>, S: set<PairKey>)
    requires Lists(pairs, S) && SortedBy(pairs, ByPair)
    ensures forall i, j :: 0 <= i < j < |pairs| ==> PairFirst(pairs[i], pairs[j])
  {
    ListDistinct(pairs, S);
    forall i, j | 0 <= i < j < |pairs|
      ensures PairFirst(pairs[i], pairs[j])
    {
      PairOrderIs(pairs[i], pairs[j]);
    }
  }

  /** What a flushed minute writes: a row for each kept conversation, in their order, then one
      for each pair left with an other row, in the order of the pairs, and the minute's own
      counters unless there is nothing to tell. */
  lemma RowsAre(mm: Minute, topN: nat, maxRows: nat, perPair: set<Keyed>, kept: set<Keyed>, c: Cut, rows: seq<Row>, meta: Meta)
    requires IsCut(mm, topN, maxRows, perPair, kept, c) && IsFlushed(mm, c, rows, meta)
    ensures |c.kept| <= |rows| && forall i :: 0 <= i < |c.kept| ==> rows[i] == Conversation(c.kept[i].k, c.kept[i].v)
    ensures RestOf(rows[|c.kept|..], FoldedOther(mm.other, c.folded), c.pairs)
    ensures forall p :: p in c.pairs <==> p in FoldedOther(mm.other, c.folded)
    ensures meta == NoMeta <==> !mm.alive && rows == []
    ensures meta.Meta? ==>
      && meta.dgrams == mm.dgrams && meta.records == mm.records && meta.bytes == mm.bytes
      && meta.overflow == mm.overflow && meta.late == mm.late
      && mm.sampling <= meta.sampling && 1 <= meta.sampling && (meta.sampling == mm.sampling || meta.sampling == 1)
  {
    hide IsTop, FoldedOther, Items, KeptRows, OtherRows, RestOf;
    var other := FoldedOther(mm.other, c.folded);
    KeptRowsAre(c.kept);
    ListLength(c.pairs, other.Keys);
    PairsInOrder(c.pairs, other.Keys);
    OtherRowsAre(other, c.pairs);
    assert rows[|c.kept|..] == OtherRows(other, c.pairs);
  }

  // ---------- totals ----------

  function KeyedGauge(k: Metric): Keyed -> int { (x: Keyed) => Of(x.v, k) }

  function RowGauge(k: Metric): Row -> int { (r: Row) => Of(r.v, k) }

  ghost function RowsTotal(rows: seq<Row>, k: Metric): int { SeqSum(rows, RowGauge(k)) }

  lemma {:induction false} ListTotal(s: seq<Keyed>, m: map<AggKey, AggVal>, k: Metric)
    requires Lists(s, Items(m))
    ensures SeqSum(s, KeyedGauge(k)) == CellTotal(m, k)
    decreases |s|
  {
    ListLength(s, Items(m));
    if s == [] {
      ItemsEmpty(m);
    } else {
      var x := s[|s| - 1];
      assert x in s;
      MapSumRemove(m, Gauge(k), x.k);
      ListButLast(s, Items(m));
      ItemsMinus(m, x);
      ListTotal(s[..|s| - 1], m - {x.k}, k);
    }
  }

  lemma ItemsEmpty(m: map<AggKey, AggVal>)
    ensures m == map[] || |Items(m)| > 0
  {
    if m != map[] {
      var k :| k in m;
      assert Keyed(k, m[k]) in Items(m);
    }
  }

  lemma ItemsMinus(m: map<AggKey, AggVal>, x: Keyed)
    requires x in Items(m)
    ensures Items(m - {x.k}) == Items(m) - {x}
  {
    forall y
      ensures y in Items(m - {x.k}) <==> y in Items(m) - {x}
    {
      if y in Items(m) && y.k != x.k {
        assert y.k in m - {x.k};
      }
    }
  }

  lemma {:induction false} FoldedTotal(other: map<PairKey, AggVal>, folded: seq<Keyed>, k: Metric)
    ensures Adds(CellTotal(other, k), SeqSum(folded, KeyedGauge(k)), CellTotal(FoldedOther(other, folded), k))
  {
    if folded == [] {
      MapSumNonNegative(other, Gauge(k));
    } else {
      var x, rest := folded[|folded| - 1], folded[..|folded| - 1];
      FoldedTotal(other, rest, k);
      var o := FoldedOther(other, rest);
      CreditTotal(o, OtherTarget(o, PairOf(x.k)), x.v, k);
    }
  }

  lemma {:induction false} KeptRowsTotal(kept: seq<Keyed>, k: Metric)
    ensures RowsTotal(KeptRows(kept), k) == SeqSum(kept, KeyedGauge(k))
  {
    if kept != [] {
      var x := kept[|kept| - 1];
      KeptRowsTotal(kept[..|kept| - 1], k);
      SeqSumLast(KeptRows(kept[..|kept| - 1]), Conversation(x.k, x.v), RowGauge(k));
    }
  }

  lemma {:induction false} OtherRowsTotal(other: map<PairKey, AggVal>, all: map<PairKey, AggVal>, pairs: seq<PairKey>, k: Metric)
    requires Lists(pairs, other.Keys) && (forall p :: p in other ==> p in all && all[p] == other[p])
    requires forall p :: p in pairs ==> p in all
    ensures RowsTotal(OtherRows(all, pairs), k) == CellTotal(other, k)
    decreases |pairs|
  {
    ListLength(pairs, other.Keys);
    if pairs == [] {
      assert other == map[];
    } else {
      var p, rest := pairs[|pairs| - 1], pairs[..|pairs| - 1];
      assert p in pairs;
      MapSumRemove(other, Gauge(k), p);
      ListButLast(pairs, other.Keys);
      assert (other - {p}).Keys == other.Keys - {p};
      OtherRowsTotal(other - {p}, all, rest, k);
      SeqSumLast(OtherRows(all, rest), Rest(p, all[p]), RowGauge(k));
      assert OtherRows(all, rest) + [] == OtherRows(all, rest);
    }
  }

  /** The rows of a flushed minute hold exactly what the minute held; where folding
      saturates a counter they hold less, never more. */
  lemma FlushConserves(mm: Minute, topN: nat, maxRows: nat, perPair: set<Keyed>, kept: set<Keyed>, c: Cut,
                       rows: seq<Row>, meta: Meta, k: Metric)
    requires IsCut(mm, topN, maxRows, perPair, kept, c) && IsFlushed(mm, c, rows, meta)
    ensures 0 <= RowsTotal(rows, k) <= MinuteTotal(mm, k)
    ensures MinuteTotal(mm, k) <= MAX_INT64 ==> RowsTotal(rows, k) == MinuteTotal(mm, k)
  {
    hide IsCut, Items, FoldedOther, KeptRows, OtherRows, SeqSum, CellTotal;
    var other := FoldedOther(mm.other, c.folded);
    CutLists(mm, topN, maxRows, perPair, kept, c);
    ListTotal(c.kept + c.folded, mm.keys, k);
    SeqSumConcat(c.kept, c.folded, KeyedGauge(k));
    FoldedTotal(mm.other, c.folded, k);
    KeptRowsTotal(c.kept, k);
    OtherRowsTotal(other, other, c.pairs, k);
    SeqSumConcat(KeptRows(c.kept), OtherRows(other, c.pairs), RowGauge(k));
    KeyedNonNegative(c.kept, k);
  }

  /** rows and meta are a result of flushing mm. */
  ghost predicate IsFlushResult(mm: Minute, topN: nat, maxRows: nat, rows: seq<Row>, meta: Meta) {
    exists perPair: set<Keyed>, kept: set<Keyed>, c: Cut ::
      IsCut(mm, topN, maxRows, perPair, kept, c) && IsFlushed(mm, c, rows, meta)
  }

  /** Below saturation the rows sum to the bytes and the records of their meta row. */
  lemma RowsMatchMeta(mm: Minute, topN: nat, maxRows: nat, rows: seq<Row>, meta: Meta)
    requires MetaAgrees(mm) && IsFlushResult(mm, topN, maxRows, rows, meta) && meta.Meta?
    ensures meta.bytes < MAX_INT64 ==> RowsTotal(rows, Bytes) == meta.bytes
    ensures meta.records <= MAX_INT64 ==> RowsTotal(rows, Flows) == meta.records
  {
    FlushKeepsTotal(mm, topN, maxRows, rows, meta, Bytes);
    FlushKeepsTotal(mm, topN, maxRows, rows, meta, Flows);
  }

  lemma FlushKeepsTotal(mm: Minute, topN: nat, maxRows: nat, rows: seq<Row>, meta: Meta, k: Metric)
    requires IsFlushResult(mm, topN, maxRows, rows, meta)
    ensures 0 <= RowsTotal(rows, k) <= MinuteTotal(mm, k)
    ensures MinuteTotal(mm, k) <= MAX_INT64 ==> RowsTotal(rows, k) == MinuteTotal(mm, k)
  {
    var perPair: set<Keyed>, kept: set<Keyed>, c: Cut :|
      IsCut(mm, topN, maxRows, perPair, kept, c) && IsFlushed(mm, c, rows, meta);
    FlushConserves(mm, topN, maxRows, perPair, kept, c, rows, meta, k);
  }

  lemma {:induction false} KeyedNonNegative(s: seq<Keyed>, k: Metric)
    ensures 0 <= SeqSum(s, KeyedGauge(k))
  {
    if s != [] {
      KeyedNonNegative(s[..|s| - 1], k);
    }
  }

  // ---------- totals pair by pair ----------

  function PairGauge(p: PairKey, k: Metric): Keyed -> int {
    (x: Keyed) => if PairOf(x.k) == p then Of(x.v, k) else 0
  }

  function RowPairGauge(p: PairKey, k: Metric): Row -> int {
    (r: Row) => if r.Pair() == p then Of(r.v, k) else 0
  }

  function At(other: map<PairKey, AggVal>, p: PairKey, k: Metric): int {
    if p in other then Of(other[p], k) else 0
  }

  function PairsOf(s: seq<Keyed>): set<PairKey> { set x | x in s :: PairOf(x.k) }

  /** Every pair with a row, before or because of the fold. */
  function AllPairs(other: map<PairKey, AggVal>, s: seq<Keyed>): set<PairKey> { other.Keys + PairsOf(s) }

  /** Every addition reaches the row of its own pair. */
  ghost predicate Straight(other: map<PairKey, AggVal>, folded: seq<Keyed>) {
    folded == [] ||
    (var rest, q := folded[..|folded| - 1], PairOf(folded[|folded| - 1].k);
     Straight(other, rest) && OtherTarget(FoldedOther(other, rest), q) == q)
  }

  lemma OwnRow(o: map<PairKey, AggVal>, U: set<PairKey>, q: PairKey)
    requires |U| <= MAX_KEYS_PER_MINUTE && o.Keys <= U && q in U
    ensures OtherTarget(o, q) == q
  {
    if q !in o {
      Subset(o.Keys + {q}, U);
    }
  }

  lemma CreditedAt(o: map<PairKey, AggVal>, q: PairKey, v: AggVal, p: PairKey, k: Metric)
    ensures At(Credit(o, q, v), p, k) == if p == q then Min(MAX_INT64, At(o, p, k) + Of(v, k)) else At(o, p, k)
  {
  }

  lemma FoldStep(other: map<PairKey, AggVal>, folded: seq<Keyed>, p: PairKey, k: Metric)
    requires folded != []
    ensures var x, rest := folded[|folded| - 1], folded[..|folded| - 1];
      && FoldedOther(other, folded) == AddOther(FoldedOther(other, rest), PairOf(x.k), x.v)
      && SeqSum(folded, PairGauge(p, k)) == SeqSum(rest, PairGauge(p, k)) + if PairOf(x.k) == p then Of(x.v, k) else 0
  {
  }

  lemma FoldNone(other: map<PairKey, AggVal>, p: PairKey, k: Metric)
    ensures FoldedOther(other, []) == other && SeqSum([], PairGauge(p, k)) == 0
  {
  }

  lemma PairsMore(s: seq<Keyed>, x: Keyed)
    ensures PairsOf(s + [x]) == PairsOf(s) + {PairOf(x.k)}
  {
  }

  lemma Unfold(other: map<PairKey, AggVal>, folded: seq<Keyed>)
    requires folded != []
    ensures var x, rest := folded[|folded| - 1], folded[..|folded| - 1];
      && folded == rest + [x]
      && PairsOf(folded) == PairsOf(rest) + {PairOf(x.k)}
      && FoldedOther(other, folded) == AddOther(FoldedOther(other, rest), PairOf(x.k), x.v)
      && (Straight(other, folded) <==>
            Straight(other, rest) && OtherTarget(FoldedOther(other, rest), PairOf(x.k)) == PairOf(x.k))
  {
    PairsMore(folded[..|folded| - 1], folded[|folded| - 1]);
    assert folded == folded[..|folded| - 1] + [folded[|folded| - 1]];
  }

  lemma {:induction false} StraightKeys(other: map<PairKey, AggVal>, folded: seq<Keyed>)
    requires Straight(other, folded)
    ensures FoldedOther(other, folded).Keys == AllPairs(other, folded)
    decreases |folded|
  {
    if folded != [] {
      hide Straight, OtherTarget;
      Unfold(other, folded);
      StraightKeys(other, folded[..|folded| - 1]);
    }
  }

  lemma {:induction false} StraightAt(other: map<PairKey, AggVal>, folded: seq<Keyed>, p: PairKey, k: Metric)
    requires Straight(other, folded)
    ensures At(FoldedOther(other, folded), p, k) == Min(MAX_INT64, At(other, p, k) + SeqSum(folded, PairGauge(p, k)))
    decreases |folded|
  {
    hide FoldedOther, SeqSum;
    if folded == [] {
      FoldNone(other, p, k);
    } else {
      hide OtherTarget, Credit, At;
      var x, rest := folded[|folded| - 1], folded[..|folded| - 1];
      FoldStep(other, folded, p, k);
      StraightAt(other, rest, p, k);
      CreditedAt(FoldedOther(other, rest), PairOf(x.k), x.v, p, k);
      PairNonNegative(rest, p, k);
    }
  }

  lemma {:induction false} FitsStraight(other: map<PairKey, AggVal>, folded: seq<Keyed>)
    requires |AllPairs(other, folded)| <= MAX_KEYS_PER_MINUTE
    ensures Straight(other, folded)
    decreases |folded|
  {
    if folded != [] {
      hide Straight, OtherTarget, FoldedOther;
      var rest := folded[..|folded| - 1];
      Unfold(other, folded);
      Subset(AllPairs(other, rest), AllPairs(other, folded));
      FitsStraight(other, rest);
      StraightKeys(other, rest);
      OwnRow(FoldedOther(other, rest), AllPairs(other, folded), PairOf(folded[|folded| - 1].k));
    }
  }

  ghost predicate NoneEmpty(s: seq<Keyed>) { forall x :: x in s ==> x.v != NOTHING }

  lemma SamePairs(folded: seq<Keyed>, folded': seq<Keyed>)
    requires multiset(folded) == multiset(folded')
    ensures PairsOf(folded) == PairsOf(folded') && (NoneEmpty(folded) ==> NoneEmpty(folded'))
  {
    forall x
      ensures x in folded <==> x in folded'
    {
      assert x in folded <==> x in multiset(folded);
      assert x in folded' <==> x in multiset(folded');
    }
  }

  lemma FoldOrderFreeAt(other: map<PairKey, AggVal>, folded: seq<Keyed>, folded': seq<Keyed>, p: PairKey, k: Metric)
    requires multiset(folded) == multiset(folded') && Straight(other, folded) && Straight(other, folded')
    ensures At(FoldedOther(other, folded), p, k) == At(FoldedOther(other, folded'), p, k)
  {
    hide FoldedOther, Straight, At, SeqSum;
    StraightAt(other, folded, p, k);
    StraightAt(other, folded', p, k);
    SeqSumPermute(folded, folded', PairGauge(p, k));
  }

  lemma SameCells(o: map<PairKey, AggVal>, o': map<PairKey, AggVal>)
    requires o.Keys == o'.Keys && forall p, k :: At(o, p, k) == At(o', p, k)
    ensures o == o'
  {
    forall p | p in o
      ensures o[p] == o'[p]
    {
      assert At(o, p, Bytes) == At(o', p, Bytes) && At(o, p, Packets) == At(o', p, Packets)
          && At(o, p, Flows) == At(o', p, Flows);
    }
  }

  /** With room for every pair, the folded table does not depend on the order of the fold. */
  lemma FoldOrderFree(other: map<PairKey, AggVal>, folded: seq<Keyed>, folded': seq<Keyed>)
    requires multiset(folded) == multiset(folded') && |AllPairs(other, folded)| <= MAX_KEYS_PER_MINUTE
    ensures FoldedOther(other, folded) == FoldedOther(other, folded')
  {
    hide FoldedOther, Straight, At, PairsOf;
    SamePairs(folded, folded');
    FitsStraight(other, folded);
    FitsStraight(other, folded');
    StraightKeys(other, folded);
    StraightKeys(other, folded');
    forall p, k
      ensures At(FoldedOther(other, folded), p, k) == At(FoldedOther(other, folded'), p, k)
    {
      FoldOrderFreeAt(other, folded, folded', p, k);
    }
    SameCells(FoldedOther(other, folded), FoldedOther(other, folded'));
  }

  lemma NoPairTies(S: set<PairKey>)
    ensures NoTies(S, ByPair)
  {
  }

  /** With room for every pair, the whole result of a flush is independent of the order the
      minute's tables are walked in. */
  lemma FlushOrderFree(mm: Minute, topN: nat, maxRows: nat,
                       perPair: set<Keyed>, kept: set<Keyed>, c: Cut, rows: seq<Row>, meta: Meta,
                       perPair': set<Keyed>, kept': set<Keyed>, c': Cut, rows': seq<Row>, meta': Meta)
    requires IsCut(mm, topN, maxRows, perPair, kept, c) && IsFlushed(mm, c, rows, meta)
    requires IsCut(mm, topN, maxRows, perPair', kept', c') && IsFlushed(mm, c', rows', meta')
    requires |AllPairs(mm.other, c.folded)| <= MAX_KEYS_PER_MINUTE
    ensures rows == rows' && meta == meta'
  {
    CutUnique(mm, topN, maxRows, perPair, kept, c, perPair', kept', c');
    FoldOrderFree(mm.other, c.folded, c'.folded);
    NoPairTies(FoldedOther(mm.other, c.folded).Keys);
    SortedUnique(c.pairs, c'.pairs, FoldedOther(mm.other, c.folded).Keys, ByPair);
  }

  lemma {:induction false} KeptRowsOfPair(kept: seq<Keyed>, p: PairKey, k: Metric)
    ensures SeqSum(KeptRows(kept), RowPairGauge(p, k)) == SeqSum(kept, PairGauge(p, k))
  {
    if kept != [] {
      var x := kept[|kept| - 1];
      KeptRowsOfPair(kept[..|kept| - 1], p, k);
      SeqSumLast(KeptRows(kept[..|kept| - 1]), Conversation(x.k, x.v), RowPairGauge(p, k));
    }
  }

  lemma {:induction false} OtherRowsOfPair(other: map<PairKey, AggVal>, pairs: seq<PairKey>, S: set<PairKey>, p: PairKey, k: Metric)
    requires Lists(pairs, S) && (forall q :: q in pairs ==> q in other)
    ensures SeqSum(OtherRows(other, pairs), RowPairGauge(p, k)) == if p in pairs then Of(other[p], k) else 0
    decreases |pairs|
  {
    if pairs != [] {
      var q, rest := pairs[|pairs| - 1], pairs[..|pairs| - 1];
      ListButLast(pairs, S);
      ListLength(pairs, S);
      ListLength(rest, S - {q});
      OtherRowsOfPair(other, rest, S - {q}, p, k);
      SeqSumLast(OtherRows(other, rest), Rest(q, other[q]), RowPairGauge(p, k));
      assert OtherRows(other, rest) + [] == OtherRows(other, rest);
    }
  }

  /** A cut lists every conversation once, kept or folded. */
  lemma CutLists(mm: Minute, topN: nat, maxRows: nat, perPair: set<Keyed>, kept: set<Keyed>, c: Cut)
    requires IsCut(mm, topN, maxRows, perPair, kept, c)
    ensures Lists(c.kept + c.folded, Items(mm.keys))
    ensures Lists(c.pairs, FoldedOther(mm.other, c.folded).Keys)
  {
    hide Items, FoldedOther;
    ListJoin(c.kept, kept, c.folded, Items(mm.keys) - kept);
    assert kept + (Items(mm.keys) - kept) == Items(mm.keys);
  }

  lemma {:induction false} PairNonNegative(s: seq<Keyed>, p: PairKey, k: Metric)
    ensures 0 <= SeqSum(s, PairGauge(p, k))
  {
    if s != [] {
      PairNonNegative(s[..|s| - 1], p, k);
    }
  }

  // ---------- the implementation ----------

  /** Conversations listed by interface pair. */
  ghost predicate Grouped(byPair: map<PairKey, seq<Keyed>>, S: set<Keyed>) {
    && (forall p :: p in byPair ==> Lists(byPair[p], OfPair(S, p)))
    && (forall x :: x in S ==> PairOf(x.k) in byPair)
  }

  lemma OfPairMore(S: set<Keyed>, x: Keyed, q: PairKey)
    ensures OfPair(S + {x}, q) == if PairOf(x.k) == q then OfPair(S, q) + {x} else OfPair(S, q)
  {
  }

  lemma ListOneMore(s: seq<Keyed>, S: set<Keyed>, x: Keyed)
    requires Lists(s, S) && x !in S
    ensures Lists(s + [x], S + {x})
  {
  }

  lemma NoneListed()
    ensures Lists<Keyed>([], {})
  {
  }

  lemma GroupStep(byPair: map<PairKey, seq<Keyed>>, S: set<Keyed>, x: Keyed)
    requires Grouped(byPair, S) && x !in S
    ensures var p := PairOf(x.k);
      Grouped(byPair[p := (if p in byPair then byPair[p] else []) + [x]], S + {x})
  {
    var p := PairOf(x.k);
    var byPair' := byPair[p := (if p in byPair then byPair[p] else []) + [x]];
    forall q | q in byPair'
      ensures Lists(byPair'[q], OfPair(S + {x}, q))
    {
      hide Lists;
      OfPairMore(S, x, q);
      if q == p {
        if p in byPair {
          ListOneMore(byPair[p], OfPair(S, p), x);
        } else {
          assert OfPair(S, p) == {};
          NoneListed();
          ListOneMore([], {}, x);
        }
      }
    }
  }

  method GroupByPair(keys: map<AggKey, AggVal>) returns (byPair: map<PairKey, seq<Keyed>>)
    ensures Grouped(byPair, Items(keys))
  {
    byPair := map[];
    var todo := Items(keys);
    while todo != {}
      invariant todo <= Items(keys) && Grouped(byPair, Items(keys) - todo)
    {
      hide Items, Grouped;
      var x :| x in todo;
      var p := PairOf(x.k);
      GroupStep(byPair, Items(keys) - todo, x);
      assert Items(keys) - (todo - {x}) == Items(keys) - todo + {x};
      byPair := byPair[p := (if p in byPair then byPair[p] else []) + [x]];
      todo := todo - {x};
    }
    assert Items(keys) - todo == Items(keys);
  }

  lemma {:induction false} FoldedConcat(other: map<PairKey, AggVal>, a: seq<Keyed>, b: seq<Keyed>)
    ensures FoldedOther(other, a + b) == FoldedOther(FoldedOther(other, a), b)
  {
    if b == [] {
      assert a + b == a;
    } else {
      assert (a + b)[..|a + b| - 1] == a + b[..|b| - 1];
      FoldedConcat(other, a, b[..|b| - 1]);
    }
  }

  method FoldInto(other: map<PairKey, AggVal>, list: seq<Keyed>) returns (r: map<PairKey, AggVal>)
    ensures r == FoldedOther(other, list)
  {
    r := other;
    for i := 0 to |list|
      invariant r == FoldedOther(other, list[..i])
    {
      assert list[..i + 1][..i] == list[..i];
      r := AddOther(r, PairOf(list[i].k), list[i].v);
    }
    assert list[..|list|] == list;
  }

  /** What has been decided after the pairs of `done`. */
  ghost predicate CutSoFar(done: set<Keyed>, perPair: set<Keyed>, topN: nat) {
    perPair <= done && forall p :: IsTop(OfPair(done, p), OfPair(perPair, p), topN, ByBytesThenKey)
  }

  lemma CutPairStep(done: set<Keyed>, perPair: set<Keyed>, topN: nat, here: set<Keyed>, t: set<Keyed>, p: PairKey)
    requires CutSoFar(done, perPair, topN) && IsTop(here, t, topN, ByBytesThenKey)
    requires OfPair(done, p) == {} && OfPair(here, p) == here
    ensures CutSoFar(done + here, perPair + t, topN) && here !! done
  {
    assert forall x :: x in here ==> x in OfPair(here, p);
    assert here !! done by {
      assert forall x :: x in here && x in done ==> x in OfPair(done, p);
    }
    assert OfPair(done + here, p) == here && OfPair(perPair + t, p) == t by {
      assert forall x :: x in perPair && PairOf(x.k) == p ==> x in OfPair(done, p);
    }
    forall q | q != p
      ensures OfPair(done + here, q) == OfPair(done, q) && OfPair(perPair + t, q) == OfPair(perPair, q)
    {
    }
  }

  /** Sorts conversations and cuts them after the first n. */
  method SortAndCut(list: seq<Keyed>, n: nat, ghost S: set<Keyed>)
    returns (head: seq<Keyed>, tail: seq<Keyed>, ghost T: set<Keyed>)
    requires Lists(list, S)
    ensures IsTop(S, T, n, ByBytesThenKey)
    ensures Lists(head, T) && Lists(tail, S - T) && SortedBy(head, ByBytesThenKey)
  {
    var sorted := SortBy(list, ByBytesThenKey);
    SortPermutes(list, ByBytesThenKey);
    ByBytesThenKeyOrders();
    SortSorts(list, ByBytesThenKey);
    T := SortedPrefixIsTop(sorted, S, n, ByBytesThenKey);
    head, tail := sorted[..Least(n, |sorted|)], sorted[Least(n, |sorted|)..];
  }

  /** The conversations of the pairs no longer to do. */
  function DoneItems(S: set<Keyed>, todo: set<PairKey>): set<Keyed> { set x | x in S && PairOf(x.k) !in todo }

  lemma DoneStep(S: set<Keyed>, todo: set<PairKey>, p: PairKey)
    requires p in todo
    ensures DoneItems(S, todo - {p}) == DoneItems(S, todo) + OfPair(S, p)
    ensures OfPair(DoneItems(S, todo), p) == {} && OfPair(OfPair(S, p), p) == OfPair(S, p)
  {
  }

  lemma JoinCuts(done: set<Keyed>, perPair: set<Keyed>, here: set<Keyed>, t: set<Keyed>,
                 kept: seq<Keyed>, folded: seq<Keyed>, head: seq<Keyed>, tail: seq<Keyed>)
    requires perPair <= done && t <= here && here !! done
    requires Lists(kept, perPair) && Lists(folded, done - perPair) && Lists(head, t) && Lists(tail, here - t)
    ensures Lists(kept + head, perPair + t) && Lists(folded + tail, done + here - (perPair + t))
  {
    ListJoin(kept, perPair, head, t);
    ListJoin(folded, done - perPair, tail, here - t);
    assert done - perPair + (here - t) == done + here - (perPair + t);
  }

  /** Keeps the top topN conversations of every pair and folds the rest. */
  method CutPairs(mm: Minute, topN: nat)
    returns (kept: seq<Keyed>, other: map<PairKey, AggVal>, ghost folded: seq<Keyed>, ghost perPair: set<Keyed>)
    ensures CutSoFar(Items(mm.keys), perPair, topN)
    ensures Lists(kept, perPair) && Lists(folded, Items(mm.keys) - perPair)
    ensures other == FoldedOther(mm.other, folded)
  {
    var byPair := GroupByPair(mm.keys);
    kept, folded, other := [], [], mm.other;
    perPair := {};
    var pairs := byPair.Keys;
    ghost var done := DoneItems(Items(mm.keys), pairs);
    assert done == {};
    assert forall p :: OfPair({}, p) == {};
    while pairs != {}
      invariant pairs <= byPair.Keys
      invariant done == DoneItems(Items(mm.keys), pairs)
      invariant CutSoFar(done, perPair, topN)
      invariant Lists(kept, perPair) && Lists(folded, done - perPair)
      invariant other == FoldedOther(mm.other, folded)
    {
      hide DoneItems, OfPair, Items, FoldedOther, IsTop, CutSoFar;
      var p :| p in pairs;
      DoneStep(Items(mm.keys), pairs, p);
      ghost var here := OfPair(Items(mm.keys), p);
      var head, tail;
      ghost var t;
      head, tail, t := SortAndCut(byPair[p], topN, here);
      CutPairStep(done, perPair, topN, here, t, p);
      JoinCuts(done, perPair, here, t, kept, folded, head, tail);
      FoldedConcat(mm.other, folded, tail);
      kept := kept + head;
      other := FoldInto(other, tail);
      folded, perPair, done, pairs := folded + tail, perPair + t, done + here, pairs - {p};
    }
    assert done == Items(mm.keys);
  }

  method RowsOfOther(other: map<PairKey, AggVal>, pairs: seq<PairKey>) returns (rows: seq<Row>)
    requires forall p :: p in pairs ==> p in other
    ensures rows == OtherRows(other, pairs)
  {
    rows := [];
    for i := 0 to |pairs|
      invariant rows == OtherRows(other, pairs[..i])
    {
      assert pairs[..i + 1][..i] == pairs[..i];
      var v := other[pairs[i]];
      if !(v.bytes == 0 && v.packets == 0 && v.flows == 0) {
        rows := rows + [Rest(pairs[i], v)];
      }
    }
    assert pairs[..|pairs|] == pairs;
  }

  method RowsOfKept(kept: seq<Keyed>) returns (rows: seq<Row>)
    ensures rows == KeptRows(kept)
  {
    rows := [];
    for i := 0 to |kept|
      invariant rows == KeptRows(kept[..i])
    {
      assert kept[..i + 1][..i] == kept[..i];
      rows := rows + [Conversation(kept[i].k, kept[i].v)];
    }
    assert kept[..|kept|] == kept;
  }

  method SortedPairs(other: map<PairKey, AggVal>) returns (pairs: seq<PairKey>)
    ensures Lists(pairs, other.Keys) && SortedBy(pairs, ByPair)
    ensures forall p :: p in pairs ==> p in other
  {
    var list := Enumerate(other.Keys);
    pairs := SortBy(list, ByPair);
    SortPermutes(list, ByPair);
    ByPairOrders();
    SortSorts(list, ByPair);
    ListLength(pairs, other.Keys);
  }

  /** Row r has bytes that passed interface i. */
  predicate Passed(r: Row, i: nat) { r.v.bytes > 0 && (r.Pair().inIf == i || r.Pair().outIf == i) }

  ghost predicate SomePassed(rows: seq<Row>, i: nat) { exists r :: r in rows && Passed(r, i) }

  lemma PassedMore(rows: seq<Row>, r: Row)
    ensures forall i :: SomePassed(rows + [r], i) <==> SomePassed(rows, i) || Passed(r, i)
  {
    assert forall x :: x in rows + [r] <==> x in rows || x == r;
  }

  /** The interfaces that passed bytes; index 0 stands for none. */
  method Interfaces(rows: seq<Row>) returns (ifaces: set<nat>)
    ensures forall i :: i in ifaces <==> i != 0 && SomePassed(rows, i)
  {
    ifaces := {};
    for n := 0 to |rows|
      invariant forall i :: i in ifaces <==> i != 0 && SomePassed(rows[..n], i)
    {
      hide SomePassed;
      var r := rows[n];
      assert rows[..n + 1] == rows[..n] + [r];
      PassedMore(rows[..n], r);
      if r.v.bytes > 0 {
        if r.Pair().inIf != 0 {
          ifaces := ifaces + {r.Pair().inIf};
        }
        if r.Pair().outIf != 0 {
          ifaces := ifaces + {r.Pair().outIf};
        }
      }
    }
    assert rows[..|rows|] == rows;
  }

  /** The rows and meta row of a flushed minute, and the interfaces its rows passed. */
  method Flush(mm: Minute, topN: nat, maxRows: nat)
    returns (rows: seq<Row>, meta: Meta, ifaces: set<nat>, ghost perPair: set<Keyed>, ghost top: set<Keyed>, ghost c: Cut)
    ensures IsCut(mm, topN, maxRows, perPair, top, c)
    ensures IsFlushed(mm, c, rows, meta)
    ensures forall i :: i in ifaces <==> i != 0 && SomePassed(rows, i)
  {
    hide Items, FoldedOther, IsTop, CutSoFar, KeptRows, OtherRows, Lists, SortedBy;
    var kept, other, tail;
    ghost var folded;
    kept, other, folded, perPair := CutPairs(mm, topN);
    kept, tail, top := SortAndCut(kept, maxRows, perPair);
    FoldedConcat(mm.other, folded, tail);
    other := FoldInto(other, tail);
    var pairs := SortedPairs(other);
    CutIs(mm, topN, maxRows, perPair, top, folded, kept, tail, pairs);
    c := Cut(kept, folded + tail, pairs);
    var keptRows := RowsOfKept(kept);
    var otherRows := RowsOfOther(other, pairs);
    rows := keptRows + otherRows;
    ifaces := Interfaces(rows);
    meta := if mm.alive || |rows| > 0
            then Meta(mm.dgrams, mm.records, mm.bytes, Max(mm.sampling, 1), mm.overflow, mm.late)
            else NoMeta;
  }

  lemma CutIs(mm: Minute, topN: nat, maxRows: nat, perPair: set<Keyed>, top: set<Keyed>, folded: seq<Keyed>,
              kept: seq<Keyed>, tail: seq<Keyed>, pairs: seq<PairKey>)
    requires CutSoFar(Items(mm.keys), perPair, topN) && Lists(folded, Items(mm.keys) - perPair)
    requires IsTop(perPair, top, maxRows, ByBytesThenKey)
    requires Lists(kept, top) && Lists(tail, perPair - top) && SortedBy(kept, ByBytesThenKey)
    requires Lists(pairs, FoldedOther(mm.other, folded + tail).Keys) && SortedBy(pairs, ByPair)
    ensures IsCut(mm, topN, maxRows, perPair, top, Cut(kept, folded + tail, pairs))
  {
    hide Items, FoldedOther, SortedBy;
    ListJoin(folded, Items(mm.keys) - perPair, tail, perPair - top);
    assert Items(mm.keys) - perPair + (perPair - top) == Items(mm.keys) - top;
  }
}
