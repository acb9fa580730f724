/** When a flushed minute's totals are right pair by pair: the table of other rows is bounded,
    and what finds no room goes to the catch-all pair (backend/internal/flow/aggregate.go:65-78,
    286-308). */
module FlowPairs {
  import opened Arith
  import opened Sums
  import opened Sorting
  import opened TopN
  import opened FlowAggregate
  import opened FlowFlush

  function CatchAll(): PairKey { PairKey(0, 0) }

  /** The pairs of a fold that need a row of their own: the catch-all pair always has one. */
  function NewPairs(other: map<PairKey, AggVal>, s: seq<Keyed>): set<PairKey> {
    PairsOf(s) - other.Keys - {CatchAll()}
  }

  /** Below saturation: every pair holds what it held and what is folded from it. */
  ghost predicate Exact(other: map<PairKey, AggVal>, folded: seq<Keyed>) {
    forall p, k :: At(FoldedOther(other, folded), p, k) == At(other, p, k) + SeqSum(folded, PairGauge(p, k))
  }

  ghost predicate Unsaturated(other: map<PairKey, AggVal>, folded: seq<Keyed>) {
    forall p, k :: At(other, p, k) + SeqSum(folded, PairGauge(p, k)) <= MAX_INT64
  }

  /** The first fold of the catch-all pair comes after every new pair has its row. */
  ghost predicate CatchAllLast(other: map<PairKey, AggVal>, folded: seq<Keyed>) {
    && CatchAll() !in other
    && exists n :: 0 <= n < |folded| && IsFirstCatchAll(folded, n) && NewPairs(other, folded[..n]) == NewPairs(other, folded)
  }

  ghost predicate IsFirstCatchAll(folded: seq<Keyed>, n: nat)
    requires n < |folded|
  {
    PairOf(folded[n].k) == CatchAll() && CatchAll() !in PairsOf(folded[..n])
  }

  /** No pair is new, or all pairs fit, or only the catch-all pair does not and comes last. */
  ghost predicate Room(other: map<PairKey, AggVal>, folded: seq<Keyed>) {
    || NewPairs(other, folded) == {}
    || |AllPairs(other, folded)| <= MAX_KEYS_PER_MINUTE
    || (|AllPairs(other, folded)| == MAX_KEYS_PER_MINUTE + 1 && CatchAllLast(other, folded))
  }

  // ---------- folds that redirect something ----------

  lemma {:induction false} KeysStay(other: map<PairKey, AggVal>, folded: seq<Keyed>)
    ensures other.Keys <= FoldedOther(other, folded).Keys
    ensures |other| <= |FoldedOther(other, folded)|
    decreases |folded|
  {
    if folded != [] {
      KeysStay(other, folded[..|folded| - 1]);
    }
    Subset(other.Keys, FoldedOther(other, folded).Keys);
  }

  /** Once an addition is redirected its pair never gets a row: the table stays full. */
  lemma {:induction false} LostPair(other: map<PairKey, AggVal>, folded: seq<Keyed>) returns (q: PairKey)
    requires !Straight(other, folded)
    ensures q in NewPairs(other, folded) && q !in FoldedOther(other, folded)
    ensures MAX_KEYS_PER_MINUTE <= |FoldedOther(other, folded)|
    decreases |folded|
  {
    var x, rest := folded[|folded| - 1], folded[..|folded| - 1];
    var o := FoldedOther(other, rest);
    Unfold(other, folded);
    KeysStay(other, rest);
    KeysStay(o, [x]);
    assert FoldedOther(o, [x]) == AddOther(o, PairOf(x.k), x.v) by {
      assert [x][..0] == [];
    }
    if Straight(other, rest) {
      q := PairOf(x.k);
    } else {
      q := LostPair(other, rest);
    }
  }

  lemma PairSumPositive(folded: seq<Keyed>, x: Keyed, k: Metric)
    requires x in folded && Of(x.v, k) > 0
    ensures SeqSum(folded, PairGauge(PairOf(x.k), k)) > 0
    decreases |folded|
  {
    var y, rest := folded[|folded| - 1], folded[..|folded| - 1];
    var p := PairOf(x.k);
    PairNonNegative(rest, p, k);
    if y != x {
      assert x in rest;
      PairSumPositive(rest, x, k);
    }
  }

  /** Below saturation a fold is exact pair by pair exactly when it redirects nothing. */
  lemma ExactIffStraight(other: map<PairKey, AggVal>, folded: seq<Keyed>)
    requires Unsaturated(other, folded) && NoneEmpty(folded)
    ensures Exact(other, folded) <==> Straight(other, folded)
  {
    hide Straight, FoldedOther, SeqSum;
    if Straight(other, folded) {
      forall p, k
        ensures At(FoldedOther(other, folded), p, k) == At(other, p, k) + SeqSum(folded, PairGauge(p, k))
      {
        StraightAt(other, folded, p, k);
      }
    } else {
      var q := LostPair(other, folded);
      var x :| x in folded && PairOf(x.k) == q;
      var k := if x.v.bytes > 0 then Bytes else if x.v.packets > 0 then Packets else Flows;
      assert Of(x.v, k) > 0;
      PairSumPositive(folded, x, k);
      assert At(FoldedOther(other, folded), q, k) != At(other, q, k) + SeqSum(folded, PairGauge(q, k));
    }
  }

  // ---------- which folds redirect nothing ----------

  lemma {:induction false} KnownStraight(other: map<PairKey, AggVal>, folded: seq<Keyed>)
    requires NewPairs(other, folded) == {}
    ensures Straight(other, folded)
    decreases |folded|
  {
    if folded != [] {
      hide Straight, FoldedOther;
      var x, rest := folded[|folded| - 1], folded[..|folded| - 1];
      Unfold(other, folded);
      assert NewPairs(other, rest) == {};
      KnownStraight(other, rest);
      KeysStay(other, rest);
      assert PairOf(x.k) in PairsOf(folded);
    }
  }

  lemma {:induction false} StraightConcat(other: map<PairKey, AggVal>, a: seq<Keyed>, b: seq<Keyed>)
    requires Straight(other, a) && Straight(FoldedOther(other, a), b)
    ensures Straight(other, a + b)
    decreases |b|
  {
    if b == [] {
      assert a + b == a;
    } else {
      hide Straight, FoldedOther, OtherTarget;
      var rest := b[..|b| - 1];
      Unfold(FoldedOther(other, a), b);
      StraightConcat(other, a, rest);
      FoldedConcat(other, a, rest);
      assert (a + b)[..|a + b| - 1] == a + rest;
      Unfold(other, a + b);
    }
  }

  /** What is left to fold once the catch-all pair comes: known pairs and the catch-all pair. */
  lemma AfterCatchAll(other: map<PairKey, AggVal>, folded: seq<Keyed>, n: nat)
    requires n < |folded| && IsFirstCatchAll(folded, n) && CatchAll() !in other
    requires NewPairs(other, folded[..n]) == NewPairs(other, folded)
    ensures AllPairs(other, folded) == AllPairs(other, folded[..n]) + {CatchAll()}
    ensures CatchAll() !in AllPairs(other, folded[..n])
    ensures PairsOf(folded[n..]) - AllPairs(other, folded[..n]) - {CatchAll()} == {}
  {
    var s, t := folded[..n], folded[n..];
    forall p
      ensures p in PairsOf(folded) <==> p in PairsOf(s) || p in PairsOf(t)
    {
      assert folded == s + t;
    }
    assert t[0] == folded[n] && t[0] in t;
    assert CatchAll() in PairsOf(t);
    assert forall p :: p in PairsOf(folded) && p !in other && p != CatchAll() ==> p in NewPairs(other, s);
  }

  lemma LastStraight(other: map<PairKey, AggVal>, folded: seq<Keyed>)
    requires |AllPairs(other, folded)| == MAX_KEYS_PER_MINUTE + 1 && CatchAllLast(other, folded)
    ensures Straight(other, folded)
  {
    hide Straight, FoldedOther, AllPairs, PairsOf, IsFirstCatchAll;
    var n :| 0 <= n < |folded| && IsFirstCatchAll(folded, n) && NewPairs(other, folded[..n]) == NewPairs(other, folded);
    var s, t := folded[..n], folded[n..];
    AfterCatchAll(other, folded, n);
    FitsStraight(other, s);
    StraightKeys(other, s);
    KnownStraight(FoldedOther(other, s), t);
    StraightConcat(other, s, t);
    assert folded == s + t;
  }

  lemma CatchAllStays(other: map<PairKey, AggVal>, rest: seq<Keyed>, x: Keyed)
    requires CatchAllLast(other, rest) && PairOf(x.k) in AllPairs(other, rest)
    ensures CatchAllLast(other, rest + [x])
  {
    var n :| 0 <= n < |rest| && IsFirstCatchAll(rest, n) && NewPairs(other, rest[..n]) == NewPairs(other, rest);
    PairsMore(rest, x);
    assert (rest + [x])[..n] == rest[..n];
    assert IsFirstCatchAll(rest + [x], n);
  }

  lemma RoomStays(other: map<PairKey, AggVal>, rest: seq<Keyed>, x: Keyed)
    requires Room(other, rest) && PairOf(x.k) in AllPairs(other, rest)
    ensures Room(other, rest + [x])
  {
    hide CatchAllLast, PairsOf;
    PairsMore(rest, x);
    assert AllPairs(other, rest + [x]) == AllPairs(other, rest);
    assert NewPairs(other, rest + [x]) == NewPairs(other, rest);
    if CatchAllLast(other, rest) {
      CatchAllStays(other, rest, x);
    }
  }

  lemma RoomComes(other: map<PairKey, AggVal>, rest: seq<Keyed>, x: Keyed)
    requires Room(other, rest) && PairOf(x.k) !in AllPairs(other, rest)
    requires |AllPairs(other, rest)| < MAX_KEYS_PER_MINUTE || PairOf(x.k) == CatchAll()
    ensures Room(other, rest + [x])
  {
    hide CatchAllLast, PairsOf;
    PairsMore(rest, x);
    assert AllPairs(other, rest + [x]) == AllPairs(other, rest) + {PairOf(x.k)};
    if PairOf(x.k) == CatchAll() {
      assert NewPairs(other, rest + [x]) == NewPairs(other, rest);
      CatchAllComes(other, rest, x);
    }
  }

  lemma CatchAllComes(other: map<PairKey, AggVal>, rest: seq<Keyed>, x: Keyed)
    requires PairOf(x.k) == CatchAll() && CatchAll() !in AllPairs(other, rest)
    ensures CatchAllLast(other, rest + [x]) && !CatchAllLast(other, rest)
  {
    PairsMore(rest, x);
    assert (rest + [x])[..|rest|] == rest;
    assert IsFirstCatchAll(rest + [x], |rest|);
    forall n | 0 <= n < |rest|
      ensures !IsFirstCatchAll(rest, n)
    {
      assert rest[n] in rest;
    }
  }

  lemma {:induction false} StraightRoom(other: map<PairKey, AggVal>, folded: seq<Keyed>)
    requires Straight(other, folded)
    ensures Room(other, folded)
    decreases |folded|
  {
    if folded != [] {
      hide Straight, FoldedOther, Room, AllPairs, PairsOf;
      var x, rest := folded[|folded| - 1], folded[..|folded| - 1];
      Unfold(other, folded);
      StraightRoom(other, rest);
      StraightKeys(other, rest);
      var o := FoldedOther(other, rest);
      assert |o| == |o.Keys|;
      if PairOf(x.k) in AllPairs(other, rest) {
        RoomStays(other, rest, x);
      } else {
        RoomComes(other, rest, x);
      }
    }
  }

  /** A fold redirects nothing exactly when there is room for it. */
  lemma StraightIffRoom(other: map<PairKey, AggVal>, folded: seq<Keyed>)
    ensures Straight(other, folded) <==> Room(other, folded)
  {
    hide Straight, CatchAllLast;
    if Straight(other, folded) {
      StraightRoom(other, folded);
    } else if NewPairs(other, folded) == {} {
      KnownStraight(other, folded);
    } else if |AllPairs(other, folded)| <= MAX_KEYS_PER_MINUTE {
      FitsStraight(other, folded);
    } else if Room(other, folded) {
      LastStraight(other, folded);
    }
  }

  /** Below saturation the totals of a fold are right pair by pair exactly when there is room. */
  lemma ExactIffRoom(other: map<PairKey, AggVal>, folded: seq<Keyed>)
    requires Unsaturated(other, folded) && NoneEmpty(folded)
    ensures Exact(other, folded) <==> Room(other, folded)
  {
    ExactIffStraight(other, folded);
    StraightIffRoom(other, folded);
  }

  // ---------- every order of folding ----------

  /** With a conversation of the catch-all pair in front, a full table has no room. */
  lemma CatchAllFirst(other: map<PairKey, AggVal>, folded: seq<Keyed>)
    requires folded != [] && PairOf(folded[0].k) == CatchAll()
    requires NewPairs(other, folded) != {} && |AllPairs(other, folded)| > MAX_KEYS_PER_MINUTE
    ensures !Room(other, folded)
  {
    forall n | 0 < n < |folded|
      ensures !IsFirstCatchAll(folded, n)
    {
      assert folded[..n][0] in folded[..n];
    }
    assert NewPairs(other, folded[..0]) == {};
  }

  /** A fold of the same conversations that has no room, when pairs are new and too many. */
  lemma WorstOrder(other: map<PairKey, AggVal>, folded: seq<Keyed>) returns (worst: seq<Keyed>)
    requires NewPairs(other, folded) != {} && |AllPairs(other, folded)| > MAX_KEYS_PER_MINUTE
    ensures multiset(worst) == multiset(folded) && !Room(other, worst)
  {
    if Room(other, folded) {
      hide PairsOf;
      var n :| 0 <= n < |folded| && IsFirstCatchAll(folded, n) && NewPairs(other, folded[..n]) == NewPairs(other, folded);
      worst := ToFront(folded, n);
      SamePairs(folded, worst);
      hide Room;
      CatchAllFirst(other, worst);
    } else {
      worst := folded;
    }
  }

  function ToFront(s: seq<Keyed>, n: nat): (t: seq<Keyed>)
    requires n < |s|
    ensures multiset(t) == multiset(s) && t != [] && t[0] == s[n]
  {
    assert s == s[..n] + [s[n]] + s[n + 1..];
    [s[n]] + s[..n] + s[n + 1..]
  }

  /** Every order of folding gives exact totals exactly when no pair is new or all fit. */
  lemma EveryOrder(other: map<PairKey, AggVal>, folded: seq<Keyed>)
    requires Unsaturated(other, folded) && NoneEmpty(folded)
    ensures (forall folded' :: multiset(folded') == multiset(folded) ==> Exact(other, folded')) <==>
            NewPairs(other, folded) == {} || |AllPairs(other, folded)| <= MAX_KEYS_PER_MINUTE
  {
    hide Exact, Room, Unsaturated;
    forall folded' | multiset(folded') == multiset(folded)
      ensures Exact(other, folded') <==> Room(other, folded')
      ensures PairsOf(folded') == PairsOf(folded)
    {
      SamePairs(folded, folded');
      SameUnsaturated(other, folded, folded');
      ExactIffRoom(other, folded');
    }
    if NewPairs(other, folded) == {} || |AllPairs(other, folded)| <= MAX_KEYS_PER_MINUTE {
      forall folded' | multiset(folded') == multiset(folded)
        ensures Room(other, folded')
      {
        RoomForAll(other, folded');
      }
    } else {
      var worst := WorstOrder(other, folded);
      assert !Exact(other, worst);
    }
  }

  lemma RoomForAll(other: map<PairKey, AggVal>, folded: seq<Keyed>)
    requires NewPairs(other, folded) == {} || |AllPairs(other, folded)| <= MAX_KEYS_PER_MINUTE
    ensures Room(other, folded)
  {
  }

  lemma SameUnsaturated(other: map<PairKey, AggVal>, folded: seq<Keyed>, folded': seq<Keyed>)
    requires multiset(folded) == multiset(folded') && Unsaturated(other, folded)
    ensures Unsaturated(other, folded')
  {
    forall p, k
      ensures At(other, p, k) + SeqSum(folded', PairGauge(p, k)) <= MAX_INT64
    {
      SeqSumPermute(folded, folded', PairGauge(p, k));
    }
  }

  // ---------- the rows of a flushed minute ----------

  /** What a minute holds for a pair; all lists its conversations. */
  ghost function HeldBy(mm: Minute, all: seq<Keyed>, p: PairKey, k: Metric): int {
    SeqSum(all, PairGauge(p, k)) + At(mm.other, p, k)
  }

  ghost predicate PairsExact(mm: Minute, all: seq<Keyed>, rows: seq<Row>) {
    forall p, k :: SeqSum(rows, RowPairGauge(p, k)) == HeldBy(mm, all, p, k)
  }

  ghost predicate BelowSaturation(mm: Minute, all: seq<Keyed>) {
    forall p, k :: HeldBy(mm, all, p, k) <= MAX_INT64
  }

  /** The rows of a pair: its kept conversations and its other row. */
  lemma RowsOfPair(mm: Minute, c: Cut, rows: seq<Row>, meta: Meta, p: PairKey, k: Metric)
    requires IsFlushed(mm, c, rows, meta) && Lists(c.pairs, FoldedOther(mm.other, c.folded).Keys)
    ensures SeqSum(rows, RowPairGauge(p, k)) ==
            SeqSum(c.kept, PairGauge(p, k)) + At(FoldedOther(mm.other, c.folded), p, k)
  {
    hide FoldedOther, KeptRows, OtherRows, SeqSum;
    var other := FoldedOther(mm.other, c.folded);
    KeptRowsOfPair(c.kept, p, k);
    ListLength(c.pairs, other.Keys);
    OtherRowsOfPair(other, c.pairs, other.Keys, p, k);
    SeqSumConcat(KeptRows(c.kept), OtherRows(other, c.pairs), RowPairGauge(p, k));
  }

  lemma HeldIs(mm: Minute, topN: nat, maxRows: nat, perPair: set<Keyed>, kept: set<Keyed>, c: Cut, all: seq<Keyed>,
               p: PairKey, k: Metric)
    requires IsCut(mm, topN, maxRows, perPair, kept, c) && Lists(all, Items(mm.keys))
    ensures HeldBy(mm, all, p, k) ==
            SeqSum(c.kept, PairGauge(p, k)) + SeqSum(c.folded, PairGauge(p, k)) + At(mm.other, p, k)
    ensures 0 <= SeqSum(c.kept, PairGauge(p, k)) && 0 <= SeqSum(c.folded, PairGauge(p, k))
  {
    hide IsCut, Items, SeqSum, Lists;
    CutLists(mm, topN, maxRows, perPair, kept, c);
    ListsAgree(all, c.kept + c.folded, Items(mm.keys));
    SeqSumPermute(all, c.kept + c.folded, PairGauge(p, k));
    SeqSumConcat(c.kept, c.folded, PairGauge(p, k));
    PairNonNegative(c.kept, p, k);
    PairNonNegative(c.folded, p, k);
  }

  lemma ListsAgree(a: seq<Keyed>, b: seq<Keyed>, S: set<Keyed>)
    requires Lists(a, S) && Lists(b, S)
    ensures multiset(a) == multiset(b)
  {
  }

  lemma FoldedBusy(mm: Minute, topN: nat, maxRows: nat, perPair: set<Keyed>, kept: set<Keyed>, c: Cut)
    requires IsCut(mm, topN, maxRows, perPair, kept, c) && NoneIdle(mm)
    ensures NoneEmpty(c.folded)
  {
    ListLength(c.folded, Items(mm.keys) - kept);
  }

  /** Below saturation the rows of a flushed minute are right pair by pair exactly when there
      was room for the pairs folded. */
  lemma FlushConservesPairs(mm: Minute, topN: nat, maxRows: nat, perPair: set<Keyed>, kept: set<Keyed>, c: Cut,
                            rows: seq<Row>, meta: Meta, all: seq<Keyed>)
    requires IsCut(mm, topN, maxRows, perPair, kept, c) && IsFlushed(mm, c, rows, meta)
    requires Lists(all, Items(mm.keys)) && BelowSaturation(mm, all) && NoneIdle(mm)
    ensures PairsExact(mm, all, rows) <==> Room(mm.other, c.folded)
  {
    hide IsCut, IsFlushed, Items, SeqSum, FoldedOther, Lists, Room, HeldBy, At;
    FoldedBusy(mm, topN, maxRows, perPair, kept, c);
    forall p, k
      ensures At(mm.other, p, k) + SeqSum(c.folded, PairGauge(p, k)) <= MAX_INT64
      ensures SeqSum(rows, RowPairGauge(p, k)) == HeldBy(mm, all, p, k) <==>
              At(FoldedOther(mm.other, c.folded), p, k) == At(mm.other, p, k) + SeqSum(c.folded, PairGauge(p, k))
    {
      CutLists(mm, topN, maxRows, perPair, kept, c);
      RowsOfPair(mm, c, rows, meta, p, k);
      HeldIs(mm, topN, maxRows, perPair, kept, c, all, p, k);
    }
    assert PairsExact(mm, all, rows) <==> Exact(mm.other, c.folded);
    ExactIffRoom(mm.other, c.folded);
  }

  /** Saturated or not, with room no pair's rows hold more than the pair did. */
  lemma FlushWithinPairs(mm: Minute, topN: nat, maxRows: nat, perPair: set<Keyed>, kept: set<Keyed>, c: Cut,
                         rows: seq<Row>, meta: Meta, all: seq<Keyed>, p: PairKey, k: Metric)
    requires IsCut(mm, topN, maxRows, perPair, kept, c) && IsFlushed(mm, c, rows, meta)
    requires Lists(all, Items(mm.keys)) && Room(mm.other, c.folded)
    ensures SeqSum(rows, RowPairGauge(p, k)) <= HeldBy(mm, all, p, k)
    ensures HeldBy(mm, all, p, k) <= MAX_INT64 ==> SeqSum(rows, RowPairGauge(p, k)) == HeldBy(mm, all, p, k)
  {
    hide IsCut, IsFlushed, Items, SeqSum, FoldedOther, Lists, Room, HeldBy, At, Straight;
    CutLists(mm, topN, maxRows, perPair, kept, c);
    RowsOfPair(mm, c, rows, meta, p, k);
    HeldIs(mm, topN, maxRows, perPair, kept, c, all, p, k);
    StraightIffRoom(mm.other, c.folded);
    StraightAt(mm.other, c.folded, p, k);
  }

  /** A flush of the same cut that folds in another order. */
  lemma FlushedSo(mm: Minute, topN: nat, maxRows: nat, perPair: set<Keyed>, kept: set<Keyed>, c: Cut, folded: seq<Keyed>)
    returns (c': Cut, rows: seq<Row>, meta: Meta)
    requires IsCut(mm, topN, maxRows, perPair, kept, c) && multiset(folded) == multiset(c.folded)
    ensures IsCut(mm, topN, maxRows, perPair, kept, c') && c'.folded == folded && IsFlushed(mm, c', rows, meta)
  {
    hide Items, FoldedOther, IsTop, KeptRows, OtherRows;
    var other := FoldedOther(mm.other, folded);
    var some := SomeOrder(other.Keys);
    var pairs := SortBy(some, ByPair);
    SortPermutes(some, ByPair);
    ByPairOrders();
    SortSorts(some, ByPair);
    ListLength(pairs, other.Keys);
    c' := Cut(c.kept, folded, pairs);
    rows := KeptRows(c.kept) + OtherRows(other, pairs);
    meta := if mm.alive || rows != []
            then Meta(mm.dgrams, mm.records, mm.bytes, Max(mm.sampling, 1), mm.overflow, mm.late)
            else NoMeta;
  }

  /**
   * Below saturation every flush of a minute, whatever the order its tables are walked in,
   * gives rows that are right pair by pair, exactly when no folded pair is new to the table
   * or the table's pairs and the folded ones are at most MAX_KEYS_PER_MINUTE.
   */
  lemma EveryFlushExact(mm: Minute, topN: nat, maxRows: nat, perPair: set<Keyed>, kept: set<Keyed>, c: Cut, all: seq<Keyed>)
    requires IsCut(mm, topN, maxRows, perPair, kept, c)
    requires Lists(all, Items(mm.keys)) && BelowSaturation(mm, all) && NoneIdle(mm)
    ensures (forall c', rows, meta :: IsCut(mm, topN, maxRows, perPair, kept, c') && IsFlushed(mm, c', rows, meta) ==>
                                      PairsExact(mm, all, rows)) <==>
            NewPairs(mm.other, c.folded) == {} || |AllPairs(mm.other, c.folded)| <= MAX_KEYS_PER_MINUTE
  {
    hide IsCut, IsFlushed, PairsExact, Items, Room, BelowSaturation;
    if NewPairs(mm.other, c.folded) == {} || |AllPairs(mm.other, c.folded)| <= MAX_KEYS_PER_MINUTE {
      forall c', rows, meta | IsCut(mm, topN, maxRows, perPair, kept, c') && IsFlushed(mm, c', rows, meta)
        ensures PairsExact(mm, all, rows)
      {
        SameFold(mm, topN, maxRows, perPair, kept, c, c');
        SamePairs(c.folded, c'.folded);
        RoomForAll(mm.other, c'.folded);
        FlushConservesPairs(mm, topN, maxRows, perPair, kept, c', rows, meta, all);
      }
    } else {
      var worst := WorstOrder(mm.other, c.folded);
      SamePairs(c.folded, worst);
      FoldedBusy(mm, topN, maxRows, perPair, kept, c);
      var c', rows, meta := FlushedSo(mm, topN, maxRows, perPair, kept, c, worst);
      FlushConservesPairs(mm, topN, maxRows, perPair, kept, c', rows, meta, all);
      assert !PairsExact(mm, all, rows);
    }
  }

  lemma SameFold(mm: Minute, topN: nat, maxRows: nat, perPair: set<Keyed>, kept: set<Keyed>, c: Cut, c': Cut)
    requires IsCut(mm, topN, maxRows, perPair, kept, c) && IsCut(mm, topN, maxRows, perPair, kept, c')
    ensures multiset(c.folded) == multiset(c'.folded)
  {
  }

  // ---------- a full table ----------

  /** What a full table has no row of its own for, and the catch-all pair. */
  function StrayGauge(other: map<PairKey, AggVal>, k: Metric): Keyed -> int {
    (x: Keyed) => if PairOf(x.k) in other && PairOf(x.k) != CatchAll() then 0 else Of(x.v, k)
  }

  lemma {:induction false} StrayNonNegative(other: map<PairKey, AggVal>, folded: seq<Keyed>, k: Metric)
    ensures 0 <= SeqSum(folded, StrayGauge(other, k))
    decreases |folded|
  {
    if folded != [] {
      StrayNonNegative(other, folded[..|folded| - 1], k);
    }
  }

  /** A full table gains no row but the catch-all pair's, which gets all that has no row. */
  lemma {:induction false} FullFold(other: map<PairKey, AggVal>, folded: seq<Keyed>, k: Metric)
    requires |other| >= MAX_KEYS_PER_MINUTE
    ensures var o := FoldedOther(other, folded);
      && other.Keys <= o.Keys <= other.Keys + {CatchAll()}
      && At(o, CatchAll(), k) == Min(MAX_INT64, At(other, CatchAll(), k) + SeqSum(folded, StrayGauge(other, k)))
    decreases |folded|
  {
    if folded != [] {
      hide At, Credit;
      var x, rest := folded[|folded| - 1], folded[..|folded| - 1];
      var o := FoldedOther(other, rest);
      FullFold(other, rest, k);
      FullStep(other, o, x, k);
      StrayNonNegative(other, rest, k);
    } else {
      assert At(other, CatchAll(), k) <= MAX_INT64;
    }
  }

  lemma FullStep(other: map<PairKey, AggVal>, o: map<PairKey, AggVal>, x: Keyed, k: Metric)
    requires |other| >= MAX_KEYS_PER_MINUTE && other.Keys <= o.Keys <= other.Keys + {CatchAll()}
    ensures var o' := AddOther(o, PairOf(x.k), x.v);
      && other.Keys <= o'.Keys <= other.Keys + {CatchAll()}
      && At(o', CatchAll(), k) == Min(MAX_INT64, At(o, CatchAll(), k) + StrayGauge(other, k)(x))
  {
    hide At;
    Subset(other.Keys, o.Keys);
    CreditedAt(o, OtherTarget(o, PairOf(x.k)), x.v, CatchAll(), k);
    assert 0 <= At(o, CatchAll(), k) <= MAX_INT64 by { AtCounts(o, CatchAll(), k); }
  }

  lemma AtCounts(o: map<PairKey, AggVal>, p: PairKey, k: Metric)
    ensures 0 <= At(o, p, k) <= MAX_INT64
  {
  }

  /** Once a minute's table is full, every flush takes from a pair without a row all of it
      that is folded, and gives it to the catch-all pair. */
  lemma CrowdedLoses(mm: Minute, topN: nat, maxRows: nat, perPair: set<Keyed>, kept: set<Keyed>, c: Cut,
                     rows: seq<Row>, meta: Meta, all: seq<Keyed>, p: PairKey, k: Metric)
    requires IsCut(mm, topN, maxRows, perPair, kept, c) && IsFlushed(mm, c, rows, meta) && Lists(all, Items(mm.keys))
    requires |mm.other| >= MAX_KEYS_PER_MINUTE && p !in mm.other && p != CatchAll()
    ensures SeqSum(rows, RowPairGauge(p, k)) == HeldBy(mm, all, p, k) - SeqSum(c.folded, PairGauge(p, k))
    ensures SeqSum(rows, RowPairGauge(CatchAll(), k)) ==
            SeqSum(c.kept, PairGauge(CatchAll(), k))
            + Min(MAX_INT64, At(mm.other, CatchAll(), k) + SeqSum(c.folded, StrayGauge(mm.other, k)))
  {
    hide IsCut, IsFlushed, SeqSum, FoldedOther, Items, Lists;
    CutLists(mm, topN, maxRows, perPair, kept, c);
    RowsOfPair(mm, c, rows, meta, p, k);
    RowsOfPair(mm, c, rows, meta, CatchAll(), k);
    HeldIs(mm, topN, maxRows, perPair, kept, c, all, p, k);
    FullFold(mm.other, c.folded, k);
  }

  /** One addition reaches its own pair exactly when the table knows the pair, has room for
      it, or it is the catch-all pair. */
  lemma OtherRowExact(other: map<PairKey, AggVal>, p: PairKey, v: AggVal, k: Metric)
    requires Of(v, k) > 0 && At(other, p, k) + Of(v, k) <= MAX_INT64
    ensures At(AddOther(other, p, v), p, k) == At(other, p, k) + Of(v, k) <==>
            p in other || |other| < MAX_KEYS_PER_MINUTE || p == CatchAll()
  {
  }

  // ---------- what an open minute holds for a pair ----------

  function KeysOfPair(keys: map<AggKey, AggVal>, p: PairKey): map<AggKey, AggVal> {
    map x | x in keys && PairOf(x) == p :: keys[x]
  }

  ghost function PairTotal(mm: Minute, p: PairKey, k: Metric): int {
    CellTotal(KeysOfPair(mm.keys, p), k) + At(mm.other, p, k)
  }

  /** The pairs a minute has conversations or an other row of. */
  function MinutePairs(mm: Minute): set<PairKey> { (set x | x in mm.keys :: PairOf(x)) + mm.other.Keys }

  lemma KeysCredit(keys: map<AggKey, AggVal>, key: AggKey, v: AggVal, p: PairKey, k: Metric)
    requires CellTotal(keys, k) + Of(v, k) <= MAX_INT64
    ensures CellTotal(KeysOfPair(Credit(keys, key, v), p), k) ==
            CellTotal(KeysOfPair(keys, p), k) + if PairOf(key) == p then Of(v, k) else 0
  {
    hide MapSum;
    var sub := KeysOfPair(keys, p);
    MapSumNonNegative(keys, Gauge(k));
    if PairOf(key) == p {
      assert KeysOfPair(Credit(keys, key, v), p) == Credit(sub, key, v);
      MapSumUpdate(sub, Gauge(k), key, (if key in sub then sub[key] else NOTHING).Add(v));
    } else {
      assert KeysOfPair(Credit(keys, key, v), p) == sub;
    }
  }

  lemma OtherCredit(other: map<PairKey, AggVal>, q: PairKey, v: AggVal, U: set<PairKey>, p: PairKey, k: Metric)
    requires |U| <= MAX_KEYS_PER_MINUTE && other.Keys <= U && q in U && CellTotal(other, k) + Of(v, k) <= MAX_INT64
    ensures At(AddOther(other, q, v), p, k) == At(other, p, k) + if q == p then Of(v, k) else 0
  {
    OwnRow(other, U, q);
    MapSumNonNegative(other, Gauge(k));
  }

  /** With room for every pair, a share brings no pair to a minute but its own. */
  lemma BookPairs(mm: Minute, f: NormFlow, v: AggVal, U: set<PairKey>)
    requires |U| <= MAX_KEYS_PER_MINUTE && MinutePairs(mm) <= U && PairOf(f.key) in U
    ensures MinutePairs(Book(mm, f, v)) <= U
  {
    OwnRow(mm.other, U, PairOf(f.key));
  }

  /** With room for every pair, a share booked in a minute is the pair's own. */
  lemma BookPair(mm: Minute, f: NormFlow, v: AggVal, U: set<PairKey>, p: PairKey, k: Metric)
    requires |U| <= MAX_KEYS_PER_MINUTE && MinutePairs(mm) <= U && PairOf(f.key) in U
    requires MinuteTotal(mm, k) + Of(v, k) <= MAX_INT64
    ensures PairTotal(Book(mm, f, v), p, k) == PairTotal(mm, p, k) + if PairOf(f.key) == p then Of(v, k) else 0
  {
    hide AddOther, At, KeysOfPair;
    MapSumNonNegative(mm.keys, Gauge(k));
    MapSumNonNegative(mm.other, Gauge(k));
    KeysCredit(mm.keys, f.key, v, p, k);
    OtherCredit(mm.other, PairOf(f.key), v, U, p, k);
  }

  lemma {:induction false} ListOfPair(s: seq<Keyed>, m: map<AggKey, AggVal>, p: PairKey, k: Metric)
    requires Lists(s, Items(m))
    ensures SeqSum(s, PairGauge(p, k)) == CellTotal(KeysOfPair(m, p), k)
    decreases |s|
  {
    ListLength(s, Items(m));
    if s == [] {
      ItemsEmpty(m);
    } else {
      var x := s[|s| - 1];
      assert x in s;
      var rest := m - {x.k};
      ListButLast(s, Items(m));
      ItemsMinus(m, x);
      ListOfPair(s[..|s| - 1], rest, p, k);
      if PairOf(x.k) == p {
        MapSumRemove(KeysOfPair(m, p), Gauge(k), x.k);
        assert KeysOfPair(m, p) - {x.k} == KeysOfPair(rest, p);
      } else {
        assert KeysOfPair(m, p) == KeysOfPair(rest, p);
      }
    }
  }

  lemma PairWithinMinute(mm: Minute, p: PairKey, k: Metric)
    ensures 0 <= PairTotal(mm, p, k) <= MinuteTotal(mm, k)
  {
    MapSumNonNegative(mm.other, Gauge(k));
    MapSumNonNegative(KeysOfPair(mm.keys, p), Gauge(k));
    SubTotal(KeysOfPair(mm.keys, p), mm.keys, k);
  }

  lemma {:induction false} SubTotal(a: map<AggKey, AggVal>, b: map<AggKey, AggVal>, k: Metric)
    requires a.Keys <= b.Keys && forall x :: x in a ==> a[x] == b[x]
    ensures CellTotal(a, k) <= CellTotal(b, k)
    decreases |b|
  {
    if b == map[] {
      assert a == b;
    } else {
      var x :| x in b;
      MapMinusSize(b, x);
      MapSumRemove(b, Gauge(k), x);
      if x in a {
        MapSumRemove(a, Gauge(k), x);
        SubTotal(a - {x}, b - {x}, k);
      } else {
        SubTotal(a, b - {x}, k);
      }
    }
  }

  lemma FoldedInMinute(mm: Minute, topN: nat, maxRows: nat, perPair: set<Keyed>, kept: set<Keyed>, c: Cut)
    requires IsCut(mm, topN, maxRows, perPair, kept, c)
    ensures AllPairs(mm.other, c.folded) <= MinutePairs(mm)
  {
    ListLength(c.folded, Items(mm.keys) - kept);
    forall q | q in PairsOf(c.folded)
      ensures q in MinutePairs(mm)
    {
      var x :| x in c.folded && PairOf(x.k) == q;
      assert x in Items(mm.keys);
    }
  }

  /** With room for every pair of the minute, a flush hands over what each pair held. */
  lemma FlushPair(mm: Minute, topN: nat, maxRows: nat, rows: seq<Row>, meta: Meta, U: set<PairKey>, p: PairKey, k: Metric)
    requires IsFlushResult(mm, topN, maxRows, rows, meta)
    requires |U| <= MAX_KEYS_PER_MINUTE && MinutePairs(mm) <= U && MinuteTotal(mm, k) <= MAX_INT64
    ensures SeqSum(rows, RowPairGauge(p, k)) == PairTotal(mm, p, k)
  {
    var perPair: set<Keyed>, kept: set<Keyed>, c: Cut :|
      IsCut(mm, topN, maxRows, perPair, kept, c) && IsFlushed(mm, c, rows, meta);
    hide IsCut, IsFlushed, MinutePairs, KeysOfPair, MinuteTotal;
    FoldedInMinute(mm, topN, maxRows, perPair, kept, c);
    Subset(AllPairs(mm.other, c.folded), U);
    RoomForAll(mm.other, c.folded);
    var all := SomeOrder(Items(mm.keys));
    ListOfPair(all, mm.keys, p, k);
    PairWithinMinute(mm, p, k);
    FlushWithinPairs(mm, topN, maxRows, perPair, kept, c, rows, meta, all, p, k);
  }
}
