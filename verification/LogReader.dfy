/** The shared log reader of one device: every consumer gets every line once, in order
    (backend/internal/poller/logreader.go:32-176). */
module LogReader {
  import opened Arith
  import opened TopN

  const MIN_INTERVAL := 30_000_000_000
  const MAX_LINES := 4000

  type Entry = string

  datatype Line = Line(seqNo: int, e: Entry)

  /** What a read of the device brought: an error, or the entries new to the cursor. */
  datatype Read = Failed(error: string) | Fresh(entries: seq<Entry>)

  /** What a call returns. */
  datatype Reply = Error(error: string) | Entries(entries: seq<Entry>)

  // ---------- who has seen what ----------

  function Range(a: int, b: int): seq<int>
    decreases Max(0, b - a)
  {
    if a >= b then [] else Range(a, b - 1) + [b - 1]
  }

  ghost predicate Rising(s: seq<int>) { forall i, j :: 0 <= i < j < |s| ==> s[i] < s[j] }

  lemma {:induction false} RangeRises(a: int, b: int)
    ensures |Range(a, b)| == Max(0, b - a)
    ensures forall i :: 0 <= i < |Range(a, b)| ==> Range(a, b)[i] == a + i
    decreases Max(0, b - a)
  {
    if a < b {
      RangeRises(a, b - 1);
    }
  }

  lemma RangeHas(a: int, b: int, s: int)
    ensures s in Range(a, b) <==> a <= s < b
  {
    RangeRises(a, b);
    if a <= s < b {
      assert Range(a, b)[s - a] == s;
    }
  }

  /** One consumer: the oldest line buffered when it first asked, and after each of its calls
      the number of the next line to come. Lines are numbered from 1. */
  datatype Consumer = Consumer(joined: int, seen: seq<int>) {
    function Mark(): int
      requires seen != []
    {
      seen[|seen| - 1]
    }
  }

  ghost predicate Proper(c: Consumer) {
    && c.seen != [] && 1 <= c.joined <= c.seen[0]
    && forall i :: 0 < i < |c.seen| ==> c.seen[i - 1] <= c.seen[i]
  }

  /** The lines a consumer was handed. Its first call brings everything buffered; every later
      one the lines logged since the call before, the newest MAX_LINES of them. What the
      other consumers do does not come into it. */
  function Got(c: Consumer): seq<int>
    decreases |c.seen|
  {
    var n := |c.seen|;
    if n == 0 then []
    else if n == 1 then Range(c.joined, c.seen[0])
    else
      Got(c.(seen := c.seen[..n - 1]))
      + Range(Max(c.seen[n - 2], c.seen[n - 1] - MAX_LINES), c.seen[n - 1])
  }

  /** More than MAX_LINES lines came between two of its calls, and s is one of the oldest. */
  ghost predicate Missed(c: Consumer, s: int) {
    exists i :: 0 < i < |c.seen| && c.seen[i - 1] <= s < c.seen[i] - MAX_LINES
  }

  /** Never more than MAX_LINES lines between two of its calls. */
  ghost predicate KeptUp(c: Consumer) {
    forall i :: 0 < i < |c.seen| ==> c.seen[i] - c.seen[i - 1] <= MAX_LINES
  }

  ghost function Earlier(c: Consumer): Consumer
    requires c.seen != []
  {
    c.(seen := c.seen[..|c.seen| - 1])
  }

  lemma GotStep(c: Consumer)
    requires |c.seen| > 1
    ensures var n := |c.seen|;
      Got(c) == Got(Earlier(c)) + Range(Max(c.seen[n - 2], c.seen[n - 1] - MAX_LINES), c.seen[n - 1])
  {
  }

  lemma ProperStep(c: Consumer)
    requires Proper(c) && |c.seen| > 1
    ensures Proper(Earlier(c)) && Earlier(c).Mark() == c.seen[|c.seen| - 2] <= c.Mark()
  {
  }

  lemma KeptUpStep(c: Consumer)
    requires |c.seen| > 1
    ensures var n := |c.seen|;
      KeptUp(c) <==> KeptUp(Earlier(c)) && c.seen[n - 1] - c.seen[n - 2] <= MAX_LINES
  {
    var n, before := |c.seen|, Earlier(c);
    assert forall i :: 0 <= i < n - 1 ==> before.seen[i] == c.seen[i];
    if KeptUp(c) {
      forall i | 0 < i < n - 1
        ensures before.seen[i] - before.seen[i - 1] <= MAX_LINES
      {
        assert c.seen[i] - c.seen[i - 1] <= MAX_LINES;
      }
    }
  }

  lemma SeenRises(c: Consumer, i: nat)
    requires Proper(c) && i < |c.seen|
    ensures c.joined <= c.seen[i] <= c.Mark()
  {
    for j := 0 to i
      invariant c.joined <= c.seen[j]
    {
    }
    var j := i;
    while j < |c.seen| - 1
      invariant i <= j < |c.seen| && c.seen[i] <= c.seen[j]
    {
      j := j + 1;
    }
  }

  lemma MissedStep(c: Consumer, s: int)
    requires Proper(c) && |c.seen| > 1
    ensures var n := |c.seen|;
      Missed(c, s) <==> Missed(Earlier(c), s) || c.seen[n - 2] <= s < c.seen[n - 1] - MAX_LINES
  {
    var n := |c.seen|;
    if i :| 0 < i < |c.seen| && c.seen[i - 1] <= s < c.seen[i] - MAX_LINES {
      if i < n - 1 {
        assert Earlier(c).seen[i - 1] <= s < Earlier(c).seen[i] - MAX_LINES;
      }
    }
    if i :| 0 < i < |Earlier(c).seen| && Earlier(c).seen[i - 1] <= s < Earlier(c).seen[i] - MAX_LINES {
      assert c.seen[i - 1] <= s < c.seen[i] - MAX_LINES;
    }
  }

  lemma MissedEarly(c: Consumer, s: int)
    requires Proper(c) && Missed(c, s)
    ensures c.joined <= s < c.Mark()
  {
    var i :| 0 < i < |c.seen| && c.seen[i - 1] <= s < c.seen[i] - MAX_LINES;
    SeenRises(c, i);
    SeenRises(c, i - 1);
  }

  /** A consumer is handed lines in order and none twice, and of the lines since it joined
      exactly those it did not miss. */
  lemma {:induction false} GotIs(c: Consumer)
    requires Proper(c)
    ensures Rising(Got(c))
    ensures forall s :: s in Got(c) <==> c.joined <= s < c.Mark() && !Missed(c, s)
    decreases |c.seen|
  {
    var n := |c.seen|;
    if n == 1 {
      RangeRises(c.joined, c.seen[0]);
      forall s
        ensures s in Got(c) <==> c.joined <= s < c.Mark()
      {
        RangeHas(c.joined, c.seen[0], s);
      }
    } else {
      var before, from := Earlier(c), Max(c.seen[n - 2], c.seen[n - 1] - MAX_LINES);
      ProperStep(c);
      GotStep(c);
      GotIs(before);
      hide Got, Range, Missed;
      RangeRises(from, c.seen[n - 1]);
      assert before.Mark() == c.seen[n - 2];
      forall s
        ensures s in Got(c) <==> c.joined <= s < c.Mark() && !Missed(c, s)
      {
        RangeHas(from, c.seen[n - 1], s);
        MissedStep(c, s);
        if Missed(before, s) {
          MissedEarly(before, s);
        }
        SeenRises(c, n - 2);
      }
      RisingJoin(Got(before), Range(from, c.seen[n - 1]), c.seen[n - 2]);
    }
  }

  lemma RisingJoin(a: seq<int>, b: seq<int>, m: int)
    requires Rising(a) && Rising(b) && (forall s :: s in a ==> s < m) && forall i :: 0 <= i < |b| ==> m <= b[i]
    ensures Rising(a + b)
  {
    assert forall i :: 0 <= i < |a| ==> a[i] in a;
  }

  /** The count of lines handed out falls short of the stretch exactly when some were missed. */
  lemma {:induction false} GotLength(c: Consumer)
    requires Proper(c)
    ensures |Got(c)| <= c.Mark() - c.joined
    ensures |Got(c)| == c.Mark() - c.joined <==> KeptUp(c)
    ensures KeptUp(c) ==> Got(c) == Range(c.joined, c.Mark())
    decreases |c.seen|
  {
    var n := |c.seen|;
    if n == 1 {
      RangeRises(c.joined, c.seen[0]);
    } else {
      var before, last := Earlier(c), c.seen[n - 1];
      ProperStep(c);
      GotLength(before);
      RangeRises(Max(c.seen[n - 2], last - MAX_LINES), last);
      SeenRises(c, n - 2);
      KeptUpStep(c);
      GotStep(c);
      hide Got, KeptUp, Range;
      if KeptUp(c) {
        RangeJoins(c.joined, c.seen[n - 2], last);
      }
    }
  }

  lemma RangeJoins(a: int, b: int, c: int)
    requires a <= b <= c
    ensures Range(a, b) + Range(b, c) == Range(a, c)
  {
    RangeRises(a, b);
    RangeRises(b, c);
    RangeRises(a, c);
  }

  /** The text of numbered lines. */
  function Texts(history: seq<Entry>, s: seq<int>): seq<Entry>
    requires forall i :: 0 <= i < |s| ==> 1 <= s[i] <= |history|
  {
    seq(|s|, i requires 0 <= i < |s| => history[s[i] - 1])
  }

  /** In terms of the lines themselves: an unbroken stretch of the history. */
  lemma StretchOfHistory(history: seq<Entry>, a: int, b: int)
    requires 1 <= a <= b <= |history| + 1
    ensures |Range(a, b)| == b - a && (forall i :: 0 <= i < |Range(a, b)| ==> Range(a, b)[i] == a + i)
    ensures Texts(history, Range(a, b)) == history[a - 1..b - 1]
  {
    RangeRises(a, b);
  }

  /** The marks are the accounts' marks, and no line a consumer has not seen is gone unless
      more than MAX_LINES came since. */
  ghost predicate Accounts(marks: map<string, int>, cs: map<string, Consumer>, first: int, next: int) {
    && marks.Keys == cs.Keys
    && forall c :: c in marks ==>
         && Proper(cs[c]) && marks[c] == cs[c].Mark() <= next
         && first <= Max(marks[c], next - MAX_LINES)
  }

  lemma AccountsCap(marks: map<string, int>, cs: map<string, Consumer>, first: int, next: int, first': int, next': int)
    requires Accounts(marks, cs, first, next) && next <= next' && first' == Max(first, next' - MAX_LINES)
    ensures Accounts(marks, cs, first', next')
  {
    hide Proper;
  }

  lemma AccountsTrim(marks: map<string, int>, cs: map<string, Consumer>, first: int, next: int, first': int)
    requires Accounts(marks, cs, first, next) && forall c :: c in marks ==> first' <= Max(first, marks[c])
    ensures Accounts(marks, cs, first', next)
  {
    hide Proper;
  }

  /** The consumer's account after a call; it is opened at the oldest buffered line. */
  ghost function Called(cs: map<string, Consumer>, consumer: string, first: int, next: int): Consumer {
    if consumer in cs then cs[consumer].(seen := cs[consumer].seen + [next]) else Consumer(first, [next])
  }

  /** The lines a call hands out: from the consumer's mark or the oldest buffered line on. */
  ghost function From(cs: map<string, Consumer>, consumer: string, first: int, next: int): int {
    if consumer in cs && cs[consumer].seen != [] then Max(cs[consumer].Mark(), next - MAX_LINES) else first
  }

  ghost function GotBefore(cs: map<string, Consumer>, consumer: string): seq<int> {
    if consumer in cs then Got(cs[consumer]) else []
  }

  lemma CalledAgain(c: Consumer, next: int)
    requires Proper(c) && c.Mark() <= next
    ensures var after := c.(seen := c.seen + [next]);
      && Proper(after) && after.Mark() == next
      && Got(after) == Got(c) + Range(Max(c.Mark(), next - MAX_LINES), next)
      && c.seen != [] && 1 <= c.Mark()
  {
    hide Got, Range, Proper;
    var after := c.(seen := c.seen + [next]);
    ProperMore(c, next);
    assert Earlier(after) == c;
    GotStep(after);
  }

  lemma ProperMore(c: Consumer, next: int)
    requires Proper(c) && c.Mark() <= next
    ensures Proper(c.(seen := c.seen + [next])) && 1 <= c.Mark() && c.seen != []
  {
    SeenRises(c, 0);
    var after := c.(seen := c.seen + [next]);
    assert forall i :: 0 <= i < |c.seen| ==> after.seen[i] == c.seen[i];
  }

  lemma CalledFirst(first: int, next: int)
    requires 1 <= first <= next
    ensures Proper(Consumer(first, [next])) && Got(Consumer(first, [next])) == Range(first, next)
  {
  }

  lemma AccountsServe(marks: map<string, int>, cs: map<string, Consumer>, first: int, next: int, consumer: string)
    requires Accounts(marks, cs, first, next) && 1 <= first <= next && next - MAX_LINES <= first
    ensures Accounts(marks[consumer := next], cs[consumer := Called(cs, consumer, first, next)], first, next)
    ensures Got(Called(cs, consumer, first, next)) == GotBefore(cs, consumer) + Range(From(cs, consumer, first, next), next)
    ensures var mark := if consumer in marks then marks[consumer] else first;
      Max(mark, first) == From(cs, consumer, first, next) && 1 <= mark <= next
  {
    hide Range, Proper, Got;
    if consumer in cs {
      CalledAgain(cs[consumer], next);
    } else {
      CalledFirst(first, next);
      assert [] + Range(first, next) == Range(first, next);
    }
  }

  /** A reply hands over the text of exactly the lines newly accounted for; an error stands
      for none. */
  ghost predicate Delivered(history: seq<Entry>, before: seq<int>, after: seq<int>, reply: Reply, lastErr: seq<string>) {
    && before <= after
    && (forall i :: |before| <= i < |after| ==> 1 <= after[i] <= |history|)
    && (reply.Entries? ==> reply.entries == Texts(history, after[|before|..]))
    && (reply.Error? ==> after == before && lastErr == [reply.error])
  }

  lemma DeliveredIs(history: seq<Entry>, got: seq<int>, from: int, entries: seq<Entry>, lastErr: seq<string>)
    requires 1 <= from <= |history| + 1 && entries == history[from - 1..]
    ensures var after := got + Range(from, |history| + 1);
      && Delivered(history, got, after, Entries(entries), lastErr) && (after == got <==> entries == [])
      && (entries == [] && |lastErr| == 1 ==> Delivered(history, got, after, Error(lastErr[0]), lastErr))
  {
    var next := |history| + 1;
    StretchOfHistory(history, from, next);
    assert (got + Range(from, next))[|got|..] == Range(from, next);
    assert |got + Range(from, next)| == |got| + |entries|;
    assert entries == [] ==> got + Range(from, next) == got;
  }

  /** A call of some consumer, and what a read of the device would bring at that time. */
  datatype Call = Call(consumer: string, read: Read, now: int, window: int)

  ghost predicate InHistory(history: seq<Entry>, s: seq<int>) {
    forall i :: 0 <= i < |s| ==> 1 <= s[i] <= |history|
  }

  /** What was handed out is the text of what each account lists. */
  ghost predicate HandedOut(history: seq<Entry>, cs: map<string, Consumer>, got: map<string, seq<Entry>>) {
    && got.Keys == cs.Keys
    && forall c :: c in cs ==> InHistory(history, Got(cs[c])) && got[c] == Texts(history, Got(cs[c]))
  }

  lemma HandedMore(history: seq<Entry>, more: seq<Entry>, cs: map<string, Consumer>, got: map<string, seq<Entry>>)
    requires HandedOut(history, cs, got)
    ensures HandedOut(history + more, cs, got)
  {
    forall c | c in cs
      ensures InHistory(history + more, Got(cs[c])) && got[c] == Texts(history + more, Got(cs[c]))
    {
      var g := Got(cs[c]);
      assert forall i :: 0 <= i < |g| ==> (history + more)[g[i] - 1] == history[g[i] - 1];
    }
  }

  /** One delivery to one consumer. */
  lemma HandedOne(history: seq<Entry>, cs: map<string, Consumer>, got: map<string, seq<Entry>>, consumer: string,
                  after: Consumer, reply: Reply, lastErr: seq<string>)
    requires HandedOut(history, cs, got)
    requires Delivered(history, GotBefore(cs, consumer), Got(after), reply, lastErr)
    ensures var had := if consumer in cs then got[consumer] else [];
      HandedOut(history, cs[consumer := after], got[consumer := had + if reply.Entries? then reply.entries else []])
  {
    hide Texts, Delivered, InHistory, Got;
    if consumer !in cs {
      NothingHanded(history);
    }
    DeliveredTexts(history, GotBefore(cs, consumer), Got(after), reply, lastErr);
  }

  lemma NothingHanded(history: seq<Entry>)
    ensures InHistory(history, []) && Texts(history, []) == []
  {
  }

  lemma DeliveredTexts(history: seq<Entry>, before: seq<int>, after: seq<int>, reply: Reply, lastErr: seq<string>)
    requires InHistory(history, before) && Delivered(history, before, after, reply, lastErr)
    ensures InHistory(history, after)
    ensures Texts(history, after) == Texts(history, before) + if reply.Entries? then reply.entries else []
  {
    var news := after[|before|..];
    assert after == before + news;
    assert forall i :: 0 <= i < |news| ==> news[i] == after[|before| + i];
    assert Texts(history, before + news) == Texts(history, before) + Texts(history, news);
  }

  lemma GrownHistory(h: seq<Entry>, h': seq<Entry>, cs: map<string, Consumer>, got: map<string, seq<Entry>>, read: Read)
    requires HandedOut(h, cs, got) && (h' == h || (read.Fresh? && h' == h + read.entries))
    ensures HandedOut(h', cs, got) && got.Keys == cs.Keys
  {
    if h' != h {
      HandedMore(h, read.entries, cs, got);
    }
  }

  // ---------- what a run reads ----------

  /** What a run of calls leaves of the reader, the consumers aside. */
  datatype Reader = Reader(primed: bool, hasRead: bool, readAt: int, readSeq: int, history: seq<Entry>)

  predicate IsDue(r: Reader, now: int, window: int) {
    !r.hasRead || now - r.readAt >= if window <= 0 then MIN_INTERVAL else window
  }

  /** A call reads the device when the buffered copy is a window old; the first successful
      read primes and brings no news. */
  function AfterCall(r: Reader, c: Call): Reader {
    if !IsDue(r, c.now, c.window) then r
    else if c.read.Failed? then r.(hasRead := true, readAt := c.now)
    else Reader(true, true, c.now, |r.history| + 1, r.history + if r.primed then c.read.entries else [])
  }

  /** The call comes at least a window after the last read; a window that is not positive is 30 s. */
  predicate Overdue(hasRead: bool, readAt: int, now: int, window: int) {
    hasRead ==> if 0 < window then readAt + window <= now else readAt + 30_000_000_000 <= now
  }

  /** An overdue call that succeeds brings what the device logged, unless it is the first;
      one that fails only counts as a read; any other call leaves the reader alone. */
  lemma CallReads(r: Reader, c: Call)
    ensures IsDue(r, c.now, c.window) <==> Overdue(r.hasRead, r.readAt, c.now, c.window)
    ensures !Overdue(r.hasRead, r.readAt, c.now, c.window) ==> AfterCall(r, c) == r
    ensures Overdue(r.hasRead, r.readAt, c.now, c.window) ==> AfterCall(r, c).hasRead && AfterCall(r, c).readAt == c.now
    ensures Overdue(r.hasRead, r.readAt, c.now, c.window) && c.read.Fresh? ==>
      AfterCall(r, c).primed && AfterCall(r, c).history == if r.primed then r.history + c.read.entries else r.history
    ensures Overdue(r.hasRead, r.readAt, c.now, c.window) && c.read.Failed? ==>
      AfterCall(r, c).primed == r.primed && AfterCall(r, c).history == r.history
  {
  }

  /** The last n of s. */
  function Newest(s: seq<Entry>, n: nat): seq<Entry> { if |s| <= n then s else s[|s| - n..] }

  lemma NewestIs(before: seq<Entry>, history: seq<Entry>, news: seq<Entry>, from: int)
    requires history == before + news && from == Max(|before| + 1, |history| + 1 - MAX_LINES)
    ensures history[from - 1..] == Newest(news, 4000)
  {
    assert history[from - 1..] == news[from - 1 - |before|..];
  }

  function AfterCalls(r: Reader, calls: seq<Call>): Reader {
    if calls == [] then r else AfterCall(AfterCalls(r, calls[..|calls| - 1]), calls[|calls| - 1])
  }

  /** The number of the next line to come, after each call of the consumer. */
  function SeenBy(r: Reader, calls: seq<Call>, consumer: string): seq<int> {
    if calls == [] then []
    else
      SeenBy(r, calls[..|calls| - 1], consumer)
      + if calls[|calls| - 1].consumer == consumer then [|AfterCalls(r, calls).history| + 1] else []
  }

  /** The marks a run of calls leaves: the next line to come at the consumer's last call. */
  function MarksAfter(r: Reader, calls: seq<Call>): map<string, int> {
    if calls == [] then map[]
    else MarksAfter(r, calls[..|calls| - 1])[calls[|calls| - 1].consumer := |AfterCalls(r, calls).history| + 1]
  }

  /** The least mark, or the start of the latest read if that is before every mark. */
  ghost predicate IsLow(low: int, readSeq: int, marks: map<string, int>) {
    && low <= readSeq && (forall c :: c in marks ==> low <= marks[c])
    && (low == readSeq || exists c :: c in marks && low == marks[c])
  }

  lemma {:induction false} SomeLow(readSeq: int, marks: map<string, int>)
    ensures exists low :: IsLow(low, readSeq, marks)
    decreases |marks|
  {
    if marks == map[] {
      assert IsLow(readSeq, readSeq, marks);
    } else {
      var c :| c in marks;
      var rest := marks - {c};
      assert rest.Keys == marks.Keys - {c};
      assert |rest.Keys| < |marks.Keys|;
      SomeLow(readSeq, rest);
      var low :| IsLow(low, readSeq, rest);
      assert forall d :: d in marks && d != c ==> d in rest && rest[d] == marks[d];
      if low < readSeq {
        var d :| d in rest && low == rest[d];
        assert d in marks && low == marks[d];
      }
      assert IsLow(Min(low, marks[c]), readSeq, marks);
    }
  }

  ghost function Low(readSeq: int, marks: map<string, int>): (low: int)
    ensures IsLow(low, readSeq, marks)
  {
    SomeLow(readSeq, marks);
    var low :| IsLow(low, readSeq, marks);
    low
  }

  /** Where a consumer's stretch begins: at its first call, the oldest line that some known
      consumer had not seen or that came with the latest read, if it is one of the newest
      MAX_LINES. */
  ghost function JoinedAt(r: Reader, calls: seq<Call>, c: string): int {
    if calls == [] then 0
    else
      var before := calls[..|calls| - 1];
      if c in MarksAfter(r, before) then JoinedAt(r, before, c)
      else Max(Low(AfterCalls(r, before).readSeq, MarksAfter(r, before)), |AfterCalls(r, calls).history| + 1 - MAX_LINES)
  }

  /** The first to ask a device nobody has read yet misses nothing. */
  lemma {:induction false} FirstJoins(r: Reader, calls: seq<Call>)
    requires r.readSeq == 1 && r.history == [] && !r.primed && calls != []
    ensures JoinedAt(r, calls, calls[0].consumer) == 1
    decreases |calls|
  {
    var before := calls[..|calls| - 1];
    if before == [] {
      assert AfterCalls(r, before) == r && MarksAfter(r, before) == map[];
      assert |AfterCalls(r, calls).history| == 0;
    } else {
      FirstJoins(r, before);
      Marked(r, before, 0);
    }
  }

  lemma {:induction false} Marked(r: Reader, calls: seq<Call>, i: nat)
    requires i < |calls|
    ensures calls[i].consumer in MarksAfter(r, calls)
    decreases |calls|
  {
    if i < |calls| - 1 {
      Marked(r, calls[..|calls| - 1], i);
    }
  }

  /** Every caller has an account, with where it joined and the calls it made. */
  ghost predicate Accounted(r: Reader, calls: seq<Call>, cs: map<string, Consumer>) {
    && (forall i :: 0 <= i < |calls| ==> calls[i].consumer in cs)
    && (forall c :: c in cs ==> cs[c].joined == JoinedAt(r, calls, c))
    && (forall c :: SeenBy(r, calls, c) == if c in cs then cs[c].seen else [])
  }

  lemma SeenStep(r: Reader, calls: seq<Call>, call: Call, c: string)
    ensures var next := |AfterCalls(r, calls + [call]).history| + 1;
      SeenBy(r, calls + [call], c) == SeenBy(r, calls, c) + if c == call.consumer then [next] else []
  {
    hide AfterCalls;
    assert (calls + [call])[..|calls|] == calls;
  }

  lemma JoinedStep(r: Reader, calls: seq<Call>, call: Call, c: string)
    ensures JoinedAt(r, calls + [call], c) ==
            if c in MarksAfter(r, calls) then JoinedAt(r, calls, c)
            else Max(Low(AfterCalls(r, calls).readSeq, MarksAfter(r, calls)),
                     |AfterCalls(r, calls + [call]).history| + 1 - MAX_LINES)
  {
    hide AfterCalls, MarksAfter;
    assert (calls + [call])[..|calls|] == calls;
  }

  lemma AccountedStep(r: Reader, calls: seq<Call>, call: Call, cs: map<string, Consumer>, first: int)
    requires Accounted(r, calls, cs) && cs.Keys == MarksAfter(r, calls).Keys
    requires first == Max(Low(AfterCalls(r, calls).readSeq, MarksAfter(r, calls)),
                          |AfterCalls(r, calls + [call]).history| + 1 - MAX_LINES)
    ensures var next := |AfterCalls(r, calls + [call]).history| + 1;
      Accounted(r, calls + [call], cs[call.consumer := Called(cs, call.consumer, first, next)])
  {
    hide AfterCalls, MarksAfter, SeenBy, JoinedAt;
    forall c
      ensures c in cs || c == call.consumer ==>
        JoinedAt(r, calls + [call], c) == if c in cs then cs[c].joined else first
    {
      JoinedStep(r, calls, call, c);
    }
    forall c
      ensures var next := |AfterCalls(r, calls + [call]).history| + 1;
        SeenBy(r, calls + [call], c) == SeenBy(r, calls, c) + if c == call.consumer then [next] else []
    {
      SeenStep(r, calls, call, c);
    }
  }

  lemma FromKnown(marks: map<string, int>, cs: map<string, Consumer>, first: int, next: int, consumer: string)
    requires Accounts(marks, cs, first, next) && consumer in marks
    ensures From(cs, consumer, first, next) == Max(marks[consumer], next - MAX_LINES)
  {
  }

  lemma AccountsKeys(marks: map<string, int>, cs: map<string, Consumer>, first: int, next: int)
    requires Accounts(marks, cs, first, next)
    ensures marks.Keys == cs.Keys
  {
  }

  /** Nothing unseen is gone before its time, so a trimmed buffer begins exactly there. */
  lemma TrimmedIs(marks: map<string, int>, cs: map<string, Consumer>, first: int, next: int, readSeq: int)
    requires Accounts(marks, cs, first, next)
    requires Max(Low(readSeq, marks), next - MAX_LINES) <= first <= Max(readSeq, next - MAX_LINES)
    ensures first == Max(Low(readSeq, marks), next - MAX_LINES)
  {
    hide Proper;
  }

  lemma AccountIs(marks: map<string, int>, cs: map<string, Consumer>, first: int, next: int, c: string)
    requires Accounts(marks, cs, first, next) && c in cs
    ensures Proper(cs[c]) && cs[c].Mark() <= next
  {
  }

  /** got is the unbroken stretch of lines since the consumer joined, each once and in order,
      exactly when never more than MAX_LINES lines came between two of its calls. */
  ghost predicate WholeIffKeptUp(history: seq<Entry>, c: Consumer, got: seq<Entry>) {
    && Proper(c) && c.joined <= c.Mark() <= |history| + 1
    && (got == history[c.joined - 1..c.Mark() - 1] <==> KeptUp(c))
  }

  lemma GapFree(history: seq<Entry>, c: Consumer)
    requires Proper(c) && c.Mark() <= |history| + 1 && InHistory(history, Got(c))
    ensures WholeIffKeptUp(history, c, Texts(history, Got(c)))
  {
    hide Got, Range, KeptUp;
    SeenRises(c, 0);
    GotLength(c);
    if KeptUp(c) {
      StretchOfHistory(history, c.joined, c.Mark());
    } else {
      assert |Texts(history, Got(c))| < |history[c.joined - 1..c.Mark() - 1]|;
    }
  }

  lemma NoCalls(r: Reader)
    ensures Accounted(r, [], map[]) && AfterCalls(r, []) == r && MarksAfter(r, []) == map[]
  {
  }

  // ---------- the reader ----------

  class Device {
    var primed: bool
    var lines: seq<Line>
    var nextSeq: int
    var readSeq: int
    var readAt: int      // meaningful once hasRead
    var hasRead: bool
    var lastErr: seq<string>
    var marks: map<string, int>
    ghost var history: seq<Entry>            // every line logged since the reader primed
    ghost var consumers: map<string, Consumer>

    ghost function First(): int
      reads this`nextSeq, this`lines
    {
      nextSeq - |lines|
    }

    ghost function State(): Reader
      reads this`primed, this`hasRead, this`readAt, this`readSeq, this`history
    {
      Reader(primed, hasRead, readAt, readSeq, history)
    }

    /** Between calls the buffer holds what some known consumer has not seen and the latest
        read, as far as they fit, and nothing older. */
    ghost predicate Valid()
      reads this
    {
      Consistent() && First() == Max(Low(readSeq, marks), nextSeq - MAX_LINES)
    }

    /** What holds at every step of a call. */
    ghost predicate Consistent()
      reads this
    {
      && Buffered() && 1 <= First()
      && 1 <= readSeq <= nextSeq == |history| + 1 && |lines| <= MAX_LINES && |lastErr| <= 1
      && First() <= Max(readSeq, nextSeq - MAX_LINES)
      && Accounts(marks, consumers, First(), nextSeq)
    }

    constructor ()
      ensures Valid() && !primed && readSeq == 1 && history == [] && consumers == map[] && !hasRead
    {
      primed, lines, nextSeq, readSeq, readAt, hasRead, lastErr, marks := false, [], 1, 1, 0, false, [], map[];
      history, consumers := [], map[];
    }

    /** The buffer is the tail of the history. */
    ghost predicate Buffered()
      reads this`nextSeq, this`lines, this`history
    {
      && nextSeq == |history| + 1 && 1 <= First()
      && (forall i :: 0 <= i < |lines| ==> lines[i] == Line(First() + i, history[First() + i - 1]))
    }

    method Append(news: seq<Entry>)
      requires Buffered()
      modifies this`lines, this`nextSeq, this`history
      ensures Buffered() && First() == old(First()) && nextSeq == old(nextSeq) + |news|
      ensures history == old(history) + news
    {
      for i := 0 to |news|
        invariant Buffered() && First() == old(First())
        invariant history == old(history) + news[..i]
      {
        lines := lines + [Line(nextSeq, news[i])];
        nextSeq := nextSeq + 1;
        history := history + [news[i]];
      }
      assert news[..|news|] == news;
    }

    /** Keeps the newest lines that fit. */
    method Limit()
      requires Buffered()
      modifies this`lines
      ensures Buffered() && 1 <= First() && |lines| == Min(|old(lines)|, MAX_LINES)
    {
      if |lines| > MAX_LINES {
        lines := lines[|lines| - MAX_LINES..];
      }
    }

    /** Buffers a successful read. The first one is the device's history, not news. */
    method Absorb(entries: seq<Entry>)
      requires Consistent()
      modifies this`primed, this`lines, this`nextSeq, this`readSeq, this`history
      ensures Consistent() && primed && readSeq == old(nextSeq)
      ensures history == old(history) + if old(primed) then entries else []
      // the limit drops only what does not fit
      ensures First() == Max(old(First()), nextSeq - MAX_LINES)
    {
      hide Accounts, Buffered;
      var news := entries;
      if !primed {
        primed := true;
        news := [];
      }
      readSeq := nextSeq;
      ghost var first := First();
      Append(news);
      Limit();
      AccountsCap(marks, consumers, first, old(nextSeq), First(), nextSeq);
    }

    /** The buffered entries from mark on. */
    method EntriesFrom(mark: int) returns (entries: seq<Entry>)
      requires Buffered()
      ensures 1 <= mark && Max(mark, First()) <= nextSeq ==> entries == history[Max(mark, First()) - 1..]
    {
      entries := [];
      ghost var from := Max(mark, First());
      for i := 0 to |lines|
        invariant 1 <= mark && from <= nextSeq ==>
          entries == if First() + i <= from then [] else history[from - 1..First() + i - 1]
      {
        if lines[i].seqNo >= mark {
          entries := entries + [lines[i].e];
        }
      }
    }

    /** The least mark, or the start of the latest read if that is before every mark. */
    method LowMark() returns (low: int)
      ensures IsLow(low, readSeq, marks)
    {
      low := readSeq;
      var names := Enumerate(marks.Keys);
      ListLength(names, marks.Keys);
      for i := 0 to |names|
        invariant low <= readSeq && forall j :: 0 <= j < i ==> low <= marks[names[j]]
        invariant low == readSeq || exists c :: c in marks && low == marks[c]
      {
        var c := names[i];
        assert c in names;
        if marks[c] < low {
          low := marks[c];
        }
      }
      assert forall c :: c in marks ==> c in names;
    }

    /** Drops the lines of earlier reads that every known consumer has seen, and no others. */
    method Trim()
      requires Consistent()
      modifies this`lines
      ensures Consistent() && old(First()) <= First()
      ensures First() == Max(old(First()), Low(readSeq, marks))
      ensures First() <= Max(old(First()), readSeq) && forall c :: c in marks ==> First() <= Max(old(First()), marks[c])
      ensures First() == old(First()) || First() == readSeq || exists c :: c in marks && First() == marks[c]
    {
      hide Accounts;
      var low := LowMark();
      var i := 0;
      while i < |lines| && lines[i].seqNo < low
        invariant 0 <= i <= |lines| && (i > 0 ==> First() + i <= low)
      {
        i := i + 1;
      }
      ghost var first := First();
      if i > 0 {
        lines := lines[i..];
      }
      AccountsTrim(marks, consumers, first, nextSeq, First());
    }

    /** Reads the device when the buffered copy is a window old. */
    method Refresh(read: Read, now: int, window: int, ghost call: Call)
      requires Consistent() && call.read == read && call.now == now && call.window == window
      modifies this`primed, this`lines, this`nextSeq, this`readSeq, this`readAt, this`hasRead, this`lastErr, this`history
      ensures Consistent() && State() == AfterCall(old(State()), call)
      ensures First() == Max(old(First()), nextSeq - MAX_LINES) && old(nextSeq) <= nextSeq
      // the device is read when the copy is a window old, and what it logged joins the history
      ensures !Overdue(old(hasRead), old(readAt), now, window) ==>
        && history == old(history) && readAt == old(readAt) && hasRead == old(hasRead)
        && primed == old(primed) && lastErr == old(lastErr)
      ensures Overdue(old(hasRead), old(readAt), now, window) ==>
        hasRead && readAt == now && lastErr == if read.Failed? then [read.error] else []
      ensures Overdue(old(hasRead), old(readAt), now, window) ==>
        history == old(history) + if read.Fresh? && old(primed) then read.entries else []
    {
      hide Accounts, Buffered;
      CallReads(State(), call);
      var w := if window <= 0 then MIN_INTERVAL else window;
      if !hasRead || now - readAt >= w {
        readAt, hasRead := now, true;
        match read {
          case Failed(e) => lastErr := [e];
          case Fresh(entries) =>
            lastErr := [];
            Absorb(entries);
        }
      }
    }

    /** Hands the consumer what it has not seen and lets go of what everyone has. */
    method Serve(consumer: string) returns (entries: seq<Entry>)
      requires Consistent()
      modifies this`marks, this`consumers, this`lines
      ensures Valid()
      ensures consumers == old(consumers)[consumer := Called(old(consumers), consumer, old(First()), nextSeq)]
      ensures marks == old(marks)[consumer := nextSeq]
      ensures var from := From(old(consumers), consumer, old(First()), nextSeq);
        && Got(consumers[consumer]) == GotBefore(old(consumers), consumer) + Range(from, nextSeq)
        && 1 <= from <= nextSeq && entries == history[from - 1..]
        && (consumer in old(marks) ==> from == Max(old(marks)[consumer], nextSeq - MAX_LINES))
    {
      hide Accounts, Buffered, Got, From, Called, GotBefore;
      if consumer in marks {
        FromKnown(marks, consumers, First(), nextSeq, consumer);
      }
      var mark := if consumer in marks then marks[consumer] else nextSeq - |lines|;
      AccountsServe(marks, consumers, First(), nextSeq, consumer);
      entries := EntriesFrom(mark);
      marks := marks[consumer := nextSeq];
      consumers := consumers[consumer := Called(consumers, consumer, First(), nextSeq)];
      Trim();
      TrimmedIs(marks, consumers, First(), nextSeq, readSeq);
    }

    /** The lines the consumer has not seen yet, oldest first. read is what reading the device
        would bring; it is used when the buffered copy is a window old. An error is returned
        only when it left the consumer with nothing new. */
    method EntriesFor(consumer: string, read: Read, now: int, window: int) returns (reply: Reply, ghost joined: int)
      requires Valid()
      modifies this
      ensures Valid() && State() == AfterCall(old(State()), Call(consumer, read, now, window))
      ensures consumers == old(consumers)[consumer := Called(old(consumers), consumer, joined, nextSeq)]
      ensures Delivered(history, GotBefore(old(consumers), consumer), Got(consumers[consumer]), reply, lastErr)
      ensures reply.Error? <==> Got(consumers[consumer]) == GotBefore(old(consumers), consumer) && lastErr != []
      // the device is read when the copy is a window old, and what it logged joins the history
      ensures !Overdue(old(hasRead), old(readAt), now, window) ==>
        && history == old(history) && readAt == old(readAt) && hasRead == old(hasRead)
        && primed == old(primed) && lastErr == old(lastErr)
      ensures Overdue(old(hasRead), old(readAt), now, window) ==>
        hasRead && readAt == now && lastErr == if read.Failed? then [read.error] else []
      ensures Overdue(old(hasRead), old(readAt), now, window) ==>
        history == old(history) + if read.Fresh? && old(primed) then read.entries else []
      // a consumer that was up to date is handed what was read, the newest 4000 lines of it
      ensures consumer in old(marks) && old(marks)[consumer] == old(nextSeq) && reply.Entries? ==>
        reply.entries == if Overdue(old(hasRead), old(readAt), now, window) && read.Fresh? && old(primed)
                         then Newest(read.entries, 4000) else []
      // a consumer new to the device gets all that is buffered, the latest read among it
      ensures joined == Max(Low(old(readSeq), old(marks)), nextSeq - MAX_LINES) <= Max(readSeq, nextSeq - MAX_LINES)
      ensures marks == old(marks)[consumer := nextSeq]
    {
      hide Accounts, Buffered, Delivered, Got, From, GotBefore, Called, AfterCall, Overdue, IsDue;
      Refresh(read, now, window, Call(consumer, read, now, window));
      joined := First();
      ghost var got, from := GotBefore(consumers, consumer), From(consumers, consumer, First(), nextSeq);
      ghost var due := Overdue(old(hasRead), old(readAt), now, window);
      ghost var news := if due && read.Fresh? && old(primed) then read.entries else [];
      var entries := Serve(consumer);
      if consumer in old(marks) && old(marks)[consumer] == old(nextSeq) {
        assert old(history) + [] == old(history);
        NewestIs(old(history), history, news, from);
        assert Newest([], 4000) == [];
      }
      DeliveredIs(history, got, from, entries, lastErr);
      if |entries| == 0 && |lastErr| > 0 {
        reply := Error(lastErr[0]);
      } else {
        reply := Entries(entries);
      }
    }

    /** Any run of calls: what each consumer was handed in all, in order. */
    method Run(calls: seq<Call>) returns (got: map<string, seq<Entry>>)
      requires Valid() && consumers == map[]
      modifies this
      ensures Valid() && State() == AfterCalls(old(State()), calls)
      ensures Accounted(old(State()), calls, consumers) && marks == MarksAfter(old(State()), calls)
      ensures HandedOut(history, consumers, got)
      // no line is missing exactly when the consumer kept up itself, whatever the others did
      ensures forall c :: c in consumers ==> WholeIffKeptUp(history, consumers[c], got[c])
    {
      hide Accounts, Buffered, Delivered, Got, WholeIffKeptUp, AfterCall, Accounted;
      got := map[];
      NoCalls(State());
      AccountsKeys(marks, consumers, First(), nextSeq);
      for i := 0 to |calls|
        invariant Valid() && State() == AfterCalls(old(State()), calls[..i])
        invariant Accounted(old(State()), calls[..i], consumers) && marks == MarksAfter(old(State()), calls[..i])
        invariant HandedOut(history, consumers, got)
      {
        assert calls[..i + 1] == calls[..i] + [calls[i]];
        got := Answer(calls[i], got, old(State()), calls[..i]);
      }
      assert calls[..|calls|] == calls;
      forall c | c in consumers
        ensures WholeIffKeptUp(history, consumers[c], got[c])
      {
        AccountIs(marks, consumers, First(), nextSeq, c);
        GapFree(history, consumers[c]);
      }
    }

    method Answer(call: Call, got: map<string, seq<Entry>>, ghost r: Reader, ghost calls: seq<Call>)
      returns (got': map<string, seq<Entry>>)
      requires Valid() && HandedOut(history, consumers, got)
      requires State() == AfterCalls(r, calls) && Accounted(r, calls, consumers) && marks == MarksAfter(r, calls)
      modifies this
      ensures Valid() && HandedOut(history, consumers, got')
      ensures State() == AfterCalls(r, calls + [call]) && Accounted(r, calls + [call], consumers)
      ensures marks == MarksAfter(r, calls + [call])
    {
      hide Accounts, Buffered, Delivered, HandedOut, Got, GotBefore, Called, Accounted;
      ghost var h, cs := history, consumers;
      AccountsKeys(marks, cs, First(), nextSeq);
      var reply;
      ghost var joined;
      reply, joined := EntriesFor(call.consumer, call.read, call.now, call.window);
      assert (calls + [call])[..|calls|] == calls;
      GrownHistory(h, history, cs, got, call.read);
      HandedOne(history, cs, got, call.consumer, consumers[call.consumer], reply, lastErr);
      AccountedStep(r, calls, call, cs, joined);
      var had := if call.consumer in got then got[call.consumer] else [];
      got' := got[call.consumer := had + if reply.Entries? then reply.entries else []];
    }
  }
}
