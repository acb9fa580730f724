/** Which stored flow rows belong to an observation point and in which direction, and what
    they sum to (backend/internal/flowview/flowview.go:38-152, 204-258). */
module FlowView {
  import opened Addresses
  import opened GroupBy

  datatype Dir = Download | Upload

  /** One aggregated row; the folded other row has no addresses. */
  datatype FlowAgg = FlowAgg(
    bucket: int, inIf: nat, outIf: nat, src: Addr, dst: Addr, proto: nat, port: nat,
    bytes: int, packets: int, flows: int)

  /** A point: a set of interfaces, facing the Internet or internal hosts, with filters on the
      local endpoint. internal tells the addresses classed internal or vpn. */
  datatype Point = Point(facingUp: bool, ifs: seq<nat>, localInternal: bool, exclude: set<Addr>, internal: Addr -> bool) {
    predicate Has(i: nat) { i != 0 && i in ifs }

    function Directions(inIf: nat, outIf: nat): (bool, bool) {
      if facingUp then (Has(inIf), Has(outIf)) else (Has(outIf), Has(inIf))
    }

    predicate Keeps(local: Addr) { (localInternal ==> internal(local)) && local !in exclude }
  }

  datatype DirRow = DirRow(
    bucket: int, src: Addr, dst: Addr, local: Addr, remote: Addr, proto: nat, port: nat,
    bytes: int, packets: int, flows: int, other: bool)

  predicate IsOther(src: Addr, dst: Addr) { src == NoAddr || dst == NoAddr }

  // ---------- specification ----------

  /** What tells whether a row counts: its interfaces and endpoints, never its bucket. */
  datatype Ends = Ends(inIf: nat, outIf: nat, src: Addr, dst: Addr)

  function EndsOf(r: FlowAgg): Ends { Ends(r.inIf, r.outIf, r.src, r.dst) }

  function Local(e: Ends, d: Dir): Addr { if d == Download then e.dst else e.src }

  /** A row counts for the point in direction d. */
  predicate Counts(p: Point, d: Dir, e: Ends) {
    var (down, up) := p.Directions(e.inIf, e.outIf);
    (if d == Download then down else up) && (IsOther(e.src, e.dst) || p.Keeps(Local(e, d)))
  }

  function DirRowOf(r: FlowAgg, d: Dir): DirRow {
    if IsOther(r.src, r.dst) then
      DirRow(r.bucket, NoAddr, NoAddr, NoAddr, NoAddr, r.proto, r.port, r.bytes, r.packets, r.flows, true)
    else
      DirRow(r.bucket, r.src, r.dst, Local(EndsOf(r), d), Local(EndsOf(r), if d == Download then Upload else Download),
             r.proto, r.port, r.bytes, r.packets, r.flows, false)
  }

  function Selected(rows: seq<FlowAgg>, p: Point, d: Dir): seq<DirRow> {
    if rows == [] then []
    else
      var r := rows[|rows| - 1];
      Selected(rows[..|rows| - 1], p, d) + if Counts(p, d, EndsOf(r)) then [DirRowOf(r, d)] else []
  }

  function Total(rows: seq<DirRow>): int {
    if rows == [] then 0 else Total(rows[..|rows| - 1]) + rows[|rows| - 1].bytes
  }

  /** The rows of one bucket. */
  function OfBucket(rows: seq<FlowAgg>, b: int): seq<FlowAgg> {
    if rows == [] then []
    else OfBucket(rows[..|rows| - 1], b) + if rows[|rows| - 1].bucket == b then [rows[|rows| - 1]] else []
  }

  // ---------- implementation ----------

  method Select(rows: seq<FlowAgg>, p: Point, d: Dir) returns (out: seq<DirRow>)
    ensures out == Selected(rows, p, d)
  {
    out := [];
    for i := 0 to |rows|
      invariant out == Selected(rows[..i], p, d)
    {
      assert rows[..i + 1][..i] == rows[..i];
      var r := rows[i];
      var (down, up) := p.Directions(r.inIf, r.outIf);
      if (d == Download && !down) || (d == Upload && !up) {
        continue;
      }
      if IsOther(r.src, r.dst) {
        out := out + [DirRow(r.bucket, NoAddr, NoAddr, NoAddr, NoAddr, r.proto, r.port, r.bytes, r.packets, r.flows, true)];
        continue;
      }
      var local, remote := if d == Download then r.dst else r.src, if d == Download then r.src else r.dst;
      if p.localInternal && !p.internal(local) {
        continue;
      }
      if local in p.exclude {
        continue;
      }
      out := out + [DirRow(r.bucket, r.src, r.dst, local, remote, r.proto, r.port, r.bytes, r.packets, r.flows, false)];
    }
    assert rows[..|rows|] == rows;
  }

  method Totals(rows: seq<DirRow>) returns (n: int)
    ensures n == Total(rows)
  {
    n := 0;
    for i := 0 to |rows|
      invariant n == Total(rows[..i])
    {
      assert rows[..i + 1][..i] == rows[..i];
      n := n + rows[i].bytes;
    }
    assert rows[..|rows|] == rows;
  }

  function At(m: map<int, int>, b: int): int { if b in m then m[b] else 0 }

  /** Per bucket and direction, the total of the selected rows, without building them. */
  method SumByBucket(rows: seq<FlowAgg>, p: Point) returns (down: map<int, int>, up: map<int, int>)
    ensures forall b :: At(down, b) == Total(Selected(OfBucket(rows, b), p, Download))
    ensures forall b :: At(up, b) == Total(Selected(OfBucket(rows, b), p, Upload))
  {
    down, up := map[], map[];
    for i := 0 to |rows|
      invariant forall b :: At(down, b) == Total(Selected(OfBucket(rows[..i], b), p, Download))
      invariant forall b :: At(up, b) == Total(Selected(OfBucket(rows[..i], b), p, Upload))
    {
      hide Selected, OfBucket, Total, Counts;
      forall b, d: Dir
        ensures Total(Selected(OfBucket(rows[..i + 1], b), p, d)) ==
                Total(Selected(OfBucket(rows[..i], b), p, d)) + Adds(rows[i], p, d, b)
      {
        NextRow(rows, i, b, p, d);
      }
      down, up := SumRow(rows[i], p, down, up);
    }
    assert rows[..|rows|] == rows;
  }

  /** What row r adds to bucket b in direction d. */
  function Adds(r: FlowAgg, p: Point, d: Dir, b: int): int {
    if r.bucket == b && Counts(p, d, EndsOf(r)) then r.bytes else 0
  }

  method SumRow(r: FlowAgg, p: Point, down: map<int, int>, up: map<int, int>)
    returns (down': map<int, int>, up': map<int, int>)
    ensures forall b :: At(down', b) == At(down, b) + Adds(r, p, Download, b)
    ensures forall b :: At(up', b) == At(up, b) + Adds(r, p, Upload, b)
  {
    down', up' := down, up;
    var (d, u) := p.Directions(r.inIf, r.outIf);
    if !d && !u {
      return;
    }
    var b := r.bucket;
    var other := IsOther(r.src, r.dst);
    if d && (other || p.Keeps(r.dst)) {
      down' := down[b := At(down, b) + r.bytes];
    }
    if u && (other || p.Keeps(r.src)) {
      up' := up[b := At(up, b) + r.bytes];
    }
  }

  lemma NextRow(rows: seq<FlowAgg>, i: nat, b: int, p: Point, d: Dir)
    requires i < |rows|
    ensures Total(Selected(OfBucket(rows[..i + 1], b), p, d)) ==
            Total(Selected(OfBucket(rows[..i], b), p, d)) + Adds(rows[i], p, d, b)
  {
    assert rows[..i + 1][..i] == rows[..i];
    var s, r := OfBucket(rows[..i], b), rows[i];
    if r.bucket == b {
      assert OfBucket(rows[..i + 1], b) == s + [r];
      assert (s + [r])[..|s|] == s;
      var t := Selected(s, p, d);
      if Counts(p, d, EndsOf(r)) {
        assert Selected(s + [r], p, d) == t + [DirRowOf(r, d)];
        assert (t + [DirRowOf(r, d)])[..|t|] == t;
      } else {
        assert Selected(s + [r], p, d) == t + [] == t;
      }
    } else {
      assert OfBucket(rows[..i + 1], b) == s + [] == s;
    }
  }

  /** A selected row has the point's local endpoint on the side the direction says, past the
      point's filters; a folded row has no endpoints. */
  lemma {:induction false} SelectedFaces(rows: seq<FlowAgg>, p: Point, d: Dir)
    ensures forall x :: x in Selected(rows, p, d) ==>
      if x.other then x.local == x.remote == NoAddr
      else
        && (x.local, x.remote) == (if d == Download then (x.dst, x.src) else (x.src, x.dst))
        && x.local != NoAddr && x.remote != NoAddr
        && x.local !in p.exclude && (p.localInternal ==> p.internal(x.local))
    decreases |rows|
  {
    if rows != [] {
      SelectedFaces(rows[..|rows| - 1], p, d);
    }
  }

  /** A stored row is seen at a point in a direction. Facing up, what enters through one of
      the point's interfaces is a download and what leaves an upload; facing down the reverse.
      Interface 0 is none. A folded row always passes the filters; any other passes them with
      the destination of a download or the source of an upload. */
  predicate InView(p: Point, d: Dir, e: Ends) {
    var entering := if p.facingUp then d == Download else d == Upload;
    && (entering ==> e.inIf != 0 && e.inIf in p.ifs)
    && (!entering ==> e.outIf != 0 && e.outIf in p.ifs)
    && (e.src != NoAddr && e.dst != NoAddr ==>
          && (d == Download ==> (p.localInternal ==> p.internal(e.dst)) && e.dst !in p.exclude)
          && (d == Upload ==> (p.localInternal ==> p.internal(e.src)) && e.src !in p.exclude))
  }

  lemma CountsInView(p: Point, d: Dir, e: Ends)
    ensures Counts(p, d, e) <==> InView(p, d, e)
  {
  }

  /** x is stored row r as seen in direction d. */
  predicate Shows(x: DirRow, r: FlowAgg, d: Dir) {
    && x.bucket == r.bucket && x.proto == r.proto && x.port == r.port
    && x.bytes == r.bytes && x.packets == r.packets && x.flows == r.flows
    && (x.other <==> r.src == NoAddr || r.dst == NoAddr)
    && (x.other ==> x.src == NoAddr && x.dst == NoAddr && x.local == NoAddr && x.remote == NoAddr)
    && (!x.other ==> x.src == r.src && x.dst == r.dst)
    && (!x.other && d == Download ==> x.local == r.dst && x.remote == r.src)
    && (!x.other && d == Upload ==> x.local == r.src && x.remote == r.dst)
  }

  /** The selected rows are the stored rows in view, each once and in their order. */
  lemma {:induction false} SelectedIs(rows: seq<FlowAgg>, p: Point, d: Dir) returns (from: seq<nat>)
    ensures |from| == |Selected(rows, p, d)|
    ensures forall i, j :: 0 <= i < j < |from| ==> from[i] < from[j]
    ensures forall k :: 0 <= k < |from| ==> from[k] < |rows| && Shows(Selected(rows, p, d)[k], rows[from[k]], d)
    ensures forall i :: 0 <= i < |rows| ==> (i in from <==> InView(p, d, EndsOf(rows[i])))
    decreases |rows|
  {
    if rows == [] {
      from := [];
    } else {
      var n := |rows| - 1;
      var before := SelectedIs(rows[..n], p, d);
      CountsInView(p, d, EndsOf(rows[n]));
      from := before + if Counts(p, d, EndsOf(rows[n])) then [n] else [];
      hide InView, Counts;
      assert forall i :: 0 <= i < n ==> rows[..n][i] == rows[i];
      assert n !in before;
    }
  }

  // ---------- totals as sums over keys ----------

  function Weights(rows: seq<FlowAgg>): seq<(Ends, int)> {
    if rows == [] then [] else Weights(rows[..|rows| - 1]) + [(EndsOf(rows[|rows| - 1]), rows[|rows| - 1].bytes)]
  }

  function Counter(p: Point, d: Dir): Ends -> bool { (e: Ends) => Counts(p, d, e) }

  /** The total of the selected rows is the sum of the bytes of the keys that count. */
  lemma {:induction false} TotalIsSum(rows: seq<FlowAgg>, p: Point, d: Dir)
    ensures Total(Selected(rows, p, d)) == SumIf(Weights(rows), Counter(p, d))
    decreases |rows|
  {
    if rows != [] {
      var rest, r := rows[..|rows| - 1], rows[|rows| - 1];
      TotalIsSum(rest, p, d);
      var w, t := Weights(rest), Selected(rest, p, d);
      assert (w + [(EndsOf(r), r.bytes)])[..|w|] == w;
      if Counts(p, d, EndsOf(r)) {
        assert (t + [DirRowOf(r, d)])[..|t|] == t;
      } else {
        assert t + [] == t;
      }
    }
  }
}
