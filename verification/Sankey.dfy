/**
 * The Sankey graph of one point: remote endpoints or applications on one side,
 * local hosts and their ports on the other, every byte of the point passing
 * through the middle node.
 */
module Sankey {
  import opened Sums

  datatype Dir = Download | Upload

  datatype NodeKind = RemoteNode | AppNode | PointNode | HostNode | PortNode | OtherNode

  datatype Node = Node(id: string, kind: NodeKind)

  datatype Edge = Edge(from: string, to: string, bytes: int)

  datatype Link = Link(source: nat, target: nat, value: int)

  datatype Group = Group(key: string, bytes: int)

  /** What is laid out: the shown groups, what was folded, and the shown ports of the shown hosts. */
  datatype Parts = Parts(byApp: bool, point: string, remotes: seq<Group>, restRemote: int,
                         locals: seq<Group>, restLocal: int, ports: seq<string>, hostPort: map<string, string>)

  // ---------- names ----------

  function RemoteId(byApp: bool, key: string): string { (if byApp then "app:" else "remote:") + key }
  function PointId(name: string): string { "point:" + name }
  function HostId(key: string): string { "host:" + key }
  function PortId(dev: string, iface: string): string { "port:" + dev + ":" + iface }
  const OTHER_REMOTE := "other:remote"
  const OTHER_LOCAL := "other:local"

  predicate IsPortId(id: string) { |id| >= 5 && id[..5] == "port:" }

  // ---------- nodes and edges ----------

  function RemoteNodes(p: Parts): seq<Node> {
    seq(|p.remotes|, i requires 0 <= i < |p.remotes| =>
      Node(RemoteId(p.byApp, p.remotes[i].key), if p.byApp then AppNode else RemoteNode))
    + if p.restRemote > 0 then [Node(OTHER_REMOTE, OtherNode)] else []
  }

  function LocalNodes(p: Parts): seq<Node> {
    seq(|p.locals|, i requires 0 <= i < |p.locals| => Node(HostId(p.locals[i].key), HostNode))
    + if p.restLocal > 0 then [Node(OTHER_LOCAL, OtherNode)] else []
  }

  function PortNodes(p: Parts): seq<Node> {
    seq(|p.ports|, i requires 0 <= i < |p.ports| => Node(p.ports[i], PortNode))
  }

  /** In flow order. */
  function Nodes(p: Parts, dir: Dir): seq<Node> {
    if dir == Upload then PortNodes(p) + LocalNodes(p) + [Node(PointId(p.point), PointNode)] + RemoteNodes(p)
    else RemoteNodes(p) + [Node(PointId(p.point), PointNode)] + LocalNodes(p) + PortNodes(p)
  }

  function RemoteEdges(p: Parts): seq<Edge> {
    seq(|p.remotes|, i requires 0 <= i < |p.remotes| =>
      Edge(RemoteId(p.byApp, p.remotes[i].key), PointId(p.point), p.remotes[i].bytes))
    + if p.restRemote > 0 then [Edge(OTHER_REMOTE, PointId(p.point), p.restRemote)] else []
  }

  function LocalEdges(p: Parts): seq<Edge> {
    seq(|p.locals|, i requires 0 <= i < |p.locals| => Edge(PointId(p.point), HostId(p.locals[i].key), p.locals[i].bytes))
    + if p.restLocal > 0 then [Edge(PointId(p.point), OTHER_LOCAL, p.restLocal)] else []
  }

  /** The shown port of a host, if it has one. */
  predicate HasPort(p: Parts, g: Group) { g.key in p.hostPort && p.hostPort[g.key] in p.ports }

  function PortEdges(p: Parts, n: nat): seq<Edge>
    requires n <= |p.locals|
  {
    if n == 0 then []
    else
      PortEdges(p, n - 1) + PortEdge(p, p.locals[n - 1])
  }

  function PortEdge(p: Parts, g: Group): seq<Edge> {
    if HasPort(p, g) then [Edge(HostId(g.key), p.hostPort[g.key], g.bytes)] else []
  }

  /** In download orientation. */
  function Edges(p: Parts): seq<Edge> { RemoteEdges(p) + LocalEdges(p) + PortEdges(p, |p.locals|) }

  ghost predicate DistinctKeys(gs: seq<Group>) {
    forall i, j :: 0 <= i < j < |gs| ==> gs[i].key != gs[j].key
  }

  ghost predicate WellFormed(p: Parts) {
    && DistinctKeys(p.remotes) && DistinctKeys(p.locals)
    && (forall g :: g in p.remotes ==> g.bytes > 0) && (forall g :: g in p.locals ==> g.bytes > 0)
    && p.restRemote >= 0 && p.restLocal >= 0
    && (forall i, j :: 0 <= i < j < |p.ports| ==> p.ports[i] != p.ports[j])
    && (forall id :: id in p.ports ==> IsPortId(id))
  }

  // ---------- the graph, item by item ----------

  /** Every shown group has a node of its kind and an edge with its bytes: from the remote end
      or application to the point, from the point to the host, from the host to its port;
      what is not shown stands in for itself at either side. */
  lemma GraphIs(p: Parts, dir: Dir)
    ensures forall g :: g in p.remotes && !p.byApp ==>
      Node("remote:" + g.key, RemoteNode) in Nodes(p, dir) && Edge("remote:" + g.key, "point:" + p.point, g.bytes) in Edges(p)
    ensures forall g :: g in p.remotes && p.byApp ==>
      Node("app:" + g.key, AppNode) in Nodes(p, dir) && Edge("app:" + g.key, "point:" + p.point, g.bytes) in Edges(p)
    ensures forall g :: g in p.locals ==>
      Node("host:" + g.key, HostNode) in Nodes(p, dir) && Edge("point:" + p.point, "host:" + g.key, g.bytes) in Edges(p)
    ensures forall id :: id in p.ports ==> Node(id, PortNode) in Nodes(p, dir)
    ensures p.restRemote > 0 ==>
      Node("other:remote", OtherNode) in Nodes(p, dir) && Edge("other:remote", "point:" + p.point, p.restRemote) in Edges(p)
    ensures p.restLocal > 0 ==>
      Node("other:local", OtherNode) in Nodes(p, dir) && Edge("point:" + p.point, "other:local", p.restLocal) in Edges(p)
    ensures Node("point:" + p.point, PointNode) in Nodes(p, dir)
    ensures |Nodes(p, dir)| == |p.remotes| + |p.locals| + |p.ports| + 1 + (if p.restRemote > 0 then 1 else 0)
                               + (if p.restLocal > 0 then 1 else 0)
    ensures |Edges(p)| == |p.remotes| + |p.locals| + (if p.restRemote > 0 then 1 else 0) + (if p.restLocal > 0 then 1 else 0)
                          + |PortEdges(p, |p.locals|)|
  {
    RemoteItems(p);
    LocalItems(p);
    forall id | id in p.ports
      ensures Node(id, PortNode) in PortNodes(p)
    {
      var i :| 0 <= i < |p.ports| && p.ports[i] == id;
      assert PortNodes(p)[i] == Node(id, PortNode);
    }
    hide RemoteNodes, LocalNodes, PortNodes, RemoteEdges, LocalEdges, PortEdges;
    assert Node("point:" + p.point, PointNode) in [Node(PointId(p.point), PointNode)];
  }

  lemma RemoteItems(p: Parts)
    ensures forall g :: g in p.remotes ==>
      && Node(RemoteId(p.byApp, g.key), if p.byApp then AppNode else RemoteNode) in RemoteNodes(p)
      && Edge(RemoteId(p.byApp, g.key), PointId(p.point), g.bytes) in RemoteEdges(p)
    ensures p.restRemote > 0 ==>
      Node(OTHER_REMOTE, OtherNode) in RemoteNodes(p) && Edge(OTHER_REMOTE, PointId(p.point), p.restRemote) in RemoteEdges(p)
    ensures |RemoteNodes(p)| == |RemoteEdges(p)| == |p.remotes| + if p.restRemote > 0 then 1 else 0
  {
    forall g | g in p.remotes
      ensures Node(RemoteId(p.byApp, g.key), if p.byApp then AppNode else RemoteNode) in RemoteNodes(p)
      ensures Edge(RemoteId(p.byApp, g.key), PointId(p.point), g.bytes) in RemoteEdges(p)
    {
      var i :| 0 <= i < |p.remotes| && p.remotes[i] == g;
      assert RemoteNodes(p)[i].id == RemoteId(p.byApp, g.key);
      assert RemoteEdges(p)[i].bytes == g.bytes;
    }
  }

  lemma LocalItems(p: Parts)
    ensures forall g :: g in p.locals ==>
      Node(HostId(g.key), HostNode) in LocalNodes(p) && Edge(PointId(p.point), HostId(g.key), g.bytes) in LocalEdges(p)
    ensures p.restLocal > 0 ==>
      Node(OTHER_LOCAL, OtherNode) in LocalNodes(p) && Edge(PointId(p.point), OTHER_LOCAL, p.restLocal) in LocalEdges(p)
    ensures |LocalNodes(p)| == |LocalEdges(p)| == |p.locals| + if p.restLocal > 0 then 1 else 0
  {
    forall g | g in p.locals
      ensures Node(HostId(g.key), HostNode) in LocalNodes(p)
      ensures Edge(PointId(p.point), HostId(g.key), g.bytes) in LocalEdges(p)
    {
      var i :| 0 <= i < |p.locals| && p.locals[i] == g;
      assert LocalNodes(p)[i].id == HostId(g.key);
      assert LocalEdges(p)[i].bytes == g.bytes;
    }
  }

  // ---------- ids are distinct ----------

  /** The layer an id belongs to can be read off its prefix. */
  function Layer(id: string): int {
    if id == [] then -1
    else if id == OTHER_REMOTE || id[0] == 'r' || id[0] == 'a' then 0
    else if id == OTHER_LOCAL || id[0] == 'h' then 2
    else if |id| >= 3 && id[0] == 'p' && id[2] == 'i' then 1
    else if |id| >= 3 && id[0] == 'p' && id[2] == 'r' then 3
    else -1
  }

  ghost predicate InLayer(ns: seq<Node>, l: int) {
    forall i :: 0 <= i < |ns| ==> Layer(ns[i].id) == l
  }

  ghost predicate DistinctIds(ns: seq<Node>) {
    forall i, j :: 0 <= i < j < |ns| ==> ns[i].id != ns[j].id
  }

  lemma DistinctConcat(a: seq<Node>, b: seq<Node>)
    requires DistinctIds(a) && DistinctIds(b)
    requires forall i, j :: 0 <= i < |a| && 0 <= j < |b| ==> a[i].id != b[j].id
    ensures DistinctIds(a + b)
  {
  }

  lemma SamePrefix(prefix: string, a: string, b: string)
    requires prefix + a == prefix + b
    ensures a == b
  {
    assert a == (prefix + a)[|prefix|..] && b == (prefix + b)[|prefix|..];
  }

  lemma RemoteLayer(p: Parts)
    requires WellFormed(p)
    ensures InLayer(RemoteNodes(p), 0) && DistinctIds(RemoteNodes(p))
  {
    var ns := RemoteNodes(p);
    forall i, j | 0 <= i < j < |p.remotes|
      ensures RemoteId(p.byApp, p.remotes[i].key) != RemoteId(p.byApp, p.remotes[j].key)
    {
      if RemoteId(p.byApp, p.remotes[i].key) == RemoteId(p.byApp, p.remotes[j].key) {
        SamePrefix(if p.byApp then "app:" else "remote:", p.remotes[i].key, p.remotes[j].key);
        assert false;
      }
    }
    forall i | 0 <= i < |p.remotes|
      ensures ns[i].id[0] == 'r' || ns[i].id[0] == 'a'
    {
    }
    assert OTHER_REMOTE[0] == 'o';
  }

  lemma LocalLayer(p: Parts)
    requires WellFormed(p)
    ensures InLayer(LocalNodes(p), 2) && DistinctIds(LocalNodes(p))
  {
    var ns := LocalNodes(p);
    forall i, j | 0 <= i < j < |p.locals|
      ensures HostId(p.locals[i].key) != HostId(p.locals[j].key)
    {
      if HostId(p.locals[i].key) == HostId(p.locals[j].key) {
        SamePrefix("host:", p.locals[i].key, p.locals[j].key);
        assert false;
      }
    }
    forall i | 0 <= i < |p.locals|
      ensures ns[i].id[0] == 'h'
    {
    }
    assert OTHER_LOCAL[0] == 'o' && OTHER_REMOTE[0] == 'o' && OTHER_LOCAL[6] != OTHER_REMOTE[6];
  }

  lemma PortLayer(p: Parts)
    requires WellFormed(p)
    ensures InLayer(PortNodes(p), 3) && DistinctIds(PortNodes(p))
  {
    var ns := PortNodes(p);
    forall i | 0 <= i < |ns|
      ensures Layer(ns[i].id) == 3
    {
      assert p.ports[i] in p.ports;
      var id := ns[i].id;
      assert id[0] == id[..5][0] == 'p' && id[2] == id[..5][2] == 'r';
      assert OTHER_REMOTE[0] == 'o' && OTHER_LOCAL[0] == 'o';
    }
  }

  lemma PointLayer(p: Parts)
    ensures Layer(PointId(p.point)) == 1
  {
    var id := PointId(p.point);
    assert id[0] == 'p' && id[2] == 'i';
    assert OTHER_REMOTE[0] == 'o' && OTHER_LOCAL[0] == 'o';
  }

  /** No two nodes have the same id. */
  lemma NodesDistinct(p: Parts, dir: Dir)
    requires WellFormed(p)
    ensures DistinctIds(Nodes(p, dir))
  {
    hide Layer, RemoteNodes, LocalNodes, PortNodes;
    RemoteLayer(p);
    LocalLayer(p);
    PortLayer(p);
    PointLayer(p);
    var mid := [Node(PointId(p.point), PointNode)];
    var outer := if dir == Upload then PortNodes(p) + LocalNodes(p) else RemoteNodes(p) + mid;
    if dir == Upload {
      DistinctConcat(PortNodes(p), LocalNodes(p));
      DistinctConcat(outer, mid);
      DistinctConcat(outer + mid, RemoteNodes(p));
    } else {
      DistinctConcat(RemoteNodes(p), mid);
      DistinctConcat(outer, LocalNodes(p));
      DistinctConcat(outer + LocalNodes(p), PortNodes(p));
    }
  }

  // ---------- nodes stand in flow order ----------

  ghost predicate Rising(ns: seq<Node>) {
    forall i, j :: 0 <= i < j < |ns| ==> Layer(ns[i].id) <= Layer(ns[j].id)
  }

  ghost predicate Falling(ns: seq<Node>) {
    forall i, j :: 0 <= i < j < |ns| ==> Layer(ns[i].id) >= Layer(ns[j].id)
  }

  lemma NodesInOrder(p: Parts)
    requires WellFormed(p)
    ensures Rising(Nodes(p, Download)) && Falling(Nodes(p, Upload))
  {
    hide Layer, RemoteNodes, LocalNodes, PortNodes;
    RemoteLayer(p);
    LocalLayer(p);
    PortLayer(p);
    PointLayer(p);
  }

  ghost predicate HasNode(ns: seq<Node>, id: string) { exists i :: 0 <= i < |ns| && ns[i].id == id }

  /** An edge runs between two shown nodes, one layer to a later one, and carries something. */
  ghost predicate IsEdge(p: Parts, e: Edge) {
    && Layer(e.from) < Layer(e.to) && e.bytes > 0
    && HasNode(RemoteNodes(p) + LocalNodes(p) + PortNodes(p) + [Node(PointId(p.point), PointNode)], e.from)
    && HasNode(RemoteNodes(p) + LocalNodes(p) + PortNodes(p) + [Node(PointId(p.point), PointNode)], e.to)
  }

  lemma HasIn(a: seq<Node>, ns: seq<Node>, b: seq<Node>, i: nat)
    requires i < |ns|
    ensures HasNode(a + ns + b, ns[i].id)
  {
    assert (a + ns + b)[|a| + i] == ns[i];
  }

  lemma AllNodes(p: Parts)
    ensures var all := RemoteNodes(p) + LocalNodes(p) + PortNodes(p) + [Node(PointId(p.point), PointNode)];
            && (forall i :: 0 <= i < |RemoteNodes(p)| ==> HasNode(all, RemoteNodes(p)[i].id))
            && (forall i :: 0 <= i < |LocalNodes(p)| ==> HasNode(all, LocalNodes(p)[i].id))
            && (forall i :: 0 <= i < |PortNodes(p)| ==> HasNode(all, PortNodes(p)[i].id))
            && HasNode(all, PointId(p.point))
  {
    hide RemoteNodes, LocalNodes, PortNodes;
    var r, l, t, m := RemoteNodes(p), LocalNodes(p), PortNodes(p), [Node(PointId(p.point), PointNode)];
    var all := r + l + t + m;
    assert all == [] + r + (l + t + m) && all == r + l + (t + m) && all == (r + l) + t + m;
    forall i | 0 <= i < |r|
      ensures HasNode(all, r[i].id)
    {
      HasIn([], r, l + t + m, i);
    }
    forall i | 0 <= i < |l|
      ensures HasNode(all, l[i].id)
    {
      HasIn(r, l, t + m, i);
    }
    forall i | 0 <= i < |t|
      ensures HasNode(all, t[i].id)
    {
      HasIn(r + l, t, m, i);
    }
    assert all[|all| - 1] == m[0];
  }

  lemma RemoteEdgesAre(p: Parts)
    requires WellFormed(p)
    ensures |RemoteEdges(p)| == |RemoteNodes(p)|
    ensures forall i :: 0 <= i < |RemoteEdges(p)| ==>
      && RemoteEdges(p)[i].from == RemoteNodes(p)[i].id && RemoteEdges(p)[i].to == PointId(p.point)
      && RemoteEdges(p)[i].bytes > 0
  {
    forall i | 0 <= i < |p.remotes|
      ensures p.remotes[i].bytes > 0
    {
      assert p.remotes[i] in p.remotes;
    }
  }

  lemma LocalEdgesAre(p: Parts)
    requires WellFormed(p)
    ensures |LocalEdges(p)| == |LocalNodes(p)|
    ensures forall i :: 0 <= i < |LocalEdges(p)| ==>
      && LocalEdges(p)[i].to == LocalNodes(p)[i].id && LocalEdges(p)[i].from == PointId(p.point)
      && LocalEdges(p)[i].bytes > 0
  {
    forall i | 0 <= i < |p.locals|
      ensures p.locals[i].bytes > 0
    {
      assert p.locals[i] in p.locals;
    }
  }

  lemma {:induction false} PortEdgesAre(p: Parts, n: nat)
    requires WellFormed(p) && n <= |p.locals|
    ensures forall e :: e in PortEdges(p, n) ==>
      exists i, j :: 0 <= i < |p.locals| && 0 <= j < |p.ports|
        && e == Edge(HostId(p.locals[i].key), p.ports[j], p.locals[i].bytes)
  {
    if n > 0 {
      PortEdgesAre(p, n - 1);
      var g := p.locals[n - 1];
      if HasPort(p, g) {
        var j :| 0 <= j < |p.ports| && p.ports[j] == p.hostPort[g.key];
        var e := Edge(HostId(g.key), p.hostPort[g.key], g.bytes);
        assert e == Edge(HostId(p.locals[n - 1].key), p.ports[j], p.locals[n - 1].bytes);
      }
    }
  }

  lemma EdgesAre(p: Parts)
    requires WellFormed(p)
    ensures forall k :: 0 <= k < |Edges(p)| ==> IsEdge(p, Edges(p)[k])
  {
    hide Layer, RemoteNodes, LocalNodes, PortNodes, RemoteEdges, LocalEdges, PortEdges, HasNode;
    AllNodes(p);
    RemoteLayer(p);
    LocalLayer(p);
    PortLayer(p);
    PointLayer(p);
    RemoteEdgesAre(p);
    LocalEdgesAre(p);
    PortEdgesAre(p, |p.locals|);
    forall k | 0 <= k < |Edges(p)|
      ensures IsEdge(p, Edges(p)[k])
    {
      var a, b := |RemoteEdges(p)|, |RemoteEdges(p)| + |LocalEdges(p)|;
      var e := Edges(p)[k];
      if k < a {
        assert e == RemoteEdges(p)[k];
      } else if k < b {
        assert e == LocalEdges(p)[k - a];
      } else {
        assert e == PortEdges(p, |p.locals|)[k - b];
        PortEdgeIs(p, e);
      }
    }
  }

  lemma PortEdgeIs(p: Parts, e: Edge)
    requires WellFormed(p) && e in PortEdges(p, |p.locals|)
    ensures IsEdge(p, e)
  {
    hide Layer, PortEdges, HasNode;
    AllNodes(p);
    LocalLayer(p);
    PortLayer(p);
    PortEdgesAre(p, |p.locals|);
    var i, j :| 0 <= i < |p.locals| && 0 <= j < |p.ports|
                && e == Edge(HostId(p.locals[i].key), p.ports[j], p.locals[i].bytes);
    assert LocalNodes(p)[i].id == e.from && PortNodes(p)[j].id == e.to;
    assert p.locals[i] in p.locals;
  }

  // ---------- bytes balance ----------

  function Into(id: string): Edge -> int { (e: Edge) => if e.to == id then e.bytes else 0 }
  function OutOf(id: string): Edge -> int { (e: Edge) => if e.from == id then e.bytes else 0 }
  function Weight(): Group -> int { (g: Group) => g.bytes }

  lemma RemoteSum(p: Parts)
    requires WellFormed(p)
    ensures SeqSum(RemoteEdges(p), Into(PointId(p.point))) == SeqSum(p.remotes, Weight()) + p.restRemote
  {
    var es := seq(|p.remotes|, i requires 0 <= i < |p.remotes| =>
      Edge(RemoteId(p.byApp, p.remotes[i].key), PointId(p.point), p.remotes[i].bytes));
    SeqSumMapped(es, p.remotes, Into(PointId(p.point)), Weight());
    SeqSumLast(es, Edge(OTHER_REMOTE, PointId(p.point), p.restRemote), Into(PointId(p.point)));
    assert es + [] == es;
  }

  lemma LocalSum(p: Parts)
    requires WellFormed(p)
    ensures SeqSum(LocalEdges(p), OutOf(PointId(p.point))) == SeqSum(p.locals, Weight()) + p.restLocal
  {
    var es := seq(|p.locals|, i requires 0 <= i < |p.locals| =>
      Edge(PointId(p.point), HostId(p.locals[i].key), p.locals[i].bytes));
    SeqSumMapped(es, p.locals, OutOf(PointId(p.point)), Weight());
    SeqSumLast(es, Edge(PointId(p.point), OTHER_LOCAL, p.restLocal), OutOf(PointId(p.point)));
    assert es + [] == es;
  }

  lemma EdgesSum(p: Parts, f: Edge -> int)
    ensures SeqSum(Edges(p), f) ==
            SeqSum(RemoteEdges(p), f) + SeqSum(LocalEdges(p), f) + SeqSum(PortEdges(p, |p.locals|), f)
  {
    SeqSumConcat(RemoteEdges(p) + LocalEdges(p), PortEdges(p, |p.locals|), f);
    SeqSumConcat(RemoteEdges(p), LocalEdges(p), f);
  }

  lemma OtherEdges(p: Parts)
    requires WellFormed(p)
    ensures forall i :: 0 <= i < |RemoteEdges(p)| ==> RemoteEdges(p)[i].from != PointId(p.point)
    ensures forall i :: 0 <= i < |LocalEdges(p)| ==> LocalEdges(p)[i].to != PointId(p.point)
    ensures forall e :: e in PortEdges(p, |p.locals|) ==> e.from != PointId(p.point) && e.to != PointId(p.point)
  {
    hide Layer, RemoteNodes, LocalNodes, RemoteEdges, LocalEdges, PortEdges;
    RemoteEdgesAre(p);
    LocalEdgesAre(p);
    PortEdgesAre(p, |p.locals|);
    RemoteLayer(p);
    LocalLayer(p);
    PortLayer(p);
    PointLayer(p);
    forall e | e in PortEdges(p, |p.locals|)
      ensures e.from != PointId(p.point) && e.to != PointId(p.point)
    {
      PortEdgeLayers(p, e);
    }
  }

  lemma PortEdgeLayers(p: Parts, e: Edge)
    requires WellFormed(p) && e in PortEdges(p, |p.locals|)
    ensures Layer(e.from) == 2 && Layer(e.to) == 3
  {
    hide Layer, PortEdges;
    LocalLayer(p);
    PortLayer(p);
    PortEdgesAre(p, |p.locals|);
    var i, j :| 0 <= i < |p.locals| && 0 <= j < |p.ports|
                && e == Edge(HostId(p.locals[i].key), p.ports[j], p.locals[i].bytes);
    assert LocalNodes(p)[i].id == e.from && PortNodes(p)[j].id == e.to;
  }

  /** What flows into the point and what flows out of it: each side's groups and its rest. */
  lemma PointBalance(p: Parts)
    requires WellFormed(p)
    ensures SeqSum(Edges(p), Into(PointId(p.point))) == SeqSum(p.remotes, Weight()) + p.restRemote
    ensures SeqSum(Edges(p), OutOf(PointId(p.point))) == SeqSum(p.locals, Weight()) + p.restLocal
  {
    hide RemoteEdges, LocalEdges, PortEdges, WellFormed, Edges;
    var into, out, es := Into(PointId(p.point)), OutOf(PointId(p.point)), PortEdges(p, |p.locals|);
    EdgesSum(p, into);
    EdgesSum(p, out);
    RemoteSum(p);
    LocalSum(p);
    OtherEdges(p);
    assert forall i :: 0 <= i < |es| ==> es[i] in es;
    SeqSumZero(LocalEdges(p), into);
    SeqSumZero(RemoteEdges(p), out);
    SeqSumZero(es, into);
    SeqSumZero(es, out);
  }

  /** The bytes of the shown hosts attached to a port. */
  function Attached(p: Parts, id: string): Group -> int {
    (g: Group) => if HasPort(p, g) && p.hostPort[g.key] == id then g.bytes else 0
  }

  lemma {:induction false} PortEdgesSum(p: Parts, n: nat, id: string)
    requires n <= |p.locals|
    ensures SeqSum(PortEdges(p, n), Into(id)) == SeqSum(p.locals[..n], Attached(p, id))
  {
    if n > 0 {
      PortEdgesSum(p, n - 1, id);
      hide SeqSum, PortEdge, Into, Attached;
      var g := p.locals[n - 1];
      assert p.locals[..n] == p.locals[..n - 1] + [g];
      SeqSumLast(p.locals[..n - 1], g, Attached(p, id));
      SeqSumConcat(PortEdges(p, n - 1), PortEdge(p, g), Into(id));
      PortEdgeSum(p, g, id);
    } else {
      assert p.locals[..0] == [];
    }
  }

  lemma PortEdgeSum(p: Parts, g: Group, id: string)
    ensures SeqSum(PortEdge(p, g), Into(id)) == Attached(p, id)(g)
  {
    if HasPort(p, g) {
      SeqSumLast([], Edge(HostId(g.key), p.hostPort[g.key], g.bytes), Into(id));
      assert [] + PortEdge(p, g) == PortEdge(p, g);
    }
  }

  /** A shown port receives what its shown hosts do. */
  lemma PortBalance(p: Parts, id: string)
    requires WellFormed(p) && id in p.ports
    ensures SeqSum(Edges(p), Into(id)) == SeqSum(p.locals, Attached(p, id))
  {
    hide RemoteEdges, LocalEdges, PortEdges, Edges, Layer, RemoteNodes, LocalNodes;
    EdgesSum(p, Into(id));
    PortEdgesSum(p, |p.locals|, id);
    assert p.locals[..|p.locals|] == p.locals;
    RemoteEdgesAre(p);
    LocalEdgesAre(p);
    LocalLayer(p);
    PointLayer(p);
    PortLayer(p);
    var j :| 0 <= j < |p.ports| && p.ports[j] == id;
    assert Layer(PortNodes(p)[j].id) == 3;
    SeqSumZero(RemoteEdges(p), Into(id));
    SeqSumZero(LocalEdges(p), Into(id));
  }

  // ---------- links ----------

  function BitRate(bytes: int, seconds: real): real
    requires seconds > 0.0
  {
    bytes as real * 8.0 / seconds
  }

  /** The average bit rate to the nearest unit, at least 1. */
  function Rate(bytes: int, seconds: real): (r: int)
    requires seconds > 0.0
    ensures r >= 1
    ensures 8.0 * bytes as real / seconds >= 0.5 ==> r as real - 0.5 <= 8.0 * bytes as real / seconds < r as real + 0.5
    ensures 8.0 * bytes as real / seconds < 0.5 ==> r == 1
  {
    var rounded := (BitRate(bytes, seconds) + 0.5).Floor;
    if rounded < 1 then 1 else rounded
  }

  /** Link k joins the nodes of edge k, in the direction of the flow, and points forward in the node list. */
  ghost predicate IsLink(ns: seq<Node>, dir: Dir, e: Edge, l: Link, seconds: real)
    requires seconds > 0.0
  {
    && l.source < l.target < |ns|
    && (dir == Download ==> ns[l.source].id == e.from && ns[l.target].id == e.to)
    && (dir == Upload ==> ns[l.source].id == e.to && ns[l.target].id == e.from)
    && l.value == Rate(e.bytes, seconds)
  }

  ghost predicate IsLinks(p: Parts, dir: Dir, seconds: real, links: seq<Link>)
    requires seconds > 0.0
  {
    |links| == |Edges(p)| && forall k :: 0 <= k < |links| ==> IsLink(Nodes(p, dir), dir, Edges(p)[k], links[k], seconds)
  }

  /** The upload graph has the nodes of the download graph and its links reversed. */
  lemma UploadReverses(p: Parts, seconds: real, down: seq<Link>, up: seq<Link>)
    requires WellFormed(p) && seconds > 0.0
    requires IsLinks(p, Download, seconds, down) && IsLinks(p, Upload, seconds, up)
    ensures multiset(Nodes(p, Upload)) == multiset(Nodes(p, Download))
    ensures |up| == |down|
    ensures forall k :: 0 <= k < |up| ==>
      && Nodes(p, Upload)[up[k].source] == Nodes(p, Download)[down[k].target]
      && Nodes(p, Upload)[up[k].target] == Nodes(p, Download)[down[k].source]
      && up[k].value == down[k].value
  {
    hide Edges, RemoteNodes, LocalNodes, PortNodes;
    var r, l, t, m := RemoteNodes(p), LocalNodes(p), PortNodes(p), [Node(PointId(p.point), PointNode)];
    assert multiset(t + l + m + r) == multiset(t) + multiset(l) + multiset(m) + multiset(r);
    assert multiset(r + m + l + t) == multiset(r) + multiset(m) + multiset(l) + multiset(t);
    NodesDistinct(p, Download);
    forall k | 0 <= k < |up|
      ensures Nodes(p, Upload)[up[k].source] == Nodes(p, Download)[down[k].target]
      ensures Nodes(p, Upload)[up[k].target] == Nodes(p, Download)[down[k].source]
      ensures up[k].value == down[k].value
    {
      assert IsLink(Nodes(p, Upload), Upload, Edges(p)[k], up[k], seconds);
      assert IsLink(Nodes(p, Download), Download, Edges(p)[k], down[k], seconds);
      SameNode(Nodes(p, Upload), Nodes(p, Download), up[k].source, down[k].target);
      SameNode(Nodes(p, Upload), Nodes(p, Download), up[k].target, down[k].source);
    }
  }

  lemma SameNode(a: seq<Node>, b: seq<Node>, i: nat, j: nat)
    requires multiset(a) == multiset(b) && DistinctIds(b)
    requires i < |a| && j < |b| && a[i].id == b[j].id
    ensures a[i] == b[j]
  {
    assert a[i] in multiset(b);
    var k :| 0 <= k < |b| && b[k] == a[i];
  }
}
