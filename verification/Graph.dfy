/**
 What the traversals of path.go and traversal.go read: which nodes exist, and the
 edge list that a node's adjacency returns in each direction. Paths and their
 lengths are defined here once, independently of any search.
 */
module Graph {
  import opened Types

  datatype Graph = Graph(nodes: set<NodeID>, out: map<NodeID, seq<Edge>>, inc: map<NodeID, seq<Edge>>) {

    /** The edges returned for one node and direction. */
    function EdgesOf(id: NodeID, dir: Direction): seq<Edge> {
      var o := if id in out then out[id] else [];
      var i := if id in inc then inc[id] else [];
      match dir
      case Outgoing => o
      case Incoming => i
      case Both => o + i
    }

    function Out(id: NodeID): seq<Edge> {
      if id in out then out[id] else []
    }

    /** Adjacency lists hold edges of the node they are filed under. */
    ghost predicate Filed() {
      && (forall id, e {:trigger e in out[id]} :: id in out && e in out[id] ==> e.from == id)
      && (forall id, e {:trigger e in inc[id]} :: id in inc && e in inc[id] ==> e.to == id)
    }

    /** Every edge joins two existing nodes, and only existing nodes have edges. */
    ghost predicate NoDangling() {
      && (forall id :: id in out ==> id in nodes)
      && (forall id :: id in inc ==> id in nodes)
      && (forall id, e {:trigger e in out[id]} :: id in out && e in out[id] ==> e.to in nodes)
      && (forall id, e {:trigger e in inc[id]} :: id in inc && e in inc[id] ==> e.from in nodes)
    }

    /** `e` is listed for `u` and leads from there to `v`: forwards, backwards, or in either way. */
    ghost predicate Joins(dir: Direction, u: NodeID, e: Edge, v: NodeID) {
      var forwards := u in out && e in out[u] && e.from == u && e.to == v;
      var backwards := u in inc && e in inc[u] && e.to == u && e.from == v;
      match dir
      case Outgoing => forwards
      case Incoming => backwards
      case Both => forwards || backwards
    }

    /** `p` leads from `source` to `target` along stored outgoing edges. */
    ghost predicate IsPath(source: NodeID, p: seq<Edge>, target: NodeID)
      decreases |p|
    {
      if p == [] then source == target
      else
        var e := p[|p| - 1];
        e.to == target && e in Out(e.from) && IsPath(source, p[..|p| - 1], e.from)
    }

    lemma JoinsListed(u: NodeID, e: Edge, v: NodeID, stored: bool)
      requires (u in out && e in out[u] && e.from == u) <==> (stored && u == e.from)
      requires (u in inc && e in inc[u] && e.to == u) <==> (stored && u == e.to)
      ensures Joins(Outgoing, u, e, v) <==> stored && u == e.from && v == e.to
      ensures Joins(Incoming, u, e, v) <==> stored && u == e.to && v == e.from
      ensures Joins(Both, u, e, v) <==> stored && ((u == e.from && v == e.to) || (u == e.to && v == e.from))
    {
    }

    /** Every node that is a source, or the head of an outgoing edge: the finite world of a search. */
    ghost function Heads(): set<NodeID> {
      set id, e | id in out && e in out[id] :: e.to
    }

    lemma HeadOfOut(id: NodeID, e: Edge)
      requires e in Out(id)
      ensures e.to in Heads()
    {
      assert id in out && e in out[id];
    }
  }

  /** The nodes a path visits: its source, then the head of each edge. */
  function PathNodes(source: NodeID, p: seq<Edge>): (ids: seq<NodeID>)
    ensures |ids| == |p| + 1 && ids[0] == source
    ensures forall i :: 0 <= i < |p| ==> ids[i + 1] == p[i].to
  {
    if p == [] then [source] else PathNodes(source, p[..|p| - 1]) + [p[|p| - 1].to]
  }

  /** What the path searches return: nodes, edges, and `cost`, which is always the hop count. */
  datatype PathResult = PathResult(nodes: seq<NodeID>, edges: seq<Edge>, cost: real)

  datatype Outcome<+T> = Ok(value: T) | NotFound(id: NodeID)

  /** buildPathResult: look up every node on the path, failing on the first that is missing. */
  method BuildPathResult(g: Graph, source: NodeID, p: seq<Edge>) returns (r: Outcome<PathResult>)
    ensures r.Ok? <==> forall id :: id in PathNodes(source, p) ==> id in g.nodes
    ensures r.Ok? ==> r.value == PathResult(PathNodes(source, p), p, |p| as real)
    ensures r.NotFound? ==> r.id in PathNodes(source, p) && r.id !in g.nodes
  {
    var ids := PathNodes(source, p);
    var nodes := [];
    for i := 0 to |ids|
      invariant nodes == ids[..i]
      invariant forall k :: 0 <= k < i ==> ids[k] in g.nodes
    {
      if ids[i] !in g.nodes {
        return NotFound(ids[i]);
      }
      nodes := nodes + [ids[i]];
    }
    r := Ok(PathResult(nodes, p, |p| as real));
  }

  /** Without dangling edges a path from an existing node never meets a missing one. */
  lemma {:induction false} PathStaysInGraph(g: Graph, source: NodeID, p: seq<Edge>, target: NodeID)
    requires g.NoDangling() && source in g.nodes && g.IsPath(source, p, target)
    ensures forall id :: id in PathNodes(source, p) ==> id in g.nodes
    decreases |p|
  {
    if p != [] {
      var e := p[|p| - 1];
      PathStaysInGraph(g, source, p[..|p| - 1], e.from);
      assert e.from in g.out && e in g.out[e.from];
    }
  }

  lemma PathExtends(g: Graph, source: NodeID, p: seq<Edge>, e: Edge)
    requires g.IsPath(source, p, e.from) && e in g.Out(e.from)
    ensures g.IsPath(source, p + [e], e.to)
  {
    assert (p + [e])[..|p|] == p;
  }
}
