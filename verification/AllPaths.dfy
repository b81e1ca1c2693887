/**
 AllPaths: depth-first enumeration of simple paths. The recursion shares one
 mutable `visited` set, marking a node before the recursive call and unmarking
 it after.
 */
module AllPaths {
  import opened Types
  import opened Graph

  ghost predicate Differ<T>(s: seq<T>, i: int, j: int)
    requires 0 <= i < j < |s|
  {
    s[i] != s[j]
  }

  ghost predicate Distinct<T>(s: seq<T>) {
    forall i, j {:trigger Differ(s, i, j)} :: 0 <= i < j < |s| ==> Differ(s, i, j)
  }

  lemma DistinctConcat<T>(a: seq<T>, b: seq<T>)
    ensures Distinct(a + b) <==> Distinct(a) && Distinct(b) && forall x :: x in a ==> x !in b
  {
    var s := a + b;
    if Distinct(s) {
      forall i, j | 0 <= i < j < |a| ensures Differ(a, i, j) {
        assert Differ(s, i, j);
      }
      forall i, j | 0 <= i < j < |b| ensures Differ(b, i, j) {
        assert Differ(s, |a| + i, |a| + j);
      }
      forall x | x in a ensures x !in b {
        var i :| 0 <= i < |a| && a[i] == x;
        forall j | 0 <= j < |b| ensures b[j] != x {
          assert Differ(s, i, |a| + j);
        }
      }
    }
    if Distinct(a) && Distinct(b) && forall x :: x in a ==> x !in b {
      forall i, j | 0 <= i < j < |s| ensures Differ(s, i, j) {
        if j < |a| {
          assert Differ(a, i, j);
        } else if |a| <= i {
          assert Differ(b, i - |a|, j - |a|);
        } else {
          assert a[i] in a && b[j - |a|] in b;
        }
      }
    }
  }

  /** Each adjacency list names an edge once. */
  ghost predicate ListsOnce(g: Graph) {
    forall id {:trigger g.Out(id)} :: Distinct(g.Out(id))
  }

  /** The paths to be listed: from source to target, no node twice, at most `max` edges. */
  ghost predicate Wanted(g: Graph, source: NodeID, target: NodeID, max: nat, p: seq<Edge>) {
    g.IsPath(source, p, target) && Distinct(PathNodes(source, p)) && |p| <= max
  }

  /** Wanted paths that continue `path`. */
  ghost predicate WantedFrom(g: Graph, source: NodeID, target: NodeID, max: nat, path: seq<Edge>, p: seq<Edge>) {
    path <= p && Wanted(g, source, target, max, p)
  }

  lemma {:induction false} NodesOfPrefix(source: NodeID, p: seq<Edge>, n: nat)
    requires n <= |p|
    ensures PathNodes(source, p[..n]) == PathNodes(source, p)[..n + 1]
  {
    var whole, part := PathNodes(source, p), PathNodes(source, p[..n]);
    forall i | 0 <= i <= n ensures part[i] == whole[i] {
      if i > 0 {
        assert whole[i - 1 + 1] == p[i - 1].to && part[i - 1 + 1] == p[..n][i - 1].to;
      }
    }
  }

  /** Step `i` of a path leaves the node reached so far along a stored edge. */
  lemma {:induction false} PathStep(g: Graph, source: NodeID, p: seq<Edge>, target: NodeID, i: nat)
    requires g.IsPath(source, p, target) && i < |p|
    ensures p[i] in g.Out(p[i].from) && g.IsPath(source, p[..i], p[i].from)
    ensures p[i].from == PathNodes(source, p)[i]
    decreases |p|
  {
    var front := p[..|p| - 1];
    if i < |p| - 1 {
      PathStep(g, source, front, p[|p| - 1].from, i);
      assert front[..i] == p[..i];
      NodesOfPrefix(source, p, |p| - 1);
    } else {
      PathEnd(g, source, front, p[i].from);
      NodesOfPrefix(source, p, i);
    }
  }

  lemma PathEnd(g: Graph, source: NodeID, p: seq<Edge>, target: NodeID)
    requires g.IsPath(source, p, target)
    ensures PathNodes(source, p)[|p|] == target
  {
    if p != [] {
      assert PathNodes(source, p)[|p| - 1 + 1] == p[|p| - 1].to;
    }
  }

  /** At the target the only wanted continuation is to stop. */
  lemma StopsAtTarget(g: Graph, source: NodeID, target: NodeID, max: nat, path: seq<Edge>, p: seq<Edge>)
    requires g.IsPath(source, path, target) && WantedFrom(g, source, target, max, path, p)
    ensures p == path
  {
    PathEnd(g, source, path, target);
    PathEnd(g, source, p, target);
    NodesOfPrefix(source, p, |path|);
    assert p[..|path|] == path;
    assert PathNodes(source, p)[|path|] == target == PathNodes(source, p)[|p|];
    assert |path| < |p| ==> Differ(PathNodes(source, p), |path|, |p|);
  }

  lemma NextIsNew(source: NodeID, p: seq<Edge>, n: nat)
    requires n < |p| && Distinct(PathNodes(source, p))
    ensures p[n].to !in PathNodes(source, p)[..n + 1]
  {
    var nodes := PathNodes(source, p);
    assert nodes[n + 1] == p[n].to;
    assert nodes == nodes[..n + 1] + nodes[n + 1..];
    DistinctConcat(nodes[..n + 1], nodes[n + 1..]);
    assert nodes[n + 1..][0] == p[n].to;
  }

  /** Elsewhere every wanted continuation takes one of the node's edges, to a node not yet on the path. */
  lemma TakesAnEdge(g: Graph, source: NodeID, target: NodeID, max: nat, path: seq<Edge>, current: NodeID, p: seq<Edge>)
    requires g.IsPath(source, path, current) && WantedFrom(g, source, target, max, path, p) && current != target
    ensures |path| < |p| && |path| < max
    ensures p[|path|] in g.Out(current) && p[|path|].to !in PathNodes(source, path)
    ensures WantedFrom(g, source, target, max, path + [p[|path|]], p)
  {
    PathEnd(g, source, path, current);
    PathEnd(g, source, p, target);
    assert |p| == |path| ==> p == path;
    var n := |path|;
    assert p[..n] == path;
    NodesOfPrefix(source, p, n);
    PathStep(g, source, p, target, n);
    NextIsNew(source, p, n);
    assert path + [p[n]] == p[..n + 1];
  }

  lemma ExtendDistinct(source: NodeID, path: seq<Edge>, e: Edge)
    requires Distinct(PathNodes(source, path)) && e.to !in PathNodes(source, path)
    ensures Distinct(PathNodes(source, path + [e]))
    ensures PathNodes(source, path + [e]) == PathNodes(source, path) + [e.to]
  {
    assert (path + [e])[..|path|] == path;
    DistinctConcat(PathNodes(source, path), [e.to]);
  }

  /** The end of a path. */
  function End(source: NodeID, path: seq<Edge>): NodeID {
    PathNodes(source, path)[|path|]
  }

  /** The search as a function: the paths found below `path`, in the order they are found. */
  ghost function Found(g: Graph, source: NodeID, target: NodeID, max: nat, path: seq<Edge>): seq<seq<Edge>>
    decreases max - |path|, 1, 0
  {
    if End(source, path) == target then [path]
    else if |path| >= max then []
    else FoundVia(g, source, target, max, path, g.Out(End(source, path)))
  }

  ghost function FoundVia(g: Graph, source: NodeID, target: NodeID, max: nat, path: seq<Edge>,
      edges: seq<Edge>): seq<seq<Edge>>
    requires |path| < max
    decreases max - |path|, 0, |edges|
  {
    if edges == [] then []
    else
      var e := edges[|edges| - 1];
      FoundVia(g, source, target, max, path, edges[..|edges| - 1]) +
      if e.to in PathNodes(source, path) then [] else Found(g, source, target, max, path + [e])
  }

  /** Nothing but wanted paths is found. */
  lemma {:induction false} FoundIsWanted(g: Graph, source: NodeID, target: NodeID, max: nat, path: seq<Edge>,
      p: seq<Edge>)
    requires g.Filed() && g.IsPath(source, path, End(source, path)) && Distinct(PathNodes(source, path)) &&
             |path| <= max
    requires p in Found(g, source, target, max, path)
    ensures WantedFrom(g, source, target, max, path, p)
    decreases max - |path|, 1, 0
  {
    if End(source, path) != target && |path| < max {
      FoundViaIsWanted(g, source, target, max, path, g.Out(End(source, path)), p);
    }
  }

  lemma {:induction false} FoundViaIsWanted(g: Graph, source: NodeID, target: NodeID, max: nat, path: seq<Edge>,
      edges: seq<Edge>, p: seq<Edge>)
    requires g.Filed() && g.IsPath(source, path, End(source, path)) && Distinct(PathNodes(source, path)) && |path| < max
    requires forall e :: e in edges ==> e in g.Out(End(source, path))
    requires p in FoundVia(g, source, target, max, path, edges)
    ensures WantedFrom(g, source, target, max, path, p) && |path| < |p| && p[|path|] in edges
    decreases max - |path|, 0, |edges|
  {
    var n := |edges| - 1;
    var e := edges[n];
    if p in FoundVia(g, source, target, max, path, edges[..n]) {
      FoundViaIsWanted(g, source, target, max, path, edges[..n], p);
    } else {
      EdgeContinues(g, source, path, e);
      FoundIsWanted(g, source, target, max, path + [e], p);
      assert p[|path|] == (path + [e])[|path|] == e;
      assert path == (path + [e])[..|path|] <= p;
    }
  }

  lemma EdgeContinues(g: Graph, source: NodeID, path: seq<Edge>, e: Edge)
    requires g.Filed() && g.IsPath(source, path, End(source, path)) && Distinct(PathNodes(source, path))
    requires e in g.Out(End(source, path)) && e.to !in PathNodes(source, path)
    ensures End(source, path + [e]) == e.to && g.IsPath(source, path + [e], e.to)
    ensures Distinct(PathNodes(source, path + [e]))
  {
    var id := End(source, path);
    assert id in g.out && e in g.out[id];
    PathExtends(g, source, path, e);
    ExtendDistinct(source, path, e);
    PathEnd(g, source, path + [e], e.to);
  }

  /** Every wanted path is found. */
  lemma {:induction false} WantedIsFound(g: Graph, source: NodeID, target: NodeID, max: nat, path: seq<Edge>,
      p: seq<Edge>)
    requires g.Filed() && g.IsPath(source, path, End(source, path)) && Distinct(PathNodes(source, path))
    requires WantedFrom(g, source, target, max, path, p)
    ensures p in Found(g, source, target, max, path)
    decreases max - |path|
  {
    if End(source, path) == target {
      StopsAtTarget(g, source, target, max, path, p);
    } else {
      TakesAnEdge(g, source, target, max, path, End(source, path), p);
      var e := p[|path|];
      EdgeContinues(g, source, path, e);
      WantedIsFound(g, source, target, max, path + [e], p);
      ViaContains(g, source, target, max, path, g.Out(End(source, path)), e, p);
    }
  }

  lemma {:induction false} ViaContains(g: Graph, source: NodeID, target: NodeID, max: nat, path: seq<Edge>,
      edges: seq<Edge>, e: Edge, p: seq<Edge>)
    requires |path| < max && e in edges && e.to !in PathNodes(source, path) &&
             p in Found(g, source, target, max, path + [e])
    ensures p in FoundVia(g, source, target, max, path, edges)
    decreases |edges|
  {
    if e != edges[|edges| - 1] {
      ViaContains(g, source, target, max, path, edges[..|edges| - 1], e, p);
    }
  }

  /** Nothing is found twice. */
  lemma {:induction false} FoundOnce(g: Graph, source: NodeID, target: NodeID, max: nat, path: seq<Edge>)
    requires g.Filed() && ListsOnce(g) && g.IsPath(source, path, End(source, path)) &&
             Distinct(PathNodes(source, path)) && |path| <= max
    ensures Distinct(Found(g, source, target, max, path))
    decreases max - |path|, 1, 0
  {
    if End(source, path) != target && |path| < max {
      FoundViaOnce(g, source, target, max, path, g.Out(End(source, path)));
    }
  }

  lemma {:induction false} FoundViaOnce(g: Graph, source: NodeID, target: NodeID, max: nat, path: seq<Edge>,
      edges: seq<Edge>)
    requires g.Filed() && ListsOnce(g) && g.IsPath(source, path, End(source, path)) &&
             Distinct(PathNodes(source, path)) && |path| < max
    requires Distinct(edges) && forall e :: e in edges ==> e in g.Out(End(source, path))
    ensures Distinct(FoundVia(g, source, target, max, path, edges))
    decreases max - |path|, 0, |edges|
  {
    if edges != [] {
      var n := |edges| - 1;
      var e := edges[n];
      assert edges == edges[..n] + edges[n..];
      DistinctConcat(edges[..n], edges[n..]);
      FoundViaOnce(g, source, target, max, path, edges[..n]);
      assert FoundVia(g, source, target, max, path, edges[..n]) + [] ==
               FoundVia(g, source, target, max, path, edges[..n]);
      if e.to !in PathNodes(source, path) {
        EdgeContinues(g, source, path, e);
        FoundOnce(g, source, target, max, path + [e]);
        var old', new' := FoundVia(g, source, target, max, path, edges[..n]), Found(g, source, target, max, path + [e]);
        assert e in edges[n..];
        forall p | p in old' ensures |p| > |path| && p[|path|] != e {
          FoundViaIsWanted(g, source, target, max, path, edges[..n], p);
        }
        forall p | p in new' ensures |p| > |path| && p[|path|] == e {
          FoundIsWanted(g, source, target, max, path + [e], p);
          assert p[|path|] == (path + [e])[|path|];
        }
        DistinctConcat(old', new');
      }
    }
  }

  /** buildPathResult applied to each path. */
  ghost function Assembled(source: NodeID, paths: seq<seq<Edge>>): seq<PathResult> {
    seq(|paths|, i requires 0 <= i < |paths| => PathResult(PathNodes(source, paths[i]), paths[i], |paths[i]| as real))
  }

  lemma AssembledAppends(source: NodeID, a: seq<seq<Edge>>, b: seq<seq<Edge>>)
    ensures Assembled(source, a + b) == Assembled(source, a) + Assembled(source, b)
  {
  }

  /** `visited` is exactly the nodes of the current path. */
  ghost predicate Tracking(g: Graph, source: NodeID, path: seq<Edge>, visited: set<NodeID>) {
    && g.Filed() && g.IsPath(source, path, End(source, path)) && Distinct(PathNodes(source, path))
    && visited == set id | id in PathNodes(source, path)
  }

  lemma Marks(g: Graph, source: NodeID, path: seq<Edge>, visited: set<NodeID>, e: Edge)
    requires Tracking(g, source, path, visited) && e in g.Out(End(source, path)) && e.to !in visited
    ensures Tracking(g, source, path + [e], visited + {e.to}) && End(source, path + [e]) == e.to
    ensures e.to !in PathNodes(source, path)
  {
    EdgeContinues(g, source, path, e);
    ExtendDistinct(source, path, e);
  }

  lemma ViaOneMore(g: Graph, source: NodeID, target: NodeID, max: nat, path: seq<Edge>, edges: seq<Edge>, k: nat)
    requires |path| < max && k < |edges|
    ensures var before, after :=
              FoundVia(g, source, target, max, path, edges[..k]),
                  FoundVia(g, source, target, max, path, edges[..k + 1]);
            Assembled(source, after) == Assembled(source, before) +
              if edges[k].to in PathNodes(source, path) then []
                else Assembled(source, Found(g, source, target, max, path + [edges[k]]))
  {
    assert edges[..k + 1][..k] == edges[..k];
    AssembledAppends(source, FoundVia(g, source, target, max, path, edges[..k]),
                     Found(g, source, target, max, path + [edges[k]]));
  }

  lemma Regroup(a: seq<PathResult>, b: seq<PathResult>, c: seq<PathResult>)
    ensures (a + b) + c == a + (b + c)
  {
  }

  class Enumeration {
    const g: Graph
    const source: NodeID
    const target: NodeID
    const max: nat
    var visited: set<NodeID>
    var results: seq<PathResult>

    constructor (g: Graph, source: NodeID, target: NodeID, max: nat)
      ensures this.g == g && this.source == source && this.target == target && this.max == max
      ensures visited == {source} && results == []
    {
      this.g, this.source, this.target, this.max := g, source, target, max;
      visited, results := {source}, [];
    }

    method Dfs(current: NodeID, path: seq<Edge>) returns (missing: Option<NodeID>)
      requires Tracking(g, source, path, visited) && current == End(source, path) && |path| <= max
      modifies this
      ensures missing.None? ==> visited == old(visited)
      ensures missing.None? ==> results == old(results) + Assembled(source, Found(g, source, target, max, path))
      ensures missing.Some? ==> missing.value !in g.nodes
      ensures g.NoDangling() && source in g.nodes ==> missing.None?
      decreases max - |path|, 1
    {
      if current == target {
        if g.NoDangling() && source in g.nodes {
          PathStaysInGraph(g, source, path, target);
        }
        var built := BuildPathResult(g, source, path);
        if built.NotFound? {
          return Some(built.id);
        }
        results := results + [built.value];
        return None;
      }
      if |path| >= max {
        return None;
      }
      missing := FollowEdges(current, path);
    }

    /** The loop over the outgoing edges. */
    method FollowEdges(current: NodeID, path: seq<Edge>) returns (missing: Option<NodeID>)
      requires Tracking(g, source, path, visited) && current == End(source, path) && |path| < max
      modifies this
      ensures missing.None? ==> visited == old(visited)
      ensures missing.None? ==>
                results == old(results) + Assembled(source, FoundVia(g, source, target, max, path, g.Out(current)))
      ensures missing.Some? ==> missing.value !in g.nodes
      ensures g.NoDangling() && source in g.nodes ==> missing.None?
      decreases max - |path|, 0, 1
    {
      var edges := g.EdgesOf(current, Outgoing);
      for k := 0 to |edges|
        invariant visited == old(visited)
        invariant results == old(results) + Assembled(source, FoundVia(g, source, target, max, path, edges[..k]))
      {
        ViaOneMore(g, source, target, max, path, edges, k);
        ghost var before := results;
        missing := Follow(path, edges[k]);
        if missing.Some? {
          return;
        }
        Regroup(old(results), Assembled(source, FoundVia(g, source, target, max, path, edges[..k])),
                results[|before|..]);
      }
      assert edges[..|edges|] == edges;
      missing := None;
    }

    /** One edge: skip a visited head, otherwise mark it, recurse, and unmark it. */
    method Follow(path: seq<Edge>, e: Edge) returns (missing: Option<NodeID>)
      requires Tracking(g, source, path, visited) && e in g.Out(End(source, path)) && |path| < max
      modifies this
      ensures missing.None? ==> visited == old(visited)
      ensures missing.None? ==>
                results == old(results) + (
                  if e.to in PathNodes(source, path) then []
                    else Assembled(source, Found(g, source, target, max, path + [e])))
      ensures missing.Some? ==> missing.value !in g.nodes
      ensures g.NoDangling() && source in g.nodes ==> missing.None?
      decreases max - |path|, 0, 0
    {
      if e.to in visited {
        return None;
      }
      Marks(g, source, path, visited, e);
      visited := visited + {e.to};
      missing := Dfs(e.to, path + [e]);
      if missing.Some? {
        return;
      }
      visited := visited - {e.to};
    }
  }

  /**
   AllPaths: exactly the simple paths of at most `maxDepth` edges (10 when not
   positive), each once.
   */
  method Enumerate(g: Graph, source: NodeID, target: NodeID, maxDepth: int) returns (r: Outcome<seq<PathResult>>)
    requires g.Filed() && ListsOnce(g)
    ensures var max := if maxDepth <= 0 then 10 else maxDepth;
            r.Ok? ==>
              && (forall p :: Wanted(g, source, target, max, p) <==>
                  exists i :: 0 <= i < |r.value| && r.value[i].edges == p)
              && (forall i, j :: 0 <= i < j < |r.value| ==> r.value[i].edges != r.value[j].edges)
              && (forall i :: 0 <= i < |r.value| ==> r.value[i].nodes == PathNodes(source, r.value[i].edges))
    ensures r.NotFound? ==> r.id !in g.nodes
    ensures g.NoDangling() && source in g.nodes ==> r.Ok?
  {
    var max: nat := if maxDepth <= 0 then 10 else maxDepth;
    var search := new Enumeration(g, source, target, max);
    var missing := search.Dfs(source, []);
    if missing.Some? {
      return NotFound(missing.value);
    }
    ghost var found := Found(g, source, target, max, []);
    assert search.results == Assembled(source, found);
    FoundOnce(g, source, target, max, []);
    ListedExactly(g, source, target, max, search.results);
    r := Ok(search.results);
  }

  lemma ListedExactly(g: Graph, source: NodeID, target: NodeID, max: nat, results: seq<PathResult>)
    requires g.Filed() && results == Assembled(source, Found(g, source, target, max, []))
    requires Distinct(Found(g, source, target, max, []))
    ensures forall p :: Wanted(g, source, target, max, p) <==> exists i :: 0 <= i < |results| && results[i].edges == p
    ensures forall i, j :: 0 <= i < j < |results| ==> results[i].edges != results[j].edges
  {
    var found := Found(g, source, target, max, []);
    forall p ensures Wanted(g, source, target, max, p) <==> exists i :: 0 <= i < |results| && results[i].edges == p {
      if Wanted(g, source, target, max, p) {
        WantedIsFound(g, source, target, max, [], p);
        var i :| 0 <= i < |found| && found[i] == p;
        assert results[i].edges == p;
      }
      if i :| 0 <= i < |results| && results[i].edges == p {
        FoundIsWanted(g, source, target, max, [], found[i]);
      }
    }
    forall i, j | 0 <= i < j < |results| ensures results[i].edges != results[j].edges {
      assert Differ(found, i, j);
    }
  }
}
