/**
 BFS over a direction, an edge filter and a depth limit, and the hop-count
 shortest path built the same way.
 */
module BreadthFirst {
  import opened Types
  import opened Graph

  datatype Visit = Visit(node: NodeID, depth: nat, path: seq<Edge>)

  /** What a traversal follows. A negative `max` means no limit. */
  datatype Traversal = Traversal(g: Graph, start: NodeID, max: int, dir: Direction, filter: Edge -> bool) {

    /** The node an edge leads to when followed from `u`. */
    function Target(u: NodeID, e: Edge): NodeID {
      match dir
      case Outgoing => e.to
      case Incoming => e.from
      case Both => if e.to == u then e.from else e.to
    }

    predicate Accepts(u: NodeID, e: Edge) {
      e in g.EdgesOf(u, dir) && filter(e) && Target(u, e) in g.nodes
    }

    /** Where following `p` from the start leads, if every step is accepted. */
    ghost function End(p: seq<Edge>): Option<NodeID> {
      if p == [] then Some(start)
      else
        var u := End(p[..|p| - 1]);
        if u.Some? && Accepts(u.value, p[|p| - 1]) then Some(Target(u.value, p[|p| - 1])) else None
    }

    ghost predicate Within(n: nat) {
      max < 0 || n <= max
    }

    /** A visit whose path is real, of the stated length, and as short as any. */
    ghost predicate Exact(v: Visit) {
      && End(v.path) == Some(v.node) && |v.path| == v.depth && Within(v.depth)
      && forall p {:trigger End(p)} :: End(p) == Some(v.node) ==> v.depth <= |p|
    }

    ghost predicate At(visits: seq<Visit>, pos: map<NodeID, nat>, id: NodeID) {
      id in pos && pos[id] < |visits| && visits[pos[id]].node == id
    }

    /** `pos` locates every visited node in `visits`. */
    ghost predicate Indexed(visits: seq<Visit>, pos: map<NodeID, nat>) {
      && (forall id {:trigger At(visits, pos, id)} :: id in pos ==> At(visits, pos, id))
      && (forall i {:trigger visits[i]} :: 0 <= i < |visits| ==> visits[i].node in pos && pos[visits[i].node] == i)
    }

    ghost predicate InOrder(visits: seq<Visit>, i: int, j: int)
      requires 0 <= i < |visits| && 0 <= j < |visits|
    {
      visits[i].depth <= visits[j].depth
    }

    ghost predicate Sorted(visits: seq<Visit>) {
      forall i, j {:trigger InOrder(visits, i, j)} :: 0 <= i <= j < |visits| ==> InOrder(visits, i, j)
    }

    /** `id` was reached within `d` steps. */
    ghost predicate Reached(visits: seq<Visit>, pos: map<NodeID, nat>, id: NodeID, d: nat) {
      At(visits, pos, id) && visits[pos[id]].depth <= d
    }

    /** Every accepted edge of visit `i` leads to a node reached at most one step deeper. */
    ghost predicate Expanded(visits: seq<Visit>, pos: map<NodeID, nat>, i: int)
      requires 0 <= i < |visits|
    {
      Within(visits[i].depth + 1) ==>
        forall e {:trigger Accepts(visits[i].node, e)} ::
          Accepts(visits[i].node, e) ==> Reached(visits, pos, Target(visits[i].node, e), visits[i].depth + 1)
    }

    /** The state with the first `h` visits expanded. */
    ghost predicate Frontier(visits: seq<Visit>, pos: map<NodeID, nat>, h: nat) {
      && h <= |visits| && 0 < |visits| && visits[0] == Visit(start, 0, [])
      && Indexed(visits, pos) && Sorted(visits)
      && (forall i {:trigger Exact(visits[i])} :: 0 <= i < |visits| ==> Exact(visits[i]))
      && (forall i {:trigger Expanded(visits, pos, i)} :: 0 <= i < h ==> Expanded(visits, pos, i))
      && (h < |visits| ==> forall i {:trigger visits[i]} :: 0 <= i < |visits| ==>
          visits[i].depth <= visits[h].depth + 1)
    }
  }

  /** With everything shallower than `d` expanded, every walk of length at most `d` ends at a reached node. */
  lemma {:induction false} WalksReach(t: Traversal, visits: seq<Visit>, pos: map<NodeID, nat>, h: nat, d: nat,
      p: seq<Edge>)
    requires t.Frontier(visits, pos, h) && t.Within(d)
    requires forall i {:trigger visits[i]} :: 0 <= i < |visits| && visits[i].depth < d ==> i < h
    requires t.End(p).Some? && |p| <= d
    ensures t.Reached(visits, pos, t.End(p).value, |p|)
    decreases |p|
  {
    if p == [] {
      assert visits[0].node in pos;
      assert t.At(visits, pos, t.start);
    } else {
      var n := |p| - 1;
      var u := t.End(p[..n]).value;
      WalksReach(t, visits, pos, h, d, p[..n]);
      var i := pos[u];
      assert visits[i].depth < d;
      assert t.Expanded(visits, pos, i);
      assert t.Accepts(visits[i].node, p[n]);
    }
  }

  /** A node first met while expanding visit `h` is one step deeper, and no walk is shorter. */
  lemma DiscoverIsExact(t: Traversal, visits: seq<Visit>, pos: map<NodeID, nat>, h: nat, e: Edge)
    requires t.Frontier(visits, pos, h) && h < |visits| && t.Within(visits[h].depth + 1)
    requires t.Accepts(visits[h].node, e) && t.Target(visits[h].node, e) !in pos
    ensures t.Exact(Visit(t.Target(visits[h].node, e), visits[h].depth + 1, visits[h].path + [e]))
  {
    var u, d := visits[h].node, visits[h].depth;
    var path := visits[h].path + [e];
    assert t.Exact(visits[h]);
    assert path[..|path| - 1] == visits[h].path;
    forall p | t.End(p) == Some(t.Target(u, e)) ensures d + 1 <= |p| {
      if |p| <= d {
        forall i | 0 <= i < |visits| && visits[i].depth < d ensures i < h {
          assert h <= i ==> t.InOrder(visits, h, i);
        }
        WalksReach(t, visits, pos, h, d, p);
      }
    }
  }

  /** Appending a discovered node keeps the frontier. */
  lemma Discover(t: Traversal, visits: seq<Visit>, pos: map<NodeID, nat>, h: nat, e: Edge)
    requires t.Frontier(visits, pos, h) && h < |visits| && t.Within(visits[h].depth + 1)
    requires t.Accepts(visits[h].node, e) && t.Target(visits[h].node, e) !in pos
    ensures var v := Visit(t.Target(visits[h].node, e), visits[h].depth + 1, visits[h].path + [e]);
            t.Frontier(visits + [v], pos[v.node := |visits|], h)
  {
    var v := Visit(t.Target(visits[h].node, e), visits[h].depth + 1, visits[h].path + [e]);
    var visits', pos' := visits + [v], pos[v.node := |visits|];
    DiscoverIsExact(t, visits, pos, h, e);
    forall id | id in pos' ensures t.At(visits', pos', id) {
      assert id != v.node ==> t.At(visits, pos, id);
    }
    forall i, j | 0 <= i <= j < |visits'| ensures t.InOrder(visits', i, j) {
      assert j < |visits| ==> t.InOrder(visits, i, j);
      assert i < |visits| ==> visits[i].depth <= visits[h].depth + 1;
    }
    forall i | 0 <= i < |visits'| ensures t.Exact(visits'[i]) {
      assert i < |visits| ==> t.Exact(visits[i]);
    }
    forall i | 0 <= i < h ensures t.Expanded(visits', pos', i) {
      assert t.Expanded(visits, pos, i);
      StillExpanded(t, visits, pos, v, i);
    }
  }

  lemma StillExpanded(t: Traversal, visits: seq<Visit>, pos: map<NodeID, nat>, v: Visit, i: nat)
    requires i < |visits| && t.Expanded(visits, pos, i) && v.node !in pos
    ensures t.Expanded(visits + [v], pos[v.node := |visits|], i)
  {
    var visits', pos' := visits + [v], pos[v.node := |visits|];
    if t.Within(visits[i].depth + 1) {
      forall e | t.Accepts(visits'[i].node, e)
        ensures t.Reached(visits', pos', t.Target(visits'[i].node, e), visits'[i].depth + 1)
      {
        assert t.Accepts(visits[i].node, e);
        assert t.Reached(visits, pos, t.Target(visits[i].node, e), visits[i].depth + 1);
      }
    }
  }

  lemma ExpandedAll(t: Traversal, visits: seq<Visit>, pos: map<NodeID, nat>, h: nat)
    requires t.Frontier(visits, pos, h) && h < |visits| && t.Expanded(visits, pos, h)
    ensures t.Frontier(visits, pos, h + 1)
  {
    if h + 1 < |visits| {
      assert t.InOrder(visits, h, h + 1);
      forall i | 0 <= i < |visits| ensures visits[i].depth <= visits[h + 1].depth + 1 {
        assert visits[i].depth <= visits[h].depth + 1;
      }
    }
  }

  /** The variables the search updates. */
  datatype State = State(visited: set<NodeID>, pathTo: map<NodeID, seq<Edge>>, queue: seq<(NodeID, nat)>,
      visits: seq<Visit>)

  ghost predicate QueuedAt(s: State, h: nat, k: int)
    requires h <= |s.visits| && 0 <= k < |s.queue| == |s.visits| - h
  {
    s.queue[k] == (s.visits[h + k].node, s.visits[h + k].depth)
  }

  ghost predicate PathKnown(s: State, pos: map<NodeID, nat>, id: NodeID) {
    id in pos && pos[id] < |s.visits| && id in s.pathTo && s.pathTo[id] == s.visits[pos[id]].path
  }

  ghost predicate Marked(t: Traversal, s: State, pos: map<NodeID, nat>, id: NodeID) {
    id in s.visited <==> id in pos
  }

  /** The queue is the unexpanded tail of the visits, and `visited` and `pathTo` agree with them. */
  ghost predicate Linked(t: Traversal, s: State, pos: map<NodeID, nat>, h: nat) {
    && h <= |s.visits| && |s.queue| == |s.visits| - h
    && (forall k {:trigger QueuedAt(s, h, k)} :: 0 <= k < |s.queue| ==> QueuedAt(s, h, k))
    && (forall id {:trigger Marked(t, s, pos, id)} :: id in t.g.nodes ==> Marked(t, s, pos, id))
    && (forall id {:trigger PathKnown(s, pos, id)} :: id in pos ==> PathKnown(s, pos, id))
    && pos.Keys <= t.g.nodes
  }

  lemma MarkMissing(t: Traversal, s: State, pos: map<NodeID, nat>, h: nat, id: NodeID, p: seq<Edge>)
    requires Linked(t, s, pos, h) && id !in t.g.nodes
    ensures Linked(t, s.(visited := s.visited + {id}, pathTo := s.pathTo[id := p]), pos, h)
  {
    var s' := s.(visited := s.visited + {id}, pathTo := s.pathTo[id := p]);
    forall k | 0 <= k < |s'.queue| ensures QueuedAt(s', h, k) { assert QueuedAt(s, h, k); }
    forall x | x in t.g.nodes ensures Marked(t, s', pos, x) { assert Marked(t, s, pos, x); }
    forall x | x in pos ensures PathKnown(s', pos, x) { assert PathKnown(s, pos, x); }
  }

  lemma MarkVisited(t: Traversal, s: State, pos: map<NodeID, nat>, h: nat, v: Visit)
    requires Linked(t, s, pos, h) && v.node in t.g.nodes && v.node !in pos
    ensures Linked(t,
                   State(s.visited + {v.node}, s.pathTo[v.node := v.path], s.queue + [(v.node, v.depth)],
                         s.visits + [v]),
                   pos[v.node := |s.visits|], h)
  {
    var s' := State(s.visited + {v.node}, s.pathTo[v.node := v.path], s.queue + [(v.node, v.depth)], s.visits + [v]);
    var pos' := pos[v.node := |s.visits|];
    forall k | 0 <= k < |s'.queue| ensures QueuedAt(s', h, k) { assert k < |s.queue| ==> QueuedAt(s, h, k); }
    forall x | x in t.g.nodes ensures Marked(t, s', pos', x) { assert Marked(t, s, pos, x); }
    forall x | x in pos' ensures PathKnown(s', pos', x) { assert x != v.node ==> PathKnown(s, pos, x); }
  }

  lemma PopFront(t: Traversal, s: State, pos: map<NodeID, nat>, h: nat)
    requires Linked(t, s, pos, h) && s.queue != []
    ensures h < |s.visits| && s.queue[0] == (s.visits[h].node, s.visits[h].depth)
    ensures Linked(t, s.(queue := s.queue[1..]), pos, h + 1)
  {
    var s', next := s.(queue := s.queue[1..]), h + 1;
    assert QueuedAt(s, h, 0);
    forall k | 0 <= k < |s'.queue| ensures QueuedAt(s', next, k) { assert QueuedAt(s, h, k + 1); }
    forall x | x in t.g.nodes ensures Marked(t, s', pos, x) { assert Marked(t, s, pos, x); }
    forall x | x in pos ensures PathKnown(s', pos, x) { assert PathKnown(s, pos, x); }
  }

  ghost predicate Covered(t: Traversal, s: State, pos: map<NodeID, nat>, u: NodeID, d: nat, e: Edge) {
    t.Accepts(u, e) ==> t.Reached(s.visits, pos, t.Target(u, e), d + 1)
  }

  lemma StillCovered(t: Traversal, s: State, s': State, pos: map<NodeID, nat>, v: Visit, u: NodeID, d: nat, e: Edge)
    requires Covered(t, s, pos, u, d, e) && s'.visits == s.visits + [v] && v.node !in pos
    ensures Covered(t, s', pos[v.node := |s.visits|], u, d, e)
  {
  }

  lemma AllStillCovered(t: Traversal, s: State, s': State, pos: map<NodeID, nat>, v: Visit, u: NodeID, d: nat,
      edges: seq<Edge>, i: nat)
    requires i <= |edges| && s'.visits == s.visits + [v] && v.node !in pos
    requires forall k {:trigger Covered(t, s, pos, u, d, edges[k])} :: 0 <= k < i ==> Covered(t, s, pos, u, d, edges[k])
    ensures forall k {:trigger Covered(t, s', pos[v.node := |s.visits|], u, d, edges[k])} :: 0 <= k < i ==>
              Covered(t, s', pos[v.node := |s.visits|], u, d, edges[k])
  {
    forall k | 0 <= k < i ensures Covered(t, s', pos[v.node := |s.visits|], u, d, edges[k]) {
      assert Covered(t, s, pos, u, d, edges[k]);
      StillCovered(t, s, s', pos, v, u, d, edges[k]);
    }
  }

  /** The inner loop: look at each edge of the node just taken from the queue. */
  method ExpandNode(t: Traversal, s0: State, ghost pos0: map<NodeID, nat>, ghost h: nat, u: NodeID, d: nat,
      keepGoing: Visit -> bool)
    returns (s: State, ghost pos: map<NodeID, nat>, stopped: bool)
    requires t.Frontier(s0.visits, pos0, h) && Linked(t, s0, pos0, h + 1) && h < |s0.visits|
    requires u == s0.visits[h].node && d == s0.visits[h].depth && t.Within(d + 1)
    ensures t.Frontier(s.visits, pos, if stopped then h else h + 1)
    ensures !stopped ==> Linked(t, s, pos, h + 1)
    ensures stopped ==> exists v :: !keepGoing(v)
    ensures t.g.nodes - pos.Keys < t.g.nodes - pos0.Keys || (pos == pos0 && (!stopped ==> s.queue == s0.queue))
  {
    s, pos, stopped := s0, pos0, false;
    var edges := t.g.EdgesOf(u, t.dir);
    for i := 0 to |edges|
      invariant !stopped
      invariant t.Frontier(s.visits, pos, h) && Linked(t, s, pos, h + 1) && h < |s.visits| &&
                s.visits[h] == s0.visits[h]
      invariant forall k {:trigger Covered(t, s, pos, u, d, edges[k])} :: 0 <= k < i ==>
                  Covered(t, s, pos, u, d, edges[k])
      invariant t.g.nodes - pos.Keys < t.g.nodes - pos0.Keys || (pos == pos0 && s.queue == s0.queue)
      invariant pos0.Keys <= pos.Keys
    {
      var e := edges[i];
      if !t.filter(e) {
        continue;
      }
      var target := t.Target(u, e);
      if target in s.visited {
        if target in t.g.nodes {
          assert Marked(t, s, pos, target);
          assert t.At(s.visits, pos, target);
          assert s.visits[pos[target]].depth <= s.visits[h].depth + 1;
        }
        continue;
      }
      assert PathKnown(s, pos, u) by {
        assert s.visits[h].node in pos;
      }
      var path := s.pathTo[u] + [e];
      ghost var before := s;
      if target !in t.g.nodes {
        MarkMissing(t, s, pos, h + 1, target, path);
        s := s.(visited := s.visited + {target}, pathTo := s.pathTo[target := path]);
        forall k | 0 <= k < i ensures Covered(t, s, pos, u, d, edges[k]) {
          assert Covered(t, before, pos, u, d, edges[k]);
        }
        continue;
      }
      assert Marked(t, s, pos, target);
      var v := Visit(target, d + 1, path);
      assert s.pathTo[u] == s.visits[h].path;
      Discover(t, s.visits, pos, h, e);
      MarkVisited(t, s, pos, h + 1, v);
      ghost var oldPos := pos;
      s := State(s.visited + {target}, s.pathTo[target := path], s.queue + [(target, d + 1)], s.visits + [v]);
      pos := pos[target := |before.visits|];
      assert target in t.g.nodes - pos0.Keys && target !in t.g.nodes - pos.Keys;
      if !keepGoing(v) {
        stopped := true;
        return;
      }
      forall k | 0 <= k < i ensures Covered(t, s, pos, u, d, edges[k]) {
        assert Covered(t, before, oldPos, u, d, edges[k]);
        StillCovered(t, before, s, oldPos, v, u, d, edges[k]);
      }
      assert Covered(t, s, pos, u, d, e);
    }
    AllCovered(t, s, pos, h, edges);
    ExpandedAll(t, s.visits, pos, h);
  }

  lemma AllCovered(t: Traversal, s: State, pos: map<NodeID, nat>, h: nat, edges: seq<Edge>)
    requires h < |s.visits| && edges == t.g.EdgesOf(s.visits[h].node, t.dir)
    requires forall k :: 0 <= k < |edges| ==> Covered(t, s, pos, s.visits[h].node, s.visits[h].depth, edges[k])
    ensures t.Expanded(s.visits, pos, h)
  {
    forall e | t.Accepts(s.visits[h].node, e)
      ensures t.Reached(s.visits, pos, t.Target(s.visits[h].node, e), s.visits[h].depth + 1)
    {
      var k :| 0 <= k < |edges| && edges[k] == e;
      assert Covered(t, s, pos, s.visits[h].node, s.visits[h].depth, edges[k]);
    }
  }

  lemma Start(t: Traversal)
    requires t.start in t.g.nodes
    ensures var s := State({t.start}, map[t.start := []], [(t.start, 0)], [Visit(t.start, 0, [])]);
            t.Frontier(s.visits, map[t.start := 0], 0) && Linked(t, s, map[t.start := 0], 0)
  {
    var s := State({t.start}, map[t.start := []], [(t.start, 0)], [Visit(t.start, 0, [])]);
    var pos: map<NodeID, nat> := map[t.start := 0];
    assert t.Exact(s.visits[0]);
  }

  // ---- what is visited, over the edges themselves ---------------------------------------------------------

  ghost predicate LinkAt(t: Traversal, ns: seq<NodeID>, p: seq<Edge>, k: int)
    requires 0 <= k < |p| < |ns|
  {
    t.filter(p[k]) && ns[k + 1] in t.g.nodes && t.g.Joins(t.dir, ns[k], p[k], ns[k + 1])
  }

  /** `p` leads over accepted edges from the start through the nodes `ns`, all of them stored. */
  ghost predicate Chained(t: Traversal, ns: seq<NodeID>, p: seq<Edge>) {
    && |ns| == |p| + 1 && ns[0] == t.start
    && forall k {:trigger LinkAt(t, ns, p, k)} :: 0 <= k < |p| ==> LinkAt(t, ns, p, k)
  }

  lemma StepJoins(t: Traversal, u: NodeID, e: Edge, v: NodeID)
    requires t.g.Filed()
    ensures (t.Accepts(u, e) && t.Target(u, e) == v) <==> (t.filter(e) && v in t.g.nodes && t.g.Joins(t.dir, u, e, v))
  {
  }

  lemma {:induction false} ChainEnds(t: Traversal, ns: seq<NodeID>, p: seq<Edge>)
    requires t.g.Filed() && Chained(t, ns, p)
    ensures t.End(p) == Some(ns[|p|])
    decreases |p|
  {
    if p != [] {
      var n := |p| - 1;
      var ns', p' := ns[..n + 1], p[..n];
      forall k | 0 <= k < n ensures LinkAt(t, ns', p', k) {
        assert LinkAt(t, ns, p, k);
      }
      ChainEnds(t, ns', p');
      assert LinkAt(t, ns, p, n);
      StepJoins(t, ns[n], p[n], ns[n + 1]);
    }
  }

  lemma {:induction false} WalkChains(t: Traversal, p: seq<Edge>) returns (ns: seq<NodeID>)
    requires t.g.Filed() && t.End(p).Some?
    ensures Chained(t, ns, p) && ns[|p|] == t.End(p).value
    decreases |p|
  {
    if p == [] {
      ns := [t.start];
    } else {
      var n := |p| - 1;
      var before := WalkChains(t, p[..n]);
      var v := t.End(p).value;
      StepJoins(t, before[n], p[n], v);
      ns := before + [v];
      forall k | 0 <= k < |p| ensures LinkAt(t, ns, p, k) {
        assert k < n ==> LinkAt(t, before, p[..n], k);
      }
    }
  }

  /** The visit's path is such a chain to its node, of its depth, and no such chain is shorter. */
  ghost predicate Nearest(t: Traversal, v: Visit) {
    && |v.path| == v.depth && (t.max < 0 || v.depth <= t.max)
    && (exists ns :: Chained(t, ns, v.path) && ns[v.depth] == v.node)
    && forall ns, p {:trigger Chained(t, ns, p)} :: Chained(t, ns, p) && ns[|p|] == v.node ==> v.depth <= |p|
  }

  lemma ExactIsNearest(t: Traversal, v: Visit)
    requires t.g.Filed() && t.Exact(v)
    ensures Nearest(t, v)
  {
    var ns := WalkChains(t, v.path);
    forall ns, p | Chained(t, ns, p) && ns[|p|] == v.node ensures v.depth <= |p| {
      ChainEnds(t, ns, p);
    }
  }

  /**
   BFS: the visits are exactly the nodes reachable over accepted edges within the
   limit, once each, nearest first, with true distances and real paths. A
   visitor that stops early leaves the same facts about what it saw. Where lists hold
   edges of their node, "over accepted edges" is said of the edges themselves.
   */
  method Bfs(t: Traversal, keepGoing: Visit -> bool) returns (r: Outcome<seq<Visit>>)
    ensures r.Ok? <==> t.start in t.g.nodes
    ensures r.Ok? ==>
              && (forall i :: 0 <= i < |r.value| ==> t.Exact(r.value[i]))
              && (forall i, j :: 0 <= i < j < |r.value| ==>
                  r.value[i].node != r.value[j].node && r.value[i].depth <= r.value[j].depth)
    ensures r.Ok? && (forall v :: keepGoing(v)) ==>
              forall p {:trigger t.End(p)} :: t.End(p).Some? && t.Within(|p|) ==>
                  exists i :: 0 <= i < |r.value| && r.value[i].node == t.End(p).value
    ensures r.Ok? && t.g.Filed() ==> forall i :: 0 <= i < |r.value| ==> Nearest(t, r.value[i])
    ensures r.Ok? && t.g.Filed() && (forall v :: keepGoing(v)) ==>
              forall ns, p {:trigger Chained(t, ns, p)} :: Chained(t, ns, p) && (t.max < 0 || |p| <= t.max) ==>
                  exists i :: 0 <= i < |r.value| && r.value[i].node == ns[|p|]
  {
    if t.start !in t.g.nodes {
      return NotFound(t.start);
    }
    var first := Visit(t.start, 0, []);
    var s := State({t.start}, map[t.start := []], [(t.start, 0)], [first]);
    ghost var pos: map<NodeID, nat> := map[t.start := 0];
    ghost var h := 0;
    Start(t);
    if !keepGoing(first) {
      Report(t, s.visits, pos, 0);
      return Ok(s.visits);
    }
    while s.queue != []
      invariant t.Frontier(s.visits, pos, h) && Linked(t, s, pos, h)
      decreases t.g.nodes - pos.Keys, |s.queue|
    {
      var (u, d) := s.queue[0];
      PopFront(t, s, pos, h);
      s := s.(queue := s.queue[1..]);
      if t.max >= 0 && d >= t.max {
        ExpandedAll(t, s.visits, pos, h);
      } else {
        var stopped;
        s, pos, stopped := ExpandNode(t, s, pos, h, u, d, keepGoing);
        if stopped {
          Report(t, s.visits, pos, h);
          return Ok(s.visits);
        }
      }
      h := h + 1;
    }
    Report(t, s.visits, pos, h);
    Complete(t, s.visits, pos);
    r := Ok(s.visits);
  }

  lemma Report(t: Traversal, visits: seq<Visit>, pos: map<NodeID, nat>, h: nat)
    requires t.Frontier(visits, pos, h)
    ensures forall i :: 0 <= i < |visits| ==> t.Exact(visits[i])
    ensures forall i, j :: 0 <= i < j < |visits| ==>
              visits[i].node != visits[j].node && visits[i].depth <= visits[j].depth
    ensures t.g.Filed() ==> forall i :: 0 <= i < |visits| ==> Nearest(t, visits[i])
  {
    forall i | 0 <= i < |visits| ensures t.g.Filed() ==> Nearest(t, visits[i]) {
      if t.g.Filed() {
        ExactIsNearest(t, visits[i]);
      }
    }
    forall i, j | 0 <= i < j < |visits| ensures visits[i].node != visits[j].node && visits[i].depth <= visits[j].depth {
      assert t.InOrder(visits, i, j);
    }
  }

  lemma Complete(t: Traversal, visits: seq<Visit>, pos: map<NodeID, nat>)
    requires t.Frontier(visits, pos, |visits|)
    ensures forall p {:trigger t.End(p)} :: t.End(p).Some? && t.Within(|p|) ==>
              exists i :: 0 <= i < |visits| && visits[i].node == t.End(p).value
    ensures t.g.Filed() ==> forall ns, p {:trigger Chained(t, ns, p)} :: Chained(t, ns, p) && t.Within(|p|) ==>
              exists i :: 0 <= i < |visits| && visits[i].node == ns[|p|]
  {
    forall ns, p | t.g.Filed() && Chained(t, ns, p) && t.Within(|p|)
      ensures exists i :: 0 <= i < |visits| && visits[i].node == ns[|p|]
    {
      ChainEnds(t, ns, p);
      WalksReach(t, visits, pos, |visits|, |p|, p);
      assert visits[pos[t.End(p).value]].node == t.End(p).value;
    }
    forall p | t.End(p).Some? && t.Within(|p|)
      ensures exists i :: 0 <= i < |visits| && visits[i].node == t.End(p).value
    {
      WalksReach(t, visits, pos, |visits|, |p|, p);
      assert visits[pos[t.End(p).value]].node == t.End(p).value;
    }
  }

  // ---- ShortestPathLabeled ----------------------------------------------------

  /** An empty label follows every edge. */
  function LabelFilter(name: Str): Edge -> bool {
    (e: Edge) => name == [] || e.lbl == name
  }

  ghost predicate Labelled(p: seq<Edge>, name: Str) {
    name == [] || forall e :: e in p ==> e.lbl == name
  }

  /** The hop search seen as a traversal; it never asks whether the nodes it passes exist. */
  ghost function HopSearch(g: Graph, source: NodeID, name: Str): Traversal {
    Traversal(g.(nodes := {source} + g.Heads()), source, -1, Outgoing, LabelFilter(name))
  }

  lemma {:induction false} WalkIsPath(g: Graph, source: NodeID, name: Str, p: seq<Edge>, v: NodeID)
    requires g.Filed()
    ensures HopSearch(g, source, name).End(p) == Some(v) <==> g.IsPath(source, p, v) && Labelled(p, name)
    decreases |p|
  {
    var t := HopSearch(g, source, name);
    if p != [] {
      var n := |p| - 1;
      var e := p[n];
      WalkIsPath(g, source, name, p[..n], e.from);
      if t.End(p) == Some(v) {
        var u := t.End(p[..n]).value;
        assert u in g.out && e in g.out[u];
        forall x | x in p ensures LabelFilter(name)(x) {
          assert x == e || x in p[..n];
        }
      }
      if g.IsPath(source, p, v) && Labelled(p, name) {
        assert e in p && forall x :: x in p[..n] ==> x in p;
        assert e in g.Out(e.from);
        g.HeadOfOut(e.from, e);
        assert t.Accepts(e.from, e);
      }
    }
  }

  ghost predicate HopQueued(visits: seq<Visit>, queue: seq<(NodeID, seq<Edge>)>, h: nat, k: int)
    requires h <= |visits| && 0 <= k < |queue| == |visits| - h
  {
    queue[k] == (visits[h + k].node, visits[h + k].path)
  }

  ghost predicate HopLinked(visits: seq<Visit>, queue: seq<(NodeID, seq<Edge>)>, h: nat) {
    && h <= |visits| && |queue| == |visits| - h
    && forall k {:trigger HopQueued(visits, queue, h, k)} :: 0 <= k < |queue| ==> HopQueued(visits, queue, h, k)
  }

  lemma HopPush(visits: seq<Visit>, queue: seq<(NodeID, seq<Edge>)>, h: nat, v: Visit)
    requires HopLinked(visits, queue, h)
    ensures HopLinked(visits + [v], queue + [(v.node, v.path)], h)
  {
    var visits', queue' := visits + [v], queue + [(v.node, v.path)];
    forall k | 0 <= k < |queue'| ensures HopQueued(visits', queue', h, k) {
      assert k < |queue| ==> HopQueued(visits, queue, h, k);
    }
  }

  lemma HopPop(visits: seq<Visit>, queue: seq<(NodeID, seq<Edge>)>, h: nat)
    requires HopLinked(visits, queue, h) && queue != []
    ensures h < |visits| && queue[0] == (visits[h].node, visits[h].path) && HopLinked(visits, queue[1..], h + 1)
  {
    var queue', next := queue[1..], h + 1;
    assert HopQueued(visits, queue, h, 0);
    forall k | 0 <= k < |queue'| ensures HopQueued(visits, queue', next, k) {
      assert HopQueued(visits, queue, h, k + 1);
    }
  }

  /** The inner loop of the hop search; returns at once on meeting the target. */
  method HopExpand(ghost t: Traversal, g: Graph, name: Str, target: NodeID, u: NodeID, path: seq<Edge>,
                   visited0: set<NodeID>, queue0: seq<(NodeID, seq<Edge>)>,
                   ghost visits0: seq<Visit>, ghost pos0: map<NodeID, nat>, ghost h: nat)
    returns (visited: set<NodeID>, queue: seq<(NodeID, seq<Edge>)>, found: Option<seq<Edge>>, ghost visits: seq<Visit>,
             ghost pos: map<NodeID, nat>)
    requires t == HopSearch(g, t.start, name)
    requires t.Frontier(visits0, pos0, h) && HopLinked(visits0, queue0, h + 1) && h < |visits0|
    requires u == visits0[h].node && path == visits0[h].path && visited0 == pos0.Keys <= t.g.nodes &&
             target !in visited0
    ensures found.Some? ==> t.Exact(Visit(target, |found.value|, found.value))
    ensures found.None? ==>
              && t.Frontier(visits, pos, h + 1) && HopLinked(visits, queue, h + 1)
              && visited == pos.Keys <= t.g.nodes && target !in visited
              && (t.g.nodes - pos.Keys < t.g.nodes - pos0.Keys || (pos == pos0 && queue == queue0))
  {
    visited, queue, visits, pos, found := visited0, queue0, visits0, pos0, None;
    var edges := g.EdgesOf(u, Outgoing);
    ghost var d := visits0[h].depth;
    ghost var s := State({}, map[], [], visits0);
    for i := 0 to |edges|
      invariant t.Frontier(visits, pos, h) && HopLinked(visits, queue, h + 1) && h < |visits| && visits[h] == visits0[h]
      invariant visited == pos.Keys <= t.g.nodes && target !in visited && pos0.Keys <= pos.Keys
      invariant s.visits == visits
      invariant forall k {:trigger Covered(t, s, pos, u, d, edges[k])} :: 0 <= k < i ==>
                  Covered(t, s, pos, u, d, edges[k])
      invariant t.g.nodes - pos.Keys < t.g.nodes - pos0.Keys || (pos == pos0 && queue == queue0)
    {
      var e := edges[i];
      if name != [] && e.lbl != name {
        continue;
      }
      if e.to in visited {
        assert t.At(visits, pos, e.to);
        assert visits[pos[e.to]].depth <= visits[h].depth + 1;
        continue;
      }
      g.HeadOfOut(u, e);
      visited := visited + {e.to};
      var newPath := path + [e];
      Discover(t, visits, pos, h, e);
      ghost var v := Visit(e.to, d + 1, newPath);
      HopPush(visits, queue, h + 1, v);
      ghost var before, oldPos := s, pos;
      visits, pos := visits + [v], pos[e.to := |visits|];
      s := State({}, map[], [], visits);
      if e.to == target {
        assert t.Exact(visits[|visits| - 1]);
        return visited, queue, Some(newPath), visits, pos;
      }
      queue := queue + [(e.to, newPath)];
      assert e.to in t.g.nodes - pos0.Keys && e.to !in t.g.nodes - pos.Keys;
      AllStillCovered(t, before, s, oldPos, v, u, d, edges, i);
      assert Covered(t, s, pos, u, d, e);
    }
    AllCovered(t, s, pos, h, edges);
    ExpandedAll(t, visits, pos, h);
  }

  /** The search proper: a shortest labelled path in hops, or nothing when the target is unreachable. */
  method HopPath(g: Graph, source: NodeID, target: NodeID, name: Str) returns (found: Option<seq<Edge>>)
    requires g.Filed() && source != target
    ensures found.None? <==> forall p :: !(g.IsPath(source, p, target) && Labelled(p, name))
    ensures found.Some? ==> g.IsPath(source, found.value, target) && Labelled(found.value, name)
    ensures found.Some? ==> forall p :: g.IsPath(source, p, target) && Labelled(p, name) ==> |found.value| <= |p|
  {
    ghost var t := HopSearch(g, source, name);
    var visited := {source};
    var queue: seq<(NodeID, seq<Edge>)> := [(source, [])];
    ghost var visits, h := [Visit(source, 0, [])], 0;
    ghost var pos: map<NodeID, nat> := map[source := 0];
    Start(t);
    assert HopQueued(visits, queue, 0, 0);
    while queue != []
      invariant t.Frontier(visits, pos, h) && HopLinked(visits, queue, h)
      invariant visited == pos.Keys <= t.g.nodes && target !in visited
      decreases t.g.nodes - pos.Keys, |queue|
    {
      var (u, path) := queue[0];
      HopPop(visits, queue, h);
      queue := queue[1..];
      visited, queue, found, visits, pos := HopExpand(t, g, name, target, u, path, visited, queue, visits, pos, h);
      if found.Some? {
        HopFound(g, source, target, name, found.value);
        return;
      }
      h := h + 1;
    }
    HopNone(g, source, target, name, visits, pos);
    found := None;
  }

  lemma HopFound(g: Graph, source: NodeID, target: NodeID, name: Str, p: seq<Edge>)
    requires g.Filed() && HopSearch(g, source, name).Exact(Visit(target, |p|, p))
    ensures g.IsPath(source, p, target) && Labelled(p, name)
    ensures forall q :: g.IsPath(source, q, target) && Labelled(q, name) ==> |p| <= |q|
  {
    WalkIsPath(g, source, name, p, target);
    forall q | g.IsPath(source, q, target) && Labelled(q, name) ensures |p| <= |q| {
      WalkIsPath(g, source, name, q, target);
    }
  }

  lemma HopNone(g: Graph, source: NodeID, target: NodeID, name: Str, visits: seq<Visit>, pos: map<NodeID, nat>)
    requires g.Filed() && HopSearch(g, source, name).Frontier(visits, pos, |visits|) && target !in pos
    ensures forall p :: !(g.IsPath(source, p, target) && Labelled(p, name))
  {
    var t := HopSearch(g, source, name);
    Complete(t, visits, pos);
    forall p: seq<Edge> ensures !(g.IsPath(source, p, target) && Labelled(p, name)) {
      WalkIsPath(g, source, name, p, target);
      assert t.Within(|p|);
    }
  }

  /** ShortestPathLabeled, with the identical-endpoints shortcut and the assembled result. */
  method ShortestPathLabeled(g: Graph, source: NodeID, target: NodeID, name: Str)
    returns (r: Outcome<Option<PathResult>>)
    requires g.Filed()
    ensures source == target ==>
              r == if source in g.nodes then Ok(Some(PathResult([source], [], 0.0))) else NotFound(source)
    ensures source != target ==>
              (r == Ok(None) <==> forall p :: !(g.IsPath(source, p, target) && Labelled(p, name)))
    ensures source != target && r.Ok? && r.value.Some? ==>
              var found := r.value.value;
              && g.IsPath(source, found.edges, target) && Labelled(found.edges, name)
              && (forall p :: g.IsPath(source, p, target) && Labelled(p, name) ==> |found.edges| <= |p|)
              && found.nodes == PathNodes(source, found.edges) && found.cost == |found.edges| as real
    ensures r.NotFound? ==> r.id !in g.nodes
    ensures g.NoDangling() && source in g.nodes ==> r.Ok?
  {
    if source == target {
      return if source in g.nodes then Ok(Some(PathResult([source], [], 0.0))) else NotFound(source);
    }
    var found := HopPath(g, source, target, name);
    if found.None? {
      return Ok(None);
    }
    if g.NoDangling() && source in g.nodes {
      PathStaysInGraph(g, source, found.value, target);
    }
    var built := BuildPathResult(g, source, found.value);
    r := match built case Ok(v) => Ok(Some(v)) case NotFound(id) => NotFound(id);
  }
}
