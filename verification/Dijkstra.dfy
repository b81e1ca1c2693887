/**
 ShortestPathWeighted: Dijkstra over a binary heap that keeps superseded queue
 entries and skips them when they surface.
 */
module Dijkstra {
  import opened Types
  import opened Graph
  import opened Relaxation
  import N = NegativeWeights
  import opened LabelCorrecting
  import H = BinaryHeap

  // ---- non-negative weights ---------------------------------------------------------------------

  lemma CheaperIsStrictWeak(dom: iset<Item>)
    ensures H.StrictWeakOrder(Cheaper, dom)
  {
  }

  /** Taking an improving edge keeps every entry of `dist` witnessed. */
  lemma ImproveWitness(p: Problem, s: Search, paths: map<NodeID, seq<Edge>>, done: set<NodeID>, e: Edge)
    requires p.Valid() && p.Witnessed(s, paths, done)
    requires e.from in done && e.from in s.dist && e in p.g.Out(e.from) && e.to !in done && e.to != p.source
    requires e.from in paths
    ensures p.Witnessed(Improve(p, s, e), paths[e.to := paths[e.from] + [e]], done)
  {
    var s' := Improve(p, s, e);
    var paths' := paths[e.to := paths[e.from] + [e]];
    assert p.Known(s, paths, done, e.from);
    forall v | v in s'.dist ensures p.Known(s', paths', done, v) {
      if v == e.to {
        PathExtends(p.g, p.source, paths[e.from], e);
        assert (paths[e.from] + [e])[..|paths[e.from]|] == paths[e.from];
      } else {
        assert p.Known(s, paths, done, v);
      }
    }
  }

  /** The order between expanded and open nodes survives an improvement. */
  lemma ImproveSettled(p: Problem, s: Search, done: set<NodeID>, e: Edge)
    requires p.Valid() && p.Settled(s, done) && p.Latest(s, done, e.from)
    requires e in p.g.Out(e.from) && e.to !in done
    ensures p.Settled(Improve(p, s, e), done) && p.Latest(Improve(p, s, e), done, e.from)
  {
    var s' := Improve(p, s, e);
    forall u, v | u in done && v in s'.dist && v !in done ensures p.NotFarther(s', u, v) {
      assert p.NotFarther(s, u, e.from);
      if v != e.to {
        assert p.NotFarther(s, u, v);
      }
    }
    forall v | v in done ensures p.NotFarther(s', v, e.from) {
      assert p.NotFarther(s, v, e.from);
    }
  }

  /** Pushing the improved node leaves one live queue entry per open node. */
  lemma ImproveQueued(p: Problem, s: Search, done: set<NodeID>, e: Edge, q: multiset<Item>)
    requires p.Valid() && done <= s.dist.Keys && p.Latest(s, done, e.from) && e in p.g.Out(e.from) && e.to !in done
    requires p.Queued(s, done, q)
    requires e.to in s.dist ==> s.dist[e.from] + p.W(e) < s.dist[e.to]
    ensures p.Queued(Improve(p, s, e), done, q + multiset{Item(e.to, s.dist[e.from] + p.W(e))})
  {
    var s' := Improve(p, s, e);
    var pushed := Item(e.to, s.dist[e.from] + p.W(e));
    var q' := q + multiset{pushed};
    assert pushed !in q by {
      assert pushed in q ==> p.NotCheaper(s, pushed, pushed.id);
    }
    forall v | v in s'.dist ensures p.Live(s', done, q', v) {
      if v != e.to {
        assert p.Live(s, done, q, v);
        assert Item(v, s'.dist[v]) != pushed;
      }
    }
    forall it | it in q' ensures p.NotCheaper(s', it, it.id) {
      assert it == pushed || p.NotCheaper(s, it, it.id);
    }
    forall it, u | it in q' && u in done ensures p.NotCheaper(s', it, u) {
      assert p.NotFarther(s, u, e.from);
      assert it == pushed || p.NotCheaper(s, it, u);
    }
  }

  /** Improving an open node leaves the edges of expanded nodes relaxed. */
  lemma ImproveRelaxed(p: Problem, s: Search, done: set<NodeID>, e: Edge)
    requires p.Relaxed(s, done) && done <= s.dist.Keys && e.from in s.dist && e.to !in done
    requires e.to in s.dist ==> s.dist[e.from] + p.W(e) < s.dist[e.to]
    ensures p.Relaxed(Improve(p, s, e), done)
  {
    forall u, e' | u in done && e' in p.g.Out(u) ensures p.RelaxedAt(Improve(p, s, e), u, e') {
      assert p.RelaxedAt(s, u, e');
    }
  }

  /** What holds between two edge relaxations while `u`, the latest of `done`, is expanded. */
  ghost predicate Expanding(p: Problem, s: Search, paths: map<NodeID, seq<Edge>>, done: set<NodeID>, q: multiset<Item>,
      u: NodeID) {
    && p.Valid() && u in done
    && p.Witnessed(s, paths, done) && p.Settled(s, done) && p.Queued(s, done, q)
    && p.Relaxed(s, done - {u})
    && p.Latest(s, done, u)
  }

  lemma ImproveKeeps(p: Problem, s: Search, paths: map<NodeID, seq<Edge>>, done: set<NodeID>, q: multiset<Item>,
      e: Edge)
    requires Expanding(p, s, paths, done, q, e.from) && e in p.g.Out(e.from)
    requires e.to in s.dist ==> s.dist[e.from] + p.W(e) < s.dist[e.to]
    ensures e.from in paths && e.to !in done
    ensures Expanding(p, Improve(p, s, e), paths[e.to := paths[e.from] + [e]], done,
                      q + multiset{Item(e.to, s.dist[e.from] + p.W(e))}, e.from)
  {
    assert p.Known(s, paths, done, e.from);
    assert e.to !in done by {
      assert e.to in done ==> p.NotFarther(s, e.to, e.from);
    }
    assert e.to != p.source by {
      TotalNonNegative(p, p.source, paths[e.from], e.from);
    }
    ImproveWitness(p, s, paths, done, e);
    ImproveSettled(p, s, done, e);
    ImproveQueued(p, s, done, e, q);
    ImproveRelaxed(p, s, done - {e.from}, e);
  }

  /** Relax one edge. */
  method RelaxEdge(p: Problem, q: H.Heap<Item>, s0: Search, e: Edge) returns (s: Search)
    requires q.Valid() && q.less == Cheaper && (forall it :: it in q.dom) && e.from in s0.dist
    modifies q
    ensures q.Valid() && (s, multiset(q.items)) == RelaxOne(p, s0, old(multiset(q.items)), e)
  {
    s := s0;
    var newDist := s.dist[e.from] + p.W(e);
    if e.to !in s.dist || newDist < s.dist[e.to] {
      s := Improve(p, s, e);
      q.Push(Item(e.to, newDist));
    }
  }

  lemma RelaxKeeps(p: Problem, s: Search, paths: map<NodeID, seq<Edge>>, done: set<NodeID>, q: multiset<Item>, e: Edge)
    requires Expanding(p, s, paths, done, q, e.from) && e in p.g.Out(e.from)
    ensures e.from in s.dist
    ensures var r := RelaxOne(p, s, q, e);
            && Expanding(p, r.0, PathsAfter(p, s, paths, e), done, r.1, e.from) && p.RelaxedAt(r.0, e.from, e)
            && (forall e' {:trigger p.RelaxedAt(r.0, e.from, e')} :: p.RelaxedAt(s, e.from, e') ==>
                p.RelaxedAt(r.0, e.from, e'))
            && r.0.dist.Keys <= s.dist.Keys + {e.to}
  {
    assert p.Known(s, paths, done, e.from);
    if e.to !in s.dist || s.dist[e.from] + p.W(e) < s.dist[e.to] {
      ImproveKeeps(p, s, paths, done, q, e);
    }
  }

  /** What holds when the first `i` edges of `u` have been relaxed. */
  ghost predicate Midway(p: Problem, s0: Search, q0: multiset<Item>, s: Search, paths: map<NodeID, seq<Edge>>,
      done: set<NodeID>, q: multiset<Item>, u: NodeID, i: nat) {
    && Expanding(p, s, paths, done, q, u) && s.dist.Keys <= s0.dist.Keys + p.g.Heads()
    && i <= |p.g.Out(u)| && (forall k :: 0 <= k < i ==> p.RelaxedAt(s, u, p.g.Out(u)[k]))
    && Progress(p, s0, q0, u, i, s, q)
  }

  lemma MidwayNext(p: Problem, s0: Search, q0: multiset<Item>, s: Search, paths: map<NodeID, seq<Edge>>,
      done: set<NodeID>, q: multiset<Item>, u: NodeID, i: nat)
    requires Midway(p, s0, q0, s, paths, done, q, u, i) && i < |p.g.Out(u)|
    ensures var e := p.g.Out(u)[i];
            && e.from == u && u in s.dist
            && var r := RelaxOne(p, s, q, e);
               Midway(p, s0, q0, r.0, PathsAfter(p, s, paths, e), done, r.1, u, i + 1)
  {
    var e := p.g.Out(u)[i];
    OutFrom(p.g, u);
    ProgressNext(p, s0, q0, u, i, s, q);
    RelaxKeeps(p, s, paths, done, q, e);
    var r := RelaxOne(p, s, q, e);
    forall k | 0 <= k < i + 1 ensures p.RelaxedAt(r.0, u, p.g.Out(u)[k]) {
      assert k < i ==> p.RelaxedAt(s, u, p.g.Out(u)[k]);
    }
  }

  /** Relax the outgoing edges of `u`. */
  method RelaxEdges(p: Problem, q: H.Heap<Item>, s0: Search, u: NodeID) returns (s: Search)
    requires q.Valid() && q.less == Cheaper && (forall it :: it in q.dom) && p.g.Filed() && u in s0.dist
    modifies q
    ensures q.Valid() && Progress(p, s0, old(multiset(q.items)), u, |p.g.Out(u)|, s, multiset(q.items))
  {
    s := s0;
    var edges := p.g.EdgesOf(u, Outgoing);
    assert edges == p.g.Out(u) && edges[..0] == [];
    ghost var q0 := multiset(q.items);
    for i := 0 to |edges|
      invariant q.Valid() && Progress(p, s0, q0, u, i, s, multiset(q.items))
    {
      ProgressNext(p, s0, q0, u, i, s, multiset(q.items));
      s := RelaxEdge(p, q, s, edges[i]);
    }
  }

  /** With non-negative weights the invariant holds after every edge. */
  lemma {:induction false} MidwayAt(p: Problem, s0: Search, q0: multiset<Item>, paths0: map<NodeID, seq<Edge>>,
      done: set<NodeID>, u: NodeID, i: nat)
    returns (s: Search, q: multiset<Item>, paths: map<NodeID, seq<Edge>>)
    requires Expanding(p, s0, paths0, done, q0, u) && i <= |p.g.Out(u)|
    ensures Midway(p, s0, q0, s, paths, done, q, u, i)
  {
    if i == 0 {
      MidwayStarts(p, s0, paths0, done, q0, u);
      s, q, paths := s0, q0, paths0;
    } else {
      s, q, paths := MidwayAt(p, s0, q0, paths0, done, u, i - 1);
      MidwayNext(p, s0, q0, s, paths, done, q, u, i - 1);
      var e := p.g.Out(u)[i - 1];
      var r := RelaxOne(p, s, q, e);
      s, q, paths := r.0, r.1, PathsAfter(p, s, paths, e);
    }
  }

  lemma MidwayStarts(p: Problem, s: Search, paths: map<NodeID, seq<Edge>>, done: set<NodeID>, q: multiset<Item>,
      u: NodeID)
    requires Expanding(p, s, paths, done, q, u)
    ensures Midway(p, s, q, s, paths, done, q, u, 0)
  {
    assert p.g.Out(u)[..0] == [];
  }

  /** After the last edge the search is between two turns again. */
  lemma MidwayEnds(p: Problem, s0: Search, q0: multiset<Item>, s: Search, paths: map<NodeID, seq<Edge>>,
      done: set<NodeID>, q: multiset<Item>, u: NodeID)
    requires Midway(p, s0, q0, s, paths, done, q, u, |p.g.Out(u)|)
    ensures Searching(p, s, paths, done, q)
  {
    AllRelaxed(p, s, done, u);
  }

  lemma AllRelaxed(p: Problem, s: Search, done: set<NodeID>, u: NodeID)
    requires p.Relaxed(s, done - {u}) && u in done
    requires forall k :: 0 <= k < |p.g.Out(u)| ==> p.RelaxedAt(s, u, p.g.Out(u)[k])
    ensures p.Relaxed(s, done)
  {
    forall v, e | v in done && e in p.g.Out(v) ensures p.RelaxedAt(s, v, e) {
      if v != u {
        assert v in done - {u};
      }
    }
  }

  /** Between two turns of the main loop. */
  ghost predicate Searching(p: Problem, s: Search, paths: map<NodeID, seq<Edge>>, done: set<NodeID>,
      q: multiset<Item>) {
    && p.Valid()
    && p.Witnessed(s, paths, done) && p.Settled(s, done) && p.Queued(s, done, q)
    && p.Relaxed(s, done)
  }

  lemma SearchStarts(p: Problem)
    requires p.Valid()
    ensures Searching(p, Search(map[p.source := 0.0], map[], map[]), map[p.source := []], {},
                      multiset{Item(p.source, 0.0)})
  {
    assert p.Known(Search(map[p.source := 0.0], map[], map[]), map[p.source := []], {}, p.source);
  }

  /** Dropping a superseded queue entry changes nothing else. */
  lemma StaleSkipped(p: Problem, s: Search, paths: map<NodeID, seq<Edge>>, done: set<NodeID>, q: multiset<Item>,
      it: Item)
    requires Searching(p, s, paths, done, q) && it in q && it.id in s.dist && it.cost > s.dist[it.id]
    ensures Searching(p, s, paths, done, q - multiset{it})
  {
    var q' := q - multiset{it};
    forall v | v in s.dist ensures p.Live(s, done, q', v) {
      assert p.Live(s, done, q, v);
      assert Item(v, s.dist[v]) != it;
    }
    forall x | x in q' ensures p.NotCheaper(s, x, x.id) { assert x in q; }
    forall x, u | x in q' && u in done ensures p.NotCheaper(s, x, u) { assert x in q; }
  }

  /** The cheapest queue entry, if not superseded, is of an open node, which is then the farthest expanded one. */
  lemma ExpandNext(p: Problem, s: Search, paths: map<NodeID, seq<Edge>>, done: set<NodeID>, q: multiset<Item>, it: Item)
    requires Searching(p, s, paths, done, q) && it in q && it.id in s.dist && it.cost <= s.dist[it.id]
    requires forall x :: x in q ==> it.cost <= x.cost
    ensures it.id !in done && it.cost == s.dist[it.id]
    ensures Expanding(p, s, paths, done + {it.id}, q - multiset{it}, it.id)
  {
    var u := it.id;
    var q', done' := q - multiset{it}, done + {u};
    assert p.NotCheaper(s, it, it.id);
    assert p.Live(s, done, q, u);
    assert u !in done;
    forall v | v in s.dist ensures p.Live(s, done', q', v) {
      assert p.Live(s, done, q, v);
    }
    forall x | x in q' ensures p.NotCheaper(s, x, x.id) { assert x in q; }
    forall x, v | x in q' && v in done' ensures p.NotCheaper(s, x, v) {
      assert x in q && p.NotCheaper(s, it, it.id);
      assert v != u ==> p.NotCheaper(s, x, v);
    }
    forall v, w | v in done' && w in s.dist && w !in done' ensures p.NotFarther(s, v, w) {
      assert p.Live(s, done, q, w);
      assert Item(w, s.dist[w]) in q;
      assert v != u ==> p.NotFarther(s, v, w);
    }
    forall v | v in done' ensures p.NotFarther(s, v, u) {
      assert v != u ==> p.NotFarther(s, v, u);
    }
    forall v | v in s.dist ensures p.Known(s, paths, done', v) {
      assert p.Known(s, paths, done, v);
    }
    assert done' - {u} == done;
  }

  /** Once no open node is nearer than `target`, no path whatever beats the recorded distances. */
  lemma {:induction false} NoPathIsShorter(p: Problem, s: Search, done: set<NodeID>, target: NodeID, es: seq<Edge>,
      x: NodeID)
    requires p.Valid() && p.Relaxed(s, done) && p.source in s.dist && s.dist[p.source] == 0.0
    requires forall v {:trigger p.NotFarther(s, target, v)} :: v in s.dist && v !in done ==> p.NotFarther(s, target, v)
    requires p.g.IsPath(p.source, es, x)
    ensures (x in s.dist && s.dist[x] <= Total(es, p.prop, p.default)) ||
            (target in s.dist && s.dist[target] <= Total(es, p.prop, p.default))
    decreases |es|
  {
    if es != [] {
      var e := es[|es| - 1];
      NoPathIsShorter(p, s, done, target, es[..|es| - 1], e.from);
      if e.from in s.dist && e.from !in done {
        assert p.NotFarther(s, target, e.from);
      } else if e.from in done {
        assert p.RelaxedAt(s, e.from, e);
      }
    }
  }

  lemma {:induction false} PathPrepends(g: Graph, e: Edge, es: seq<Edge>, w: NodeID)
    requires e in g.Out(e.from) && g.IsPath(e.to, es, w)
    ensures g.IsPath(e.from, [e] + es, w)
    decreases |es|
  {
    if es == [] {
      assert [e] + es == [e] && [e][..0] == [];
    } else {
      var n := |es| - 1;
      PathPrepends(g, e, es[..n], es[n].from);
      assert ([e] + es)[..n + 1] == [e] + es[..n];
    }
  }

  lemma TotalPrepends(p: Problem, e: Edge, es: seq<Edge>)
    ensures Total([e] + es, p.prop, p.default) == p.W(e) + Total(es, p.prop, p.default)
  {
    TotalSplits(p, [e] + es, 1);
    assert ([e] + es)[..1] == [] + [e] && ([e] + es)[1..] == es;
    TotalExtends(p, [], e);
  }

  /** The backwards walk over `prev`, if it leads to the source, spells out a path no heavier than the distance. */
  method WalkBack(p: Problem, s: Search, target: NodeID, ghost steps: nat) returns (r: Option<seq<Edge>>)
    requires Tree(p, s) && target in s.dist && WalkEnds(s, p.source, target, steps)
    ensures r.Some? && p.g.IsPath(p.source, r.value, target) && Total(r.value, p.prop, p.default) <= s.dist[target]
  {
    var edges := [];
    var current := target;
    ghost var k := steps;
    while current != p.source
      invariant current in s.dist && WalkEnds(s, p.source, current, k)
      invariant p.g.IsPath(current, edges, target) &&
                s.dist[current] + Total(edges, p.prop, p.default) <= s.dist[target]
      decreases k
    {
      assert LinkedAt(p, s, current);
      if current !in s.prevEdge {
        return None;
      }
      PathPrepends(p.g, s.prevEdge[current], edges, target);
      TotalPrepends(p, s.prevEdge[current], edges);
      edges := [s.prevEdge[current]] + edges;
      current, k := s.prev[current], k - 1;
    }
    r := Some(edges);
  }

  /** Proof state of the main loop: known paths, and the expanded nodes as a set and in order. */
  datatype History = History(paths: map<NodeID, seq<Edge>>, done: set<NodeID>, expanded: seq<NodeID>)

  ghost predicate Listed(h: History) {
    && (forall v :: v in h.expanded <==> v in h.done)
    && forall i, j :: 0 <= i < j < |h.expanded| ==> h.expanded[i] != h.expanded[j]
  }

  /** Between two turns of the loop. */
  ghost predicate Turning(p: Problem, target: NodeID, s: Search, h: History, q: multiset<Item>) {
    Searching(p, s, h.paths, h.done, q) && target !in h.done && Listed(h)
  }

  /** When the loop is left. */
  ghost predicate Over(p: Problem, target: NodeID, s: Search, h: History) {
    && p.Valid() && p.Witnessed(s, h.paths, h.done) && p.Relaxed(s, h.done) && h.done <= s.dist.Keys
    && target !in h.done && Listed(h)
    && (forall v {:trigger p.NotFarther(s, target, v)} :: v in s.dist && v !in h.done ==> p.NotFarther(s, target, v))
  }

  lemma ExpandTurn(p: Problem, target: NodeID, s: Search, h: History, q: multiset<Item>, it: Item, s': Search,
      paths: map<NodeID, seq<Edge>>, q': multiset<Item>)
    requires Turning(p, target, s, h, q) && it.id != target && it.id !in h.done
    requires Midway(p, s, q - multiset{it}, s', paths, h.done + {it.id}, q', it.id, |p.g.Out(it.id)|)
    ensures Turning(p, target, s', History(paths, h.done + {it.id}, h.expanded + [it.id]), q')
  {
    MidwayEnds(p, s, q - multiset{it}, s', paths, h.done + {it.id}, q', it.id);
  }

  /** The loop has come to `s` and `q` and goes on. */
  ghost predicate At(p: Problem, target: NodeID, trace: seq<Loop>, its: seq<Item>, s: Search, q: multiset<Item>)
    requires p.g.Filed()
  {
    Pops(p, target, trace, its) && trace[|trace| - 1] == Loop(s, q, false)
  }

  lemma StaleStep(p: Problem, target: NodeID, trace: seq<Loop>, its: seq<Item>, s: Search, q: multiset<Item>, it: Item)
    requires Tame(p) && At(p, target, trace, its, s, q) && Cheapest(q, it) && it.id in s.dist && it.id != target
    requires it.cost > s.dist[it.id]
    ensures At(p, target, trace + [Loop(s, q - multiset{it}, false)], its + [it], s, q - multiset{it})
    ensures Potential(p, s, q - multiset{it}) < Potential(p, s, q)
  {
    var l := Loop(s, q - multiset{it}, false);
    PopsExtend(p, target, trace, its, it, l);
    LastTurnLowers(p, target, trace + [l], its + [it]);
  }

  lemma ExpandStep(p: Problem, target: NodeID, trace: seq<Loop>, its: seq<Item>, s: Search, q: multiset<Item>, it: Item,
      s': Search, q': multiset<Item>)
    requires Tame(p) && At(p, target, trace, its, s, q) && Cheapest(q, it) && it.id in s.dist && it.id != target
    requires it.cost <= s.dist[it.id] && Progress(p, s, q - multiset{it}, it.id, |p.g.Out(it.id)|, s', q')
    ensures At(p, target, trace + [Loop(s', q', false)], its + [it], s', q')
    ensures Potential(p, s', q') < Potential(p, s, q)
  {
    ProgressIsAfter(p, target, Loop(s, q, false), it, s', q');
    PopsExtend(p, target, trace, its, it, Loop(s', q', false));
    LastTurnLowers(p, target, trace + [Loop(s', q', false)], its + [it]);
  }

  lemma ProgressIsAfter(p: Problem, target: NodeID, l: Loop, it: Item, s: Search, q: multiset<Item>)
    requires p.g.Filed() && it.id in l.s.dist && it.id != target && it.cost <= l.s.dist[it.id]
    requires Progress(p, l.s, l.q - multiset{it}, it.id, |p.g.Out(it.id)|, s, q)
    ensures After(p, target, l, it) == Loop(s, q, false)
  {
    OutFrom(p.g, it.id);
    assert p.g.Out(it.id)[..|p.g.Out(it.id)|] == p.g.Out(it.id);
  }

  /** The main loop, for any weights without a reachable negative cycle; `its` are the entries popped. */
  method Explore(p: Problem, target: NodeID) returns (s: Search, ghost trace: seq<Loop>, ghost its: seq<Item>)
    requires Tame(p)
    ensures Pops(p, target, trace, its) && Ended(trace[|trace| - 1]) && trace[|trace| - 1].s == s
  {
    ghost var dom := iset it: Item | it.cost == it.cost;
    CheaperIsStrictWeak(dom);
    var q := new H.Heap<Item>(Cheaper, dom);
    s := Search(map[p.source := 0.0], map[], map[]);
    trace, its := [Start(p)], [];
    q.Push(Item(p.source, 0.0));
    while |q.items| > 0
      invariant q.Valid() && q.less == Cheaper && q.dom == dom
      invariant At(p, target, trace, its, s, multiset(q.items))
      decreases Potential(p, s, multiset(q.items))
    {
      ghost var before, was := multiset(q.items), s;
      var item := PopCheapest(q);
      ItemIsKnown(p, target, trace, its, item);
      if item.id == target {
        PopsExtend(p, target, trace, its, item, Loop(s, multiset(q.items), true));
        trace, its := trace + [Loop(s, multiset(q.items), true)], its + [item];
        return;
      }
      if item.cost > s.dist[item.id] {
        StaleStep(p, target, trace, its, s, before, item);
      } else {
        s := RelaxEdges(p, q, s, item.id);
        ExpandStep(p, target, trace, its, was, before, item, s, multiset(q.items));
      }
      trace, its := trace + [Loop(s, multiset(q.items), false)], its + [item];
    }
  }

  lemma ItemIsKnown(p: Problem, target: NodeID, trace: seq<Loop>, its: seq<Item>, it: Item)
    requires p.g.Filed() && Pops(p, target, trace, its) && !trace[|trace| - 1].stopped && it in trace[|trace| - 1].q
    ensures it.id in trace[|trace| - 1].s.dist
  {
    PopsTrace(p, target, trace, its);
    N.TraceKeeps(p, target, trace, |trace| - 1);
    assert p.NotCheaper(trace[|trace| - 1].s, it, it.id);
  }

  lemma LastTurnLowers(p: Problem, target: NodeID, trace: seq<Loop>, its: seq<Item>)
    requires Tame(p) && Pops(p, target, trace, its) && |trace| > 1
    ensures var l, l' := trace[|trace| - 2], trace[|trace| - 1]; Potential(p, l'.s, l'.q) < Potential(p, l.s, l.q)
  {
    var n := |trace| - 1;
    PopsTrace(p, target, trace, its);
    var paths := TraceLowers(p, target, trace, n - 1);
    assert Turn(p, target, trace[n - 1], trace[n]);
    var _ := TurnLowers(p, target, trace[n - 1], trace[n], paths);
  }

  // ---- what non-negative weights add ------------------------------------------------------------------

  /** No two of the first `n` turns read the edges of one node. */
  ghost predicate OncePerNode(target: NodeID, ls: seq<Loop>, its: seq<Item>, n: nat) {
    forall i: nat, j: nat {:trigger Expands(target, ls, its, i), Expands(target, ls, its, j)} ::
      i < j < n && Expands(target, ls, its, i) && Expands(target, ls, its, j) ==> its[i].id != its[j].id
  }

  /** The history of the loop, turn by turn: the expanded nodes are those the turns expand. */
  lemma {:induction false} TurningAt(p: Problem, target: NodeID, trace: seq<Loop>, its: seq<Item>, i: nat)
    returns (h: History)
    requires p.Valid() && Pops(p, target, trace, its) && i < |trace| && !trace[i].stopped
    ensures Turning(p, target, trace[i].s, h, trace[i].q)
    ensures h.expanded == Expansions(target, trace, its, i) && OncePerNode(target, trace, its, i)
  {
    if i == 0 {
      h := TurningStarts(p, target);
    } else {
      assert PopsAt(p, target, trace[i - 1], its[i - 1], trace[i]);
      var before := TurningAt(p, target, trace, its, i - 1);
      h := TurningStep(p, target, trace, its, i, before);
    }
  }

  lemma TurningStarts(p: Problem, target: NodeID) returns (h: History)
    requires p.Valid()
    ensures Turning(p, target, Start(p).s, h, Start(p).q) && h.expanded == []
  {
    h := History(map[p.source := []], {}, []);
    SearchStarts(p);
  }

  lemma TurningStep(p: Problem, target: NodeID, trace: seq<Loop>, its: seq<Item>, i: nat, before: History)
    returns (h: History)
    requires p.g.Filed() && 0 < i <= |its| && |trace| == |its| + 1 && !trace[i].stopped
    requires PopsAt(p, target, trace[i - 1], its[i - 1], trace[i])
    requires Turning(p, target, trace[i - 1].s, before, trace[i - 1].q)
    requires before.expanded == Expansions(target, trace, its, i - 1) && OncePerNode(target, trace, its, i - 1)
    ensures Turning(p, target, trace[i].s, h, trace[i].q)
    ensures h.expanded == Expansions(target, trace, its, i) && OncePerNode(target, trace, its, i)
  {
    h := TurningNext(p, target, trace[i - 1], its[i - 1], trace[i], before);
    OnceMore(target, trace, its, i - 1);
  }

  lemma OnceMore(target: NodeID, ls: seq<Loop>, its: seq<Item>, n: nat)
    requires n < |its| && OncePerNode(target, ls, its, n)
    requires Expands(target, ls, its, n) ==> its[n].id !in Expansions(target, ls, its, n)
    ensures OncePerNode(target, ls, its, n + 1)
  {
    forall i: nat | i < n && Expands(target, ls, its, i) && Expands(target, ls, its, n) ensures its[i].id != its[n].id {
      ExpansionsAre(target, ls, its, n, its[i].id);
    }
  }

  lemma TurningNext(p: Problem, target: NodeID, l: Loop, it: Item, l': Loop, h: History) returns (h': History)
    requires Turning(p, target, l.s, h, l.q) && PopsAt(p, target, l, it, l') && !l'.stopped
    ensures Turning(p, target, l'.s, h', l'.q) && it.id != target
    ensures it.cost > l.s.dist[it.id] ==> h'.expanded == h.expanded
    ensures it.cost <= l.s.dist[it.id] ==> h'.expanded == h.expanded + [it.id] && it.id !in h.expanded
  {
    if it.cost > l.s.dist[it.id] {
      StaleSkipped(p, l.s, h.paths, h.done, l.q, it);
      h' := h;
    } else {
      ExpandNext(p, l.s, h.paths, h.done, l.q, it);
      var n := |p.g.Out(it.id)|;
      var s, q, paths := MidwayAt(p, l.s, l.q - multiset{it}, h.paths, h.done + {it.id}, it.id, n);
      ProgressIsAfter(p, target, l, it, s, q);
      ExpandTurn(p, target, l.s, h, l.q, it, s, paths, q);
      h' := History(paths, h.done + {it.id}, h.expanded + [it.id]);
    }
  }

  lemma OverAt(p: Problem, target: NodeID, trace: seq<Loop>, its: seq<Item>) returns (h: History)
    requires p.Valid() && Pops(p, target, trace, its) && Ended(trace[|trace| - 1])
    ensures Over(p, target, trace[|trace| - 1].s, h)
    ensures h.expanded == Expansions(target, trace, its, |its|) && OncePerNode(target, trace, its, |its|)
  {
    var n := |its|;
    if trace[n].stopped {
      assert n > 0 && PopsAt(p, target, trace[n - 1], its[n - 1], trace[n]);
      h := TurningAt(p, target, trace, its, n - 1);
      StopIsOver(p, target, trace[n - 1], its[n - 1], trace[n], h);
      assert !Expands(target, trace, its, n - 1);
      OnceMore(target, trace, its, n - 1);
    } else {
      h := TurningAt(p, target, trace, its, n);
      EmptyIsOver(p, target, trace[n], h);
    }
  }

  lemma StopIsOver(p: Problem, target: NodeID, l: Loop, it: Item, l': Loop, h: History)
    requires Turning(p, target, l.s, h, l.q) && PopsAt(p, target, l, it, l') && l'.stopped
    ensures Over(p, target, l'.s, h) && it.id == target
  {
    TargetIsNearest(p, l.s, h.paths, h.done, l.q, it);
  }

  lemma EmptyIsOver(p: Problem, target: NodeID, l: Loop, h: History)
    requires Turning(p, target, l.s, h, l.q) && l.q == multiset{}
    ensures Over(p, target, l.s, h)
  {
    NothingOpen(p, l.s, h.done);
  }

  /** With non-negative weights no run of the loop, ended or not, reads the edges of one node in two turns. */
  lemma NoNodeTwice(p: Problem, target: NodeID, trace: seq<Loop>, its: seq<Item>)
    requires p.Valid() && Pops(p, target, trace, its)
    ensures OncePerNode(target, trace, its, |its|)
  {
    var n := |its|;
    if Ended(trace[n]) {
      var _ := OverAt(p, target, trace, its);
    } else {
      var _ := TurningAt(p, target, trace, its, n);
    }
  }

  /**
   No two turns read the edges of one node. Those read are of reachable nodes, and of every
   node nearer than the target, or of every reachable node when there is no path to it.
   */
  ghost predicate ExpandedOnce(p: Problem, target: NodeID, trace: seq<Loop>, its: seq<Item>)
    requires |trace| == |its| + 1
  {
    var s, expanded := trace[|its|].s, Expansions(target, trace, its, |its|);
    && OncePerNode(target, trace, its, |its|)
    && (forall i, j :: 0 <= i < j < |expanded| ==> expanded[i] != expanded[j])
    && (forall v :: v in expanded ==> Reachable(p, v)) && target !in expanded
    && forall v, es {:trigger p.g.IsPath(p.source, es, v)} :: p.g.IsPath(p.source, es, v) ==>
         v in expanded || (target in s.dist && s.dist[target] <= Total(es, p.prop, p.default))
  }

  lemma ExpandsOnce(p: Problem, target: NodeID, trace: seq<Loop>, its: seq<Item>)
    requires p.Valid() && Pops(p, target, trace, its) && Ended(trace[|trace| - 1])
    ensures ExpandedOnce(p, target, trace, its)
  {
    var s := trace[|trace| - 1].s;
    var h := OverAt(p, target, trace, its);
    SettledAreReachable(p, s, h.paths, h.done);
    NearerAreSettled(p, s, h.done, target);
  }

  /**
   From a source different from the target, for any weights without a reachable negative
   cycle: a path exactly when there is one, shortest if no path into the target is negative.
   `trace` is the loop, turn by turn, up to its end, and `its` the entries it pops; with
   non-negative weights no node is expanded in two turns.
   */
  method Run(p: Problem, target: NodeID)
    returns (r: Option<seq<Edge>>, ghost trace: seq<Loop>, ghost its: seq<Item>)
    requires Tame(p) && p.source != target
    ensures r.Some? <==> Reachable(p, target)
    ensures r.Some? ==> p.g.IsPath(p.source, r.value, target)
    ensures r.Some? && NoNegativeTail(p, target) ==> Shortest(p, r.value, target)
    ensures Pops(p, target, trace, its) && Ended(trace[|trace| - 1])
    ensures var s := trace[|trace| - 1].s;
            (r.Some? <==> target in s.dist) && (r.Some? ==> Total(r.value, p.prop, p.default) <= s.dist[target])
    ensures p.Valid() ==> ExpandedOnce(p, target, trace, its)
  {
    var s;
    s, trace, its := Explore(p, target);
    PopsTrace(p, target, trace, its);
    if p.Valid() {
      ExpandsOnce(p, target, trace, its);
    }
    N.EndsExactly(p, target, trace);
    Unreached(p, target, trace);
    if target !in s.dist {
      return None, trace, its;
    }
    TraceKeepsTree(p, target, trace, |trace| - 1);
    ghost var k: nat, _ := WalkLeadsBack(p, target, trace, |trace| - 1, target);
    r := WalkBack(p, s, target, k);
    StopShortest(p, target, trace, r.value);
  }

  ghost predicate Shortest(p: Problem, es: seq<Edge>, target: NodeID) {
    forall other :: p.g.IsPath(p.source, other, target) ==>
        Total(es, p.prop, p.default) <= Total(other, p.prop, p.default)
  }

  /** A loop that ran out of entries has no distance for the target, a stopped one has. */
  lemma Unreached(p: Problem, target: NodeID, trace: seq<Loop>)
    requires p.g.Filed() && Trace(p, target, trace) && Ended(trace[|trace| - 1])
    ensures target in trace[|trace| - 1].s.dist <==> trace[|trace| - 1].stopped
  {
    var l := trace[|trace| - 1];
    if l.stopped {
      N.StopIsReal(p, target, trace);
    } else {
      N.TraceKeeps(p, target, trace, |trace| - 1);
      assert target in l.s.dist ==> N.Open(l.s, l.q, target);
    }
  }

  lemma StopShortest(p: Problem, target: NodeID, trace: seq<Loop>, es: seq<Edge>)
    requires p.g.Filed() && Trace(p, target, trace) && trace[|trace| - 1].stopped && target in trace[|trace| - 1].s.dist
    requires Total(es, p.prop, p.default) <= trace[|trace| - 1].s.dist[target]
    ensures NoNegativeTail(p, target) ==> Shortest(p, es, target)
  {
    if NoNegativeTail(p, target) {
      forall other | p.g.IsPath(p.source, other, target)
        ensures Total(es, p.prop, p.default) <= Total(other, p.prop, p.default)
      {
        StopIsShortest(p, target, trace, other);
      }
    }
  }

  lemma SettledAreReachable(p: Problem, s: Search, paths: map<NodeID, seq<Edge>>, done: set<NodeID>)
    requires p.Valid() && p.Witnessed(s, paths, done) && done <= s.dist.Keys
    ensures forall v :: v in done ==> Reachable(p, v)
  {
    forall v | v in done ensures Reachable(p, v) {
      assert p.Known(s, paths, done, v);
      assert p.g.IsPath(p.source, paths[v], v);
    }
  }

  lemma NearerAreSettled(p: Problem, s: Search, done: set<NodeID>, target: NodeID)
    requires p.Valid() && p.Relaxed(s, done) && p.source in s.dist && s.dist[p.source] == 0.0
    requires forall v {:trigger p.NotFarther(s, target, v)} :: v in s.dist && v !in done ==> p.NotFarther(s, target, v)
    ensures forall v, es {:trigger p.g.IsPath(p.source, es, v)} :: p.g.IsPath(p.source, es, v) ==>
              v in done || (target in s.dist && s.dist[target] <= Total(es, p.prop, p.default))
  {
    forall v, es | p.g.IsPath(p.source, es, v)
      ensures v in done || (target in s.dist && s.dist[target] <= Total(es, p.prop, p.default))
    {
      NoPathIsShorter(p, s, done, target, es, v);
      assert v in s.dist && v !in done ==> p.NotFarther(s, target, v);
    }
  }

  lemma NothingOpen(p: Problem, s: Search, done: set<NodeID>)
    requires p.Queued(s, done, multiset{})
    ensures s.dist.Keys <= done
  {
    forall v | v in s.dist ensures v in done {
      assert p.Live(s, done, multiset{}, v);
    }
  }

  method PopCheapest(q: H.Heap<Item>) returns (item: Item)
    requires q.Valid() && q.less == Cheaper && q.items != []
    modifies q
    ensures q.Valid() && |q.items| == old(|q.items|) - 1
    ensures item in old(multiset(q.items)) && multiset(q.items) == old(multiset(q.items)) - multiset{item}
    ensures forall x :: x in old(multiset(q.items)) ==> item.cost <= x.cost
  {
    ghost var before := q.items;
    item := q.Pop();
    forall x: Item | x in multiset(before) ensures item.cost <= x.cost {
      assert x in before;
      assert !Cheaper(x, item);
    }
  }

  lemma TargetIsNearest(p: Problem, s: Search, paths: map<NodeID, seq<Edge>>, done: set<NodeID>, q: multiset<Item>,
      it: Item)
    requires Searching(p, s, paths, done, q) && it in q && it.id in s.dist && it.id !in done
    requires forall x :: x in q ==> it.cost <= x.cost
    ensures forall v {:trigger p.NotFarther(s, it.id, v)} :: v in s.dist && v !in done ==> p.NotFarther(s, it.id, v)
  {
    assert p.NotCheaper(s, it, it.id);
    forall v | v in s.dist && v !in done ensures p.NotFarther(s, it.id, v) {
      assert p.Live(s, done, q, v);
      assert Item(v, s.dist[v]) in q;
    }
  }

  /** No path from source to target has a smaller sum of what its edges count with. */
  ghost predicate Lightest(p: Problem, es: seq<Edge>, target: NodeID) {
    exists ws: seq<real> :: Weighed(es, p.prop, p.default, ws) && forall other, vs: seq<real> ::
      p.g.IsPath(p.source, other, target) && Weighed(other, p.prop, p.default, vs) ==> Sum(ws) <= Sum(vs)
  }

  lemma ShortestIsLightest(p: Problem, es: seq<Edge>, target: NodeID)
    requires Shortest(p, es, target)
    ensures Lightest(p, es, target)
  {
    var ws := seq(|es|, i requires 0 <= i < |es| => Weight(es[i], p.prop, p.default));
    assert Weighed(es, p.prop, p.default, ws);
    TotalIsSum(es, p.prop, p.default, ws);
    forall other, vs: seq<real> | p.g.IsPath(p.source, other, target) && Weighed(other, p.prop, p.default, vs)
      ensures Sum(ws) <= Sum(vs)
    {
      TotalIsSum(other, p.prop, p.default, vs);
    }
  }

  /** ShortestPathWeighted, from the identical-endpoints shortcut to the assembled result. */
  method ShortestPathWeighted(g: Graph, source: NodeID, target: NodeID, prop: Str, default: real)
    returns (r: Outcome<Option<PathResult>>)
    requires Tame(Problem(g, source, prop, default))
    ensures source == target ==>
              r == if source in g.nodes then Ok(Some(PathResult([source], [], 0.0))) else NotFound(source)
    ensures source != target ==> (r == Ok(None) <==> !Reachable(Problem(g, source, prop, default), target))
    ensures source != target && r.Ok? && r.value.Some? ==>
              var found := r.value.value;
              && g.IsPath(source, found.edges, target)
              && (NoNegativeTail(Problem(g, source, prop, default), target) ==>
                    Shortest(Problem(g, source, prop, default), found.edges, target)
                    && Lightest(Problem(g, source, prop, default), found.edges, target))
              && (NothingNegative(g, prop, default) ==>
                    Lightest(Problem(g, source, prop, default), found.edges, target))
              && found.nodes == PathNodes(source, found.edges) && found.cost == |found.edges| as real
    ensures r.NotFound? ==> r.id !in g.nodes
    ensures g.NoDangling() && source in g.nodes ==> r.Ok?
  {
    if source == target {
      return if source in g.nodes then Ok(Some(PathResult([source], [], 0.0))) else NotFound(source);
    }
    var p := Problem(g, source, prop, default);
    var found, _, _ := Run(p, target);
    if found.None? {
      return Ok(None);
    }
    if NothingNegative(g, prop, default) {
      NothingNegativeCounts(g, prop, default);
      NonNegativeIsTame(p, target);
    }
    if NoNegativeTail(p, target) {
      ShortestIsLightest(p, found.value, target);
    }
    if g.NoDangling() && source in g.nodes {
      PathStaysInGraph(g, source, found.value, target);
    }
    var built := BuildPathResult(g, source, found.value);
    r := match built case Ok(v) => Ok(Some(v)) case NotFound(id) => NotFound(id);
  }
}
