/**
 ShortestPathWeighted without a reachable cycle of negative weight, weights being of any
 sign: the main loop ends after a bounded number of turns, the walk over `prev` leads back
 to the source, and the path found is shortest if no path into the target is negative.
 */
module LabelCorrecting {
  import opened Types
  import opened Graph
  import opened Relaxation
  import opened NegativeWeights

  ghost predicate NegativeCycle(p: Problem) {
    exists v, cycle :: Reachable(p, v) && p.g.IsPath(v, cycle, v) && Total(cycle, p.prop, p.default) < 0.0
  }

  ghost predicate Tame(p: Problem) {
    p.g.Filed() && !NegativeCycle(p)
  }

  // ---- parts of paths -----------------------------------------------------------------------------

  /** The node a path has reached after `k` edges. */
  function NodeAt(source: NodeID, es: seq<Edge>, k: nat): NodeID
    requires k <= |es|
  {
    if k == 0 then source else es[k - 1].to
  }

  lemma {:induction false} PathSplits(g: Graph, source: NodeID, es: seq<Edge>, target: NodeID, k: nat)
    requires g.IsPath(source, es, target) && k <= |es|
    ensures g.IsPath(source, es[..k], NodeAt(source, es, k)) && g.IsPath(NodeAt(source, es, k), es[k..], target)
    ensures target == NodeAt(source, es, |es|)
    decreases |es|
  {
    if k == |es| {
      assert es[..k] == es && es[k..] == [];
    } else {
      var n := |es| - 1;
      PathSplits(g, source, es[..n], es[n].from, k);
      assert es[..n][..k] == es[..k] && es[k..][..n - k] == es[..n][k..];
    }
  }

  lemma {:induction false} TotalSplits(p: Problem, es: seq<Edge>, k: nat)
    requires k <= |es|
    ensures Total(es, p.prop, p.default) == Total(es[..k], p.prop, p.default) + Total(es[k..], p.prop, p.default)
    decreases |es|
  {
    if k == |es| {
      assert es[..k] == es && es[k..] == [];
    } else {
      var n := |es| - 1;
      TotalSplits(p, es[..n], k);
      assert es[..n][..k] == es[..k] && es[k..][..n - k] == es[..n][k..];
    }
  }

  lemma TotalExtends(p: Problem, es: seq<Edge>, e: Edge)
    ensures Total(es + [e], p.prop, p.default) == Total(es, p.prop, p.default) + p.W(e)
  {
    assert (es + [e])[..|es|] == es;
  }

  // ---- recorded paths repeat no node ------------------------------------------------------------------

  /** `dist` is nowhere above what a prefix of a recorded path weighs. */
  ghost predicate PrefixAt(p: Problem, s: Search, es: seq<Edge>, k: nat) {
    && k <= |es| && NodeAt(p.source, es, k) in s.dist
    && s.dist[NodeAt(p.source, es, k)] <= Total(es[..k], p.prop, p.default)
  }

  ghost predicate Simple(p: Problem, es: seq<Edge>) {
    forall j: nat, k: nat {:trigger NodeAt(p.source, es, j), NodeAt(p.source, es, k)} ::
      j < k <= |es| ==> NodeAt(p.source, es, j) != NodeAt(p.source, es, k)
  }

  /** The path taken when the distance of `v` was last set. */
  ghost predicate RecordAt(p: Problem, s: Search, paths: map<NodeID, seq<Edge>>, v: NodeID) {
    && v in s.dist && v in paths && p.g.IsPath(p.source, paths[v], v) && Total(paths[v], p.prop, p.default) == s.dist[v]
    && Simple(p, paths[v]) && forall k: nat {:trigger PrefixAt(p, s, paths[v], k)} :: k <= |paths[v]| ==>
         PrefixAt(p, s, paths[v], k)
  }

  ghost predicate Recorded(p: Problem, s: Search, paths: map<NodeID, seq<Edge>>) {
    p.source in s.dist && s.dist[p.source] == 0.0 && forall v {:trigger RecordAt(p, s, paths, v)} :: v in s.dist ==>
        RecordAt(p, s, paths, v)
  }

  ghost predicate Improves(p: Problem, s: Search, e: Edge)
    requires e.from in s.dist
  {
    e.to !in s.dist || s.dist[e.from] + p.W(e) < s.dist[e.to]
  }

  /** If an improved node were on the path that improves it, there would be a negative cycle. */
  lemma RepeatIsNegative(p: Problem, s: Search, paths: map<NodeID, seq<Edge>>, e: Edge, k: nat)
    requires Recorded(p, s, paths) && e.from in s.dist && e in p.g.Out(e.from) && Improves(p, s, e)
    requires e.from in paths && k <= |paths[e.from]| && NodeAt(p.source, paths[e.from], k) == e.to
    ensures NegativeCycle(p)
  {
    var u, es := e.from, paths[e.from];
    assert RecordAt(p, s, paths, u) && PrefixAt(p, s, es, k);
    PathSplits(p.g, p.source, es, u, k);
    TotalSplits(p, es, k);
    PathExtends(p.g, e.to, es[k..], e);
    TotalExtends(p, es[k..], e);
    assert Reachable(p, e.to);
    assert p.g.IsPath(e.to, es[k..] + [e], e.to);
  }

  lemma ImprovedIsNew(p: Problem, s: Search, paths: map<NodeID, seq<Edge>>, e: Edge, k: nat)
    requires Tame(p) && Recorded(p, s, paths) && e.from in s.dist && e in p.g.Out(e.from) && Improves(p, s, e)
    requires e.from in paths && k <= |paths[e.from]|
    ensures NodeAt(p.source, paths[e.from], k) != e.to
  {
    if NodeAt(p.source, paths[e.from], k) == e.to {
      RepeatIsNegative(p, s, paths, e, k);
    }
  }

  lemma SimpleExtends(p: Problem, es: seq<Edge>, e: Edge)
    requires Simple(p, es) && forall k: nat {:trigger NodeAt(p.source, es, k)} :: k <= |es| ==>
               NodeAt(p.source, es, k) != e.to
    ensures Simple(p, es + [e])
  {
    var es' := es + [e];
    forall j: nat, k: nat | j < k <= |es'| ensures NodeAt(p.source, es', j) != NodeAt(p.source, es', k) {
      assert NodeAt(p.source, es', j) == NodeAt(p.source, es, j);
      assert k <= |es| ==> NodeAt(p.source, es', k) == NodeAt(p.source, es, k);
    }
  }

  ghost function PathsAfter(p: Problem, s: Search, paths: map<NodeID, seq<Edge>>, e: Edge): map<NodeID, seq<Edge>>
    requires e.from in s.dist
  {
    if e.from in paths && Improves(p, s, e) then paths[e.to := paths[e.from] + [e]] else paths
  }

  lemma LowerPrefix(p: Problem, s: Search, e: Edge, es: seq<Edge>, k: nat)
    requires e.from in s.dist && Improves(p, s, e) && PrefixAt(p, s, es, k)
    ensures PrefixAt(p, Improve(p, s, e), es, k)
  {
  }

  lemma RecordKept(p: Problem, s: Search, paths: map<NodeID, seq<Edge>>, e: Edge, v: NodeID)
    requires Tame(p) && Recorded(p, s, paths) && e.from in s.dist && e in p.g.Out(e.from) && Improves(p, s, e)
    requires v in s.dist && v != e.to
    ensures RecordAt(p, Improve(p, s, e), PathsAfter(p, s, paths, e), v)
  {
    assert RecordAt(p, s, paths, v);
    var s', es := Improve(p, s, e), paths[v];
    forall k: nat | k <= |es| ensures PrefixAt(p, s', es, k) {
      assert PrefixAt(p, s, es, k);
      LowerPrefix(p, s, e, es, k);
    }
  }

  lemma NewRecord(p: Problem, s: Search, paths: map<NodeID, seq<Edge>>, e: Edge)
    requires Tame(p) && Recorded(p, s, paths) && e.from in s.dist && e in p.g.Out(e.from) && Improves(p, s, e)
    ensures e.from in paths && RecordAt(p, Improve(p, s, e), PathsAfter(p, s, paths, e), e.to) && e.to != p.source
  {
    var s' := Improve(p, s, e);
    assert RecordAt(p, s, paths, e.from);
    var es := paths[e.from];
    var es' := es + [e];
    PathExtends(p.g, p.source, es, e);
    TotalExtends(p, es, e);
    forall k: nat | k <= |es| ensures NodeAt(p.source, es, k) != e.to {
      ImprovedIsNew(p, s, paths, e, k);
    }
    assert NodeAt(p.source, es, 0) == p.source;
    SimpleExtends(p, es, e);
    forall k: nat | k <= |es'| ensures PrefixAt(p, s', es', k) {
      if k <= |es| {
        assert PrefixAt(p, s, es, k);
        LowerPrefix(p, s, e, es, k);
        assert es'[..k] == es[..k] && NodeAt(p.source, es', k) == NodeAt(p.source, es, k);
      } else {
        assert es'[..k] == es';
      }
    }
  }

  lemma RelaxOneRecords(p: Problem, s: Search, q: multiset<Item>, paths: map<NodeID, seq<Edge>>, e: Edge)
    requires Tame(p) && Recorded(p, s, paths) && e.from in s.dist && e in p.g.Out(e.from)
    ensures Recorded(p, RelaxOne(p, s, q, e).0, PathsAfter(p, s, paths, e))
  {
    if Improves(p, s, e) {
      NewRecord(p, s, paths, e);
      var s', paths' := Improve(p, s, e), PathsAfter(p, s, paths, e);
      forall v | v in s'.dist ensures RecordAt(p, s', paths', v) {
        if v != e.to {
          RecordKept(p, s, paths, e, v);
        }
      }
    }
  }

  // ---- finitely many paths, so boundedly many turns ---------------------------------------------------

  ghost function AllEdges(g: Graph): set<Edge> {
    set id, e | id in g.out && e in g.out[id] :: e
  }

  /** All lists of at most `n` edges. */
  ghost function Walks(g: Graph, n: nat): set<seq<Edge>> {
    if n == 0 then {[]} else Walks(g, n - 1) + set es, e | es in Walks(g, n - 1) && e in AllEdges(g) :: es + [e]
  }

  lemma {:induction false} PathIsWalk(g: Graph, source: NodeID, es: seq<Edge>, target: NodeID, n: nat)
    requires g.IsPath(source, es, target) && |es| <= n
    ensures es in Walks(g, n)
    decreases n
  {
    if n > 0 {
      if es == [] {
        PathIsWalk(g, source, es, target, n - 1);
      } else {
        var k := |es| - 1;
        PathIsWalk(g, source, es[..k], es[k].from, n - 1);
        assert es[k].from in g.out && es[k] in g.out[es[k].from];
        assert es == es[..k] + [es[k]];
      }
    }
  }

  /** The heads of a path without repeats are different ones. */
  lemma {:induction false} SimpleIsShort(p: Problem, es: seq<Edge>, target: NodeID)
    requires p.g.IsPath(p.source, es, target) && Simple(p, es)
    ensures |es| == |HeadsOf(es)| && HeadsOf(es) <= p.g.Heads()
    decreases |es|
  {
    if es != [] {
      var k := |es| - 1;
      var front := es[..k];
      forall i: nat, j: nat | i < j <= |front| ensures NodeAt(p.source, front, i) != NodeAt(p.source, front, j) {
        assert NodeAt(p.source, front, i) == NodeAt(p.source, es, i) &&
               NodeAt(p.source, front, j) == NodeAt(p.source, es, j);
      }
      SimpleIsShort(p, front, es[k].from);
      p.g.HeadOfOut(es[k].from, es[k]);
      assert es == front + [es[k]];
      assert HeadsOf(es) == HeadsOf(front) + {es[k].to};
      forall i | 0 <= i < k ensures front[i].to != es[k].to {
        assert NodeAt(p.source, es, i + 1) != NodeAt(p.source, es, k + 1);
      }
    }
  }

  ghost function HeadsOf(es: seq<Edge>): set<NodeID> {
    set i | 0 <= i < |es| :: es[i].to
  }

  lemma SubsetSize(a: set<NodeID>, b: set<NodeID>)
    requires a <= b
    ensures |a| <= |b|
  {
    assert b == a + (b - a);
  }

  ghost function Candidates(p: Problem): set<seq<Edge>> {
    Walks(p.g, |p.g.Heads()|)
  }

  lemma SimpleIsCandidate(p: Problem, es: seq<Edge>, target: NodeID)
    requires p.g.IsPath(p.source, es, target) && Simple(p, es)
    ensures es in Candidates(p)
  {
    SimpleIsShort(p, es, target);
    SubsetSize(HeadsOf(es), p.g.Heads());
    PathIsWalk(p.g, p.source, es, target, |p.g.Heads()|);
  }

  ghost predicate Beats(p: Problem, s: Search, es: seq<Edge>) {
    var v := NodeAt(p.source, es, |es|);
    v !in s.dist || Total(es, p.prop, p.default) < s.dist[v]
  }

  /** The candidates lighter than the distance on record: what is left to find. */
  ghost function Left(p: Problem, s: Search): set<seq<Edge>> {
    set es | es in Candidates(p) && Beats(p, s, es)
  }

  /** Every turn lowers this. */
  ghost function Potential(p: Problem, s: Search, q: multiset<Item>): nat {
    |Left(p, s)| + |q|
  }

  lemma ImprovementUsesOne(p: Problem, s: Search, paths: map<NodeID, seq<Edge>>, e: Edge)
    requires Tame(p) && Recorded(p, s, paths) && e.from in s.dist && e in p.g.Out(e.from) && Improves(p, s, e)
    ensures |Left(p, Improve(p, s, e))| < |Left(p, s)|
  {
    var s' := Improve(p, s, e);
    NewRecord(p, s, paths, e);
    var es := paths[e.from] + [e];
    assert RecordAt(p, s', PathsAfter(p, s, paths, e), e.to);
    SimpleIsCandidate(p, es, e.to);
    assert NodeAt(p.source, es, |es|) == e.to;
    assert es in Left(p, s) && es !in Left(p, s');
    forall x | x in Left(p, s') ensures x in Left(p, s) {
      assert Beats(p, s', x);
    }
    SmallerSet(Left(p, s'), Left(p, s), es);
  }

  lemma SmallerSet(a: set<seq<Edge>>, b: set<seq<Edge>>, x: seq<Edge>)
    requires a <= b && x in b && x !in a
    ensures |a| < |b|
  {
    assert b == a + (b - a);
    assert x in b - a;
  }

  lemma RelaxOneLowers(p: Problem, s: Search, q: multiset<Item>, paths: map<NodeID, seq<Edge>>, e: Edge)
    requires Tame(p) && Recorded(p, s, paths) && e.from in s.dist && e in p.g.Out(e.from)
    ensures var r := RelaxOne(p, s, q, e); Potential(p, r.0, r.1) <= Potential(p, s, q)
  {
    if Improves(p, s, e) {
      ImprovementUsesOne(p, s, paths, e);
    }
  }

  lemma {:induction false} RelaxListLowers(p: Problem, s: Search, q: multiset<Item>, paths: map<NodeID, seq<Edge>>,
      u: NodeID, k: nat)
    returns (paths': map<NodeID, seq<Edge>>)
    requires Tame(p) && Recorded(p, s, paths) && u in s.dist && k <= |p.g.Out(u)|
    ensures forall e :: e in p.g.Out(u)[..k] ==> e.from == u
    ensures var r := RelaxList(p, s, q, u, p.g.Out(u)[..k]);
            Recorded(p, r.0, paths') && Potential(p, r.0, r.1) <= Potential(p, s, q)
  {
    OutFrom(p.g, u);
    paths' := paths;
    if k > 0 {
      var before := RelaxListLowers(p, s, q, paths, u, k - 1);
      var es := p.g.Out(u)[..k];
      assert es[..k - 1] == p.g.Out(u)[..k - 1];
      var r, e := RelaxList(p, s, q, u, p.g.Out(u)[..k - 1]), p.g.Out(u)[k - 1];
      RelaxOneRecords(p, r.0, r.1, before, e);
      RelaxOneLowers(p, r.0, r.1, before, e);
      paths' := PathsAfter(p, r.0, before, e);
    }
  }

  lemma TurnLowers(p: Problem, target: NodeID, l: Loop, l': Loop, paths: map<NodeID, seq<Edge>>)
    returns (paths': map<NodeID, seq<Edge>>)
    requires Tame(p) && Recorded(p, l.s, paths) && Turn(p, target, l, l')
    ensures Recorded(p, l'.s, paths') && Potential(p, l'.s, l'.q) < Potential(p, l.s, l.q)
  {
    var it :| Cheapest(l.q, it) && it.id in l.s.dist && l' == After(p, target, l, it);
    var q, n := l.q - multiset{it}, |p.g.Out(it.id)|;
    assert |q| == |l.q| - 1;
    paths' := paths;
    if it.id != target && it.cost <= l.s.dist[it.id] {
      paths' := RelaxListLowers(p, l.s, q, paths, it.id, n);
      assert p.g.Out(it.id)[..n] == p.g.Out(it.id);
    }
  }

  lemma StartRecorded(p: Problem)
    requires p.g.Filed()
    ensures Recorded(p, Start(p).s, map[p.source := []]) && Potential(p, Start(p).s, Start(p).q) <= |Candidates(p)| + 1
  {
    var s := Start(p).s;
    assert PrefixAt(p, s, [], 0);
    assert RecordAt(p, s, map[p.source := []], p.source);
    LeftSize(Left(p, s), Candidates(p));
  }

  lemma LeftSize(a: set<seq<Edge>>, b: set<seq<Edge>>)
    requires a <= b
    ensures |a| <= |b|
  {
    assert b == a + (b - a);
  }

  lemma {:induction false} TraceLowers(p: Problem, target: NodeID, ls: seq<Loop>, i: nat)
    returns (paths: map<NodeID, seq<Edge>>)
    requires Tame(p) && Trace(p, target, ls) && i < |ls|
    ensures Recorded(p, ls[i].s, paths) && i + Potential(p, ls[i].s, ls[i].q) <= |Candidates(p)| + 1
  {
    if i == 0 {
      StartRecorded(p);
      paths := map[p.source := []];
    } else {
      var before := TraceLowers(p, target, ls, i - 1);
      assert Turn(p, target, ls[i - 1], ls[i]);
      paths := TurnLowers(p, target, ls[i - 1], ls[i], before);
    }
  }

  /** Without a reachable negative cycle every run of the loop is bounded, whatever the ties. */
  lemma TameRunsAreBounded(p: Problem, target: NodeID, ls: seq<Loop>)
    requires Tame(p) && Trace(p, target, ls)
    ensures |ls| <= |Candidates(p)| + 2
  {
    var paths := TraceLowers(p, target, ls, |ls| - 1);
  }

  // ---- unbounded otherwise ----------------------------------------------------------------------------

  lemma {:induction false} CheapestExists(q: multiset<Item>) returns (it: Item)
    requires q != multiset{}
    ensures Cheapest(q, it)
    decreases |q|
  {
    var x :| x in q;
    var rest := q - multiset{x};
    it := x;
    if rest != multiset{} {
      var y := CheapestExists(rest);
      if y.cost < x.cost {
        it := y;
      }
      forall z | z in q ensures it.cost <= z.cost {
        assert z == x || z in rest;
      }
    } else {
      forall z | z in q ensures it.cost <= z.cost {
        assert z == x || z in rest;
      }
    }
  }

  /** A run of the loop that has not ended goes on. */
  lemma GoesOn(p: Problem, target: NodeID, ls: seq<Loop>) returns (ls': seq<Loop>)
    requires p.g.Filed() && Trace(p, target, ls) && !Ended(ls[|ls| - 1])
    ensures Trace(p, target, ls') && |ls'| == |ls| + 1
  {
    var l := ls[|ls| - 1];
    var it := CheapestExists(l.q);
    TraceKeeps(p, target, ls, |ls| - 1);
    assert p.NotCheaper(l.s, it, it.id);
    ls' := ls + [After(p, target, l, it)];
    TraceExtends(p, target, ls, it, After(p, target, l, it));
  }

  lemma {:induction false} LongRun(p: Problem, target: NodeID, n: nat) returns (ls: seq<Loop>)
    requires p.g.Filed() && NegativeCycle(p) && !Reachable(p, target)
    ensures Trace(p, target, ls) && |ls| == n + 1
  {
    if n == 0 {
      ls := [Start(p)];
    } else {
      var shorter := LongRun(p, target, n - 1);
      var v, cycle :| Reachable(p, v) && p.g.IsPath(v, cycle, v) && Total(cycle, p.prop, p.default) < 0.0;
      NegativeCycleNeverEnds(p, target, shorter, v, cycle);
      ls := GoesOn(p, target, shorter);
    }
  }

  ghost predicate Bounded(p: Problem, target: NodeID, bound: nat)
    requires p.g.Filed()
  {
    forall ls {:trigger Trace(p, target, ls)} :: Trace(p, target, ls) ==> |ls| <= bound
  }

  /** For an unreachable target the loop is bounded if and only if no negative cycle is reachable. */
  lemma UnreachableExactly(p: Problem, target: NodeID)
    requires p.g.Filed() && !Reachable(p, target)
    ensures (exists bound: nat :: Bounded(p, target, bound)) <==> !NegativeCycle(p)
  {
    if NegativeCycle(p) {
      forall bound: nat ensures !Bounded(p, target, bound) {
        var ls := LongRun(p, target, bound);
      }
    } else {
      forall ls | Trace(p, target, ls) ensures |ls| <= |Candidates(p)| + 2 {
        TameRunsAreBounded(p, target, ls);
      }
      assert Bounded(p, target, |Candidates(p)| + 2);
    }
  }

  // ---- the walk over prev ----------------------------------------------------------------------------

  /** The walk from `v` over `prev` is at the source after exactly `k` steps. */
  predicate WalkEnds(s: Search, source: NodeID, v: NodeID, k: nat)
    decreases k
  {
    if k == 0 then v == source else v != source && v in s.prev && WalkEnds(s, source, s.prev[v], k - 1)
  }

  /** `x` is met on that walk. */
  predicate OnWalk(s: Search, v: NodeID, k: nat, x: NodeID)
    decreases k
  {
    v == x || (k > 0 && v in s.prev && OnWalk(s, s.prev[v], k - 1, x))
  }

  /** A node's predecessor is joined to it by an edge, and accounts for at most its distance. */
  ghost predicate LinkedAt(p: Problem, s: Search, v: NodeID) {
    && v in s.dist && v in s.prev && v in s.prevEdge && s.prev[v] in s.dist
    && var e := s.prevEdge[v];
         e.from == s.prev[v] && e.to == v && e in p.g.Out(e.from) && s.dist[e.from] + p.W(e) <= s.dist[v]
  }

  ghost predicate WalksBack(p: Problem, s: Search, v: NodeID) {
    exists k: nat :: WalkEnds(s, p.source, v, k)
  }

  ghost predicate Tree(p: Problem, s: Search) {
    && p.source in s.dist && s.dist[p.source] == 0.0
    && (forall v {:trigger Realised(p, s, v)} :: v in s.dist ==> Realised(p, s, v))
    && (forall v {:trigger LinkedAt(p, s, v)} :: v in s.dist && v != p.source ==> LinkedAt(p, s, v))
    && (forall v {:trigger WalksBack(p, s, v)} :: v in s.dist ==> WalksBack(p, s, v))
  }

  /** From a node met on the walk back from `u` there is a path to `u` that explains the difference. */
  lemma {:induction false} WalkIsPath(p: Problem, s: Search, u: NodeID, k: nat, x: NodeID) returns (es: seq<Edge>)
    requires Tree(p, s) && u in s.dist && WalkEnds(s, p.source, u, k) && OnWalk(s, u, k, x)
    ensures x in s.dist && p.g.IsPath(x, es, u) && s.dist[x] + Total(es, p.prop, p.default) <= s.dist[u]
    decreases k
  {
    if u == x {
      es := [];
    } else {
      assert LinkedAt(p, s, u);
      var e := s.prevEdge[u];
      var front := WalkIsPath(p, s, e.from, k - 1, x);
      es := front + [e];
      PathExtends(p.g, x, front, e);
      TotalExtends(p, front, e);
    }
  }

  /** If the improving node's walk met the improved one, there would be a negative cycle. */
  lemma MeetingIsNegative(p: Problem, s: Search, e: Edge, k: nat)
    requires Tree(p, s) && e.from in s.dist && e in p.g.Out(e.from) && Improves(p, s, e)
    requires WalkEnds(s, p.source, e.from, k) && OnWalk(s, e.from, k, e.to)
    ensures NegativeCycle(p)
  {
    var es := WalkIsPath(p, s, e.from, k, e.to);
    PathExtends(p.g, e.to, es, e);
    TotalExtends(p, es, e);
    assert Realised(p, s, e.to);
    assert Reachable(p, e.to);
    assert p.g.IsPath(e.to, es + [e], e.to);
  }

  lemma WalkAvoids(p: Problem, s: Search, e: Edge, k: nat)
    requires Tame(p) && Tree(p, s) && e.from in s.dist && e in p.g.Out(e.from) && Improves(p, s, e) &&
             WalkEnds(s, p.source, e.from, k)
    ensures !OnWalk(s, e.from, k, e.to)
  {
    if OnWalk(s, e.from, k, e.to) {
      MeetingIsNegative(p, s, e, k);
    }
  }

  lemma {:induction false} WalkUnchanged(p: Problem, s: Search, e: Edge, v: NodeID, k: nat)
    requires e.from in s.dist && WalkEnds(s, p.source, v, k) && !OnWalk(s, v, k, e.to)
    ensures WalkEnds(Improve(p, s, e), p.source, v, k)
    decreases k
  {
    if k > 0 {
      WalkUnchanged(p, s, e, s.prev[v], k - 1);
    }
  }

  /** After the improvement every walk still ends, by way of the improving node if it met the improved one. */
  lemma {:induction false} WalkStillEnds(p: Problem, s: Search, e: Edge, ku: nat, v: NodeID, k: nat)
    requires e.from in s.dist && e.to != p.source && WalkEnds(Improve(p, s, e), p.source, e.from, ku) &&
             WalkEnds(s, p.source, v, k)
    ensures WalksBack(p, Improve(p, s, e), v)
    decreases k
  {
    var s' := Improve(p, s, e);
    if v == e.to {
      assert WalkEnds(s', p.source, v, ku + 1);
    } else if k > 0 {
      WalkStillEnds(p, s, e, ku, s.prev[v], k - 1);
      var k': nat :| WalkEnds(s', p.source, s.prev[v], k');
      assert WalkEnds(s', p.source, v, k' + 1);
    } else {
      assert WalkEnds(s', p.source, v, 0);
    }
  }

  lemma ImproveKeepsTree(p: Problem, s: Search, e: Edge)
    requires Tame(p) && Tree(p, s) && e.from in s.dist && e in p.g.Out(e.from) && Improves(p, s, e)
    ensures Tree(p, Improve(p, s, e))
  {
    var s' := Improve(p, s, e);
    assert WalksBack(p, s, e.from);
    var ku: nat :| WalkEnds(s, p.source, e.from, ku);
    WalkAvoids(p, s, e, ku);
    MeetsSource(p, s, e.from, ku);
    WalkUnchanged(p, s, e, e.from, ku);
    forall v | v in s'.dist ensures WalksBack(p, s', v) {
      if v == e.to {
        assert WalkEnds(s', p.source, v, ku + 1);
      } else {
        assert WalksBack(p, s, v);
        var k: nat :| WalkEnds(s, p.source, v, k);
        WalkStillEnds(p, s, e, ku, v, k);
      }
    }
    forall v | v in s'.dist && v != p.source ensures LinkedAt(p, s', v) {
      if v != e.to {
        assert LinkedAt(p, s, v);
      }
    }
    OneRealises(p, s, multiset{}, e);
    assert RelaxOne(p, s, multiset{}, e).0 == s';
  }

  lemma {:induction false} MeetsSource(p: Problem, s: Search, v: NodeID, k: nat)
    requires WalkEnds(s, p.source, v, k)
    ensures OnWalk(s, v, k, p.source)
    decreases k
  {
    if k > 0 {
      MeetsSource(p, s, s.prev[v], k - 1);
    }
  }

  lemma {:induction false} ListKeepsTree(p: Problem, s: Search, q: multiset<Item>, u: NodeID, k: nat)
    requires Tame(p) && Tree(p, s) && u in s.dist && k <= |p.g.Out(u)|
    ensures forall e :: e in p.g.Out(u)[..k] ==> e.from == u
    ensures Tree(p, RelaxList(p, s, q, u, p.g.Out(u)[..k]).0)
  {
    OutFrom(p.g, u);
    if k > 0 {
      ListKeepsTree(p, s, q, u, k - 1);
      assert p.g.Out(u)[..k][..k - 1] == p.g.Out(u)[..k - 1];
      var r, e := RelaxList(p, s, q, u, p.g.Out(u)[..k - 1]), p.g.Out(u)[k - 1];
      if Improves(p, r.0, e) {
        ImproveKeepsTree(p, r.0, e);
      }
    }
  }

  lemma TurnKeepsTree(p: Problem, target: NodeID, l: Loop, l': Loop)
    requires Tame(p) && Tree(p, l.s) && Turn(p, target, l, l')
    ensures Tree(p, l'.s)
  {
    var it :| Cheapest(l.q, it) && it.id in l.s.dist && l' == After(p, target, l, it);
    var n := |p.g.Out(it.id)|;
    if it.id != target && it.cost <= l.s.dist[it.id] {
      ListKeepsTree(p, l.s, l.q - multiset{it}, it.id, n);
      assert p.g.Out(it.id)[..n] == p.g.Out(it.id);
    }
  }

  lemma {:induction false} TraceKeepsTree(p: Problem, target: NodeID, ls: seq<Loop>, i: nat)
    requires Tame(p) && Trace(p, target, ls) && i < |ls|
    ensures Tree(p, ls[i].s)
  {
    if i == 0 {
      var s := Start(p).s;
      StartsOk(p, target);
      assert Realised(p, s, p.source);
      assert WalkEnds(s, p.source, p.source, 0);
    } else {
      TraceKeepsTree(p, target, ls, i - 1);
      assert Turn(p, target, ls[i - 1], ls[i]);
      TurnKeepsTree(p, target, ls[i - 1], ls[i]);
    }
  }

  /**
   Without a reachable negative cycle the walk over `prev` from any node with a distance ends
   at the source, and spells a path no heavier than that distance.
   */
  lemma WalkLeadsBack(p: Problem, target: NodeID, ls: seq<Loop>, i: nat, v: NodeID) returns (k: nat, es: seq<Edge>)
    requires Tame(p) && Trace(p, target, ls) && i < |ls| && v in ls[i].s.dist
    ensures WalkEnds(ls[i].s, p.source, v, k)
    ensures p.g.IsPath(p.source, es, v) && Total(es, p.prop, p.default) <= ls[i].s.dist[v]
  {
    var s := ls[i].s;
    TraceKeepsTree(p, target, ls, i);
    assert WalksBack(p, s, v);
    k :| WalkEnds(s, p.source, v, k);
    MeetsSource(p, s, v, k);
    es := WalkIsPath(p, s, v, k, p.source);
  }

  // ---- when the stop is at a shortest path --------------------------------------------------------------

  /** No path from a reachable node to the target is negative. */
  ghost predicate NoNegativeTail(p: Problem, target: NodeID) {
    forall v, es {:trigger p.g.IsPath(v, es, target)} :: Reachable(p, v) && p.g.IsPath(v, es, target) ==>
        Total(es, p.prop, p.default) >= 0.0
  }

  /** Every open node is at least as far as the target. */
  ghost predicate NearestOpen(s: Search, q: multiset<Item>, target: NodeID) {
    target in s.dist && forall v {:trigger Open(s, q, v)} :: Open(s, q, v) ==> s.dist[target] <= s.dist[v]
  }

  /** Along a path: its weight so far bounds the distance, or an open node on it is farther than the target. */
  lemma {:induction false} AlongOpen(p: Problem, target: NodeID, s: Search, q: multiset<Item>, es: seq<Edge>, w: NodeID)
    requires Inv(p, target, s, q) && NearestOpen(s, q, target) && p.g.IsPath(p.source, es, w)
    ensures (w in s.dist && s.dist[w] <= Total(es, p.prop, p.default)) ||
            exists j: nat :: j < |es| && s.dist[target] <= Total(es[..j], p.prop, p.default)
    decreases |es|
  {
    if es != [] {
      var n := |es| - 1;
      var e := es[n];
      AlongOpen(p, target, s, q, es[..n], e.from);
      if j: nat :| j < n && s.dist[target] <= Total(es[..n][..j], p.prop, p.default) {
        assert es[..n][..j] == es[..j];
      } else if Open(s, q, e.from) {
        assert s.dist[target] <= Total(es[..n], p.prop, p.default);
      } else {
        Whole(p, target, s, q, p.source, e.from);
        assert p.g.Out(e.from)[..|p.g.Out(e.from)|] == p.g.Out(e.from);
        assert p.RelaxedAt(s, e.from, e);
      }
    }
  }

  lemma NearestIsShortest(p: Problem, target: NodeID, s: Search, q: multiset<Item>, es: seq<Edge>)
    requires Inv(p, target, s, q) && NearestOpen(s, q, target) && NoNegativeTail(p, target) &&
             p.g.IsPath(p.source, es, target)
    ensures s.dist[target] <= Total(es, p.prop, p.default)
  {
    AlongOpen(p, target, s, q, es, target);
    if j: nat :| j < |es| && s.dist[target] <= Total(es[..j], p.prop, p.default) {
      PathSplits(p.g, p.source, es, target, j);
      TotalSplits(p, es, j);
      assert Reachable(p, NodeAt(p.source, es, j));
    }
  }

  lemma PoppedIsNearest(p: Problem, target: NodeID, s: Search, q: multiset<Item>, it: Item)
    requires Inv(p, target, s, q) && Cheapest(q, it) && it.id == target
    ensures NearestOpen(s, q, target)
  {
    assert p.NotCheaper(s, it, it.id);
    forall v | Open(s, q, v) ensures s.dist[target] <= s.dist[v] {
      assert Item(v, s.dist[v]) in q;
    }
  }

  /** A stop is at the least distance whenever no path from a reachable node to the target is negative. */
  lemma StopIsShortest(p: Problem, target: NodeID, ls: seq<Loop>, es: seq<Edge>)
    requires p.g.Filed() && Trace(p, target, ls) && ls[|ls| - 1].stopped && NoNegativeTail(p, target) &&
             p.g.IsPath(p.source, es, target)
    ensures target in ls[|ls| - 1].s.dist && ls[|ls| - 1].s.dist[target] <= Total(es, p.prop, p.default)
  {
    var n := |ls| - 1;
    assert n > 0 && Turn(p, target, ls[n - 1], ls[n]);
    var l := ls[n - 1];
    TraceKeeps(p, target, ls, n - 1);
    var it :| Cheapest(l.q, it) && it.id in l.s.dist && ls[n] == After(p, target, l, it);
    PoppedIsNearest(p, target, l.s, l.q, it);
    NearestIsShortest(p, target, l.s, l.q, es);
  }

  // ---- non-negative weights are tame -----------------------------------------------------------------------

  lemma {:induction false} TotalNonNegative(p: Problem, v: NodeID, es: seq<Edge>, w: NodeID)
    requires NonNegative(p.g, p.prop, p.default) && p.g.IsPath(v, es, w)
    ensures Total(es, p.prop, p.default) >= 0.0
    decreases |es|
  {
    if es != [] {
      TotalNonNegative(p, v, es[..|es| - 1], es[|es| - 1].from);
    }
  }

  lemma NonNegativeIsTame(p: Problem, target: NodeID)
    requires p.Valid()
    ensures Tame(p) && NoNegativeTail(p, target)
  {
    forall v, es, w | p.g.IsPath(v, es, w) ensures Total(es, p.prop, p.default) >= 0.0 {
      TotalNonNegative(p, v, es, w);
    }
  }

  // ---- a walk that never ends ------------------------------------------------------------------------------

  lemma ExpandSingle(p: Problem, target: NodeID, l: Loop, it: Item, e: Edge)
    requires p.g.Filed() && it.id in l.s.dist && it.id != target && it.cost <= l.s.dist[it.id]
    requires p.g.Out(it.id) == [e] && e.from == it.id && Improves(p, l.s, e)
    ensures After(p, target, l, it) ==
              Loop(Improve(p, l.s, e), l.q - multiset{it} + multiset{Item(e.to, l.s.dist[e.from] + p.W(e))}, false)
  {
    var q := l.q - multiset{it};
    assert [e][..0] == [];
    assert RelaxList(p, l.s, q, it.id, []) == (l.s, q);
    assert RelaxList(p, l.s, q, it.id, [e]) == RelaxOne(p, l.s, q, e);
  }

  lemma ExpandDouble(p: Problem, target: NodeID, l: Loop, it: Item, a: Edge, b: Edge)
    requires p.g.Filed() && it.id in l.s.dist && it.id != target && it.cost <= l.s.dist[it.id]
    requires p.g.Out(it.id) == [a, b] && a.from == b.from == it.id && a.to != it.id && Improves(p, l.s, a) &&
             Improves(p, Improve(p, l.s, a), b)
    ensures var s1 := Improve(p, l.s, a);
            After(p, target, l, it) ==
              Loop(Improve(p, s1, b),
                   l.q - multiset{it} + multiset{Item(a.to, l.s.dist[it.id] + p.W(a))} + multiset{Item(b.to,
                       s1.dist[it.id] + p.W(b))}, false)
  {
    RelaxPair(p, l.s, l.q - multiset{it}, it.id, a, b);
  }

  const E12: Edge := Weighs(1, 1, 2, 0.0)
  const E23: Edge := Weighs(2, 2, 3, 10.0)
  const E32: Edge := Weighs(3, 3, 2, -11.0)
  const E34: Edge := Weighs(4, 3, 4, -20.0)
  const E45: Edge := Weighs(5, 4, 5, 0.0)

  /** From 1 by way of 2, 3 and 4 to 5, with a negative cycle between 2 and 3. */
  function Roundabout(): Problem {
    Problem(Graph({1, 2, 3, 4, 5}, map[1 := [E12], 2 := [E23], 3 := [E32, E34], 4 := [E45]], map[]), 1, [], 0.0)
  }

  const S1: Search := Search(map[1 := 0.0, 2 := 0.0], map[2 := 1], map[2 := E12])
  const S2: Search := Search(map[1 := 0.0, 2 := 0.0, 3 := 10.0], map[2 := 1, 3 := 2], map[2 := E12, 3 := E23])
  const S3: Search := Search(map[1 := 0.0, 2 := -1.0, 3 := 10.0, 4 := -10.0], map[2 := 3, 3 := 2, 4 := 3],
      map[2 := E32, 3 := E23, 4 := E34])
  const S4: Search := Search(map[1 := 0.0, 2 := -1.0, 3 := 10.0, 4 := -10.0, 5 := -10.0],
      map[2 := 3, 3 := 2, 4 := 3, 5 := 4],
                             map[2 := E32, 3 := E23, 4 := E34, 5 := E45])

  lemma RoundaboutGraph()
    ensures var p := Roundabout();
            && p.g.Filed() && p.g.Out(1) == [E12] && p.g.Out(2) == [E23] && p.g.Out(3) == [E32, E34]
            && p.g.Out(4) == [E45]
            && p.W(E12) == 0.0 && p.W(E23) == 10.0 && p.W(E32) == -11.0 && p.W(E34) == -20.0 && p.W(E45) == 0.0
  {
  }

  lemma RoundaboutFirst()
    ensures Roundabout().g.Filed()
    ensures After(Roundabout(), 5, Start(Roundabout()), Item(1, 0.0)) == Loop(S1, multiset{Item(2, 0.0)}, false)
    ensures After(Roundabout(), 5, Loop(S1, multiset{Item(2, 0.0)}, false), Item(2, 0.0)) ==
              Loop(S2, multiset{Item(3, 10.0)}, false)
  {
    var p := Roundabout();
    RoundaboutGraph();
    ExpandSingle(p, 5, Start(p), Item(1, 0.0), E12);
    assert Improve(p, Start(p).s, E12) == S1;
    assert multiset{Item(1, 0.0)} - multiset{Item(1, 0.0)} + multiset{Item(2, 0.0)} == multiset{Item(2, 0.0)};
    ExpandSingle(p, 5, Loop(S1, multiset{Item(2, 0.0)}, false), Item(2, 0.0), E23);
    assert Improve(p, S1, E23) == S2;
    assert multiset{Item(2, 0.0)} - multiset{Item(2, 0.0)} + multiset{Item(3, 10.0)} == multiset{Item(3, 10.0)};
  }

  lemma RoundaboutThird()
    ensures Roundabout().g.Filed()
    ensures After(Roundabout(), 5, Loop(S2, multiset{Item(3, 10.0)}, false), Item(3, 10.0)) ==
              Loop(S3, multiset{Item(2, -1.0), Item(4, -10.0)}, false)
  {
    var p := Roundabout();
    RoundaboutGraph();
    RoundaboutImproves();
    ExpandDouble(p, 5, Loop(S2, multiset{Item(3, 10.0)}, false), Item(3, 10.0), E32, E34);
    var none := multiset{Item(3, 10.0)} - multiset{Item(3, 10.0)};
    assert none + multiset{Item(2, -1.0)} + multiset{Item(4, -10.0)} == multiset{Item(2, -1.0), Item(4, -10.0)};
  }

  lemma RoundaboutImproves()
    ensures var p := Roundabout(); var s := Improve(p, S2, E32);
            Improves(p, S2, E32) && s.dist[3] == 10.0 && Improves(p, s, E34) && Improve(p, s, E34) == S3
  {
    RoundaboutGraph();
    assert Improve(Roundabout(), Improve(Roundabout(), S2, E32), E34) == S3;
  }

  lemma RoundaboutFourth()
    ensures Roundabout().g.Filed()
    ensures After(Roundabout(), 5, Loop(S3, multiset{Item(2, -1.0), Item(4, -10.0)}, false), Item(4, -10.0)) ==
              Loop(S4, multiset{Item(2, -1.0), Item(5, -10.0)}, false)
  {
    var p, q := Roundabout(), multiset{Item(2, -1.0), Item(4, -10.0)};
    RoundaboutGraph();
    ExpandSingle(p, 5, Loop(S3, q, false), Item(4, -10.0), E45);
    assert Improve(p, S3, E45) == S4;
    assert q - multiset{Item(4, -10.0)} + multiset{Item(5, -10.0)} == multiset{Item(2, -1.0), Item(5, -10.0)};
  }

  lemma {:induction false} RoundForEver(v: NodeID, k: nat)
    requires v == 2 || v == 3 || v == 4 || v == 5
    ensures !WalkEnds(S4, 1, v, k)
    decreases k
  {
    if k > 0 {
      RoundForEver(S4.prev[v], k - 1);
    }
  }

  lemma RoundaboutEarly() returns (ls: seq<Loop>)
    ensures Roundabout().g.Filed() && Trace(Roundabout(), 5, ls) &&
            ls[|ls| - 1] == Loop(S2, multiset{Item(3, 10.0)}, false)
  {
    var p := Roundabout();
    RoundaboutFirst();
    ls := [Start(p)];
    TraceExtends(p, 5, ls, Item(1, 0.0), Loop(S1, multiset{Item(2, 0.0)}, false));
    ls := ls + [Loop(S1, multiset{Item(2, 0.0)}, false)];
    TraceExtends(p, 5, ls, Item(2, 0.0), Loop(S2, multiset{Item(3, 10.0)}, false));
    ls := ls + [Loop(S2, multiset{Item(3, 10.0)}, false)];
  }

  lemma RoundaboutLate() returns (ls: seq<Loop>)
    ensures Roundabout().g.Filed() && Trace(Roundabout(), 5, ls) &&
            ls[|ls| - 1] == Loop(S4, multiset{Item(2, -1.0), Item(5, -10.0)}, false)
  {
    var p := Roundabout();
    ls := RoundaboutEarly();
    RoundaboutThird();
    TraceExtends(p, 5, ls, Item(3, 10.0), Loop(S3, multiset{Item(2, -1.0), Item(4, -10.0)}, false));
    ls := ls + [Loop(S3, multiset{Item(2, -1.0), Item(4, -10.0)}, false)];
    RoundaboutFourth();
    TraceExtends(p, 5, ls, Item(4, -10.0), Loop(S4, multiset{Item(2, -1.0), Item(5, -10.0)}, false));
    ls := ls + [Loop(S4, multiset{Item(2, -1.0), Item(5, -10.0)}, false)];
  }

  /** The loop stops at the target, and the walk over `prev` from there never reaches the source. */
  lemma StopsButNeverReturns() returns (ls: seq<Loop>)
    ensures Roundabout().g.Filed() && Trace(Roundabout(), 5, ls) && ls[|ls| - 1].stopped && ls[|ls| - 1].s == S4
    ensures forall k: nat :: !WalkEnds(S4, 1, 5, k)
  {
    var p := Roundabout();
    var late := RoundaboutLate();
    var l := After(p, 5, late[|late| - 1], Item(5, -10.0));
    TraceExtends(p, 5, late, Item(5, -10.0), l);
    ls := late + [l];
    forall k: nat ensures !WalkEnds(S4, 1, 5, k) { RoundForEver(5, k); }
  }
}
