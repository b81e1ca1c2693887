/**
 ShortestPathWeighted on weights of any sign, turn by turn: what its main loop still
 guarantees, when it cannot end, and how it can stop at a path that is not the shortest.
 */
module NegativeWeights {
  import opened Types
  import opened Graph
  import opened Relaxation

  /** A distance on record is the weight of a real path. */
  ghost predicate Realised(p: Problem, s: Search, v: NodeID) {
    v in s.dist && exists es :: p.g.IsPath(p.source, es, v) && Total(es, p.prop, p.default) == s.dist[v]
  }

  ghost predicate Open(s: Search, q: multiset<Item>, v: NodeID) {
    v in s.dist && Item(v, s.dist[v]) in q
  }

  /** A node waits in the queue at its present distance, or `edges` of it are relaxed. */
  ghost predicate Covered(p: Problem, s: Search, q: multiset<Item>, v: NodeID, edges: seq<Edge>) {
    Open(s, q, v) || forall e :: e in edges ==> p.RelaxedAt(s, v, e)
  }

  /** While the first `k` edges of `u` have been relaxed. */
  ghost predicate Partial(p: Problem, target: NodeID, s: Search, q: multiset<Item>, u: NodeID, k: nat) {
    && p.g.Filed() && p.source in s.dist && s.dist[p.source] <= 0.0 && u in s.dist && k <= |p.g.Out(u)|
    && (forall v {:trigger Realised(p, s, v)} :: v in s.dist ==> Realised(p, s, v))
    && (forall it {:trigger p.NotCheaper(s, it, it.id)} :: it in q ==> p.NotCheaper(s, it, it.id))
    && (forall v {:trigger p.g.Out(v)} :: v in s.dist && v != u ==> Covered(p, s, q, v, p.g.Out(v)))
    && Covered(p, s, q, u, p.g.Out(u)[..k])
    && (target in s.dist ==> Open(s, q, target))
  }

  /** Between turns: all edges of the source, say, and of every other node. */
  ghost predicate Inv(p: Problem, target: NodeID, s: Search, q: multiset<Item>) {
    Partial(p, target, s, q, p.source, |p.g.Out(p.source)|)
  }

  lemma OneCovers(p: Problem, s: Search, q: multiset<Item>, e: Edge, v: NodeID, edges: seq<Edge>)
    requires e.from in s.dist && v in s.dist && Covered(p, s, q, v, edges)
    ensures var r := RelaxOne(p, s, q, e); Covered(p, r.0, r.1, v, edges)
  {
    var r := RelaxOne(p, s, q, e);
    if r.0 != s && v != e.to {
      if Open(s, q, v) {
        assert Open(r.0, r.1, v);
      } else {
        forall e' | e' in edges ensures p.RelaxedAt(r.0, v, e') {
          assert p.RelaxedAt(s, v, e');
        }
      }
    } else if v == e.to {
      assert r.0 != s ==> Open(r.0, r.1, v);
    }
  }

  lemma OneRealises(p: Problem, s: Search, q: multiset<Item>, e: Edge)
    requires e.from in s.dist && e in p.g.Out(e.from) && forall v {:trigger Realised(p, s, v)} :: v in s.dist ==>
               Realised(p, s, v)
    ensures var r := RelaxOne(p, s, q, e);
            forall v {:trigger Realised(p, r.0, v)} :: v in r.0.dist ==> Realised(p, r.0, v)
  {
    var r := RelaxOne(p, s, q, e);
    forall v | v in r.0.dist ensures Realised(p, r.0, v) {
      if v == e.to && r.0 != s {
        assert Realised(p, s, e.from);
        var es :| p.g.IsPath(p.source, es, e.from) && Total(es, p.prop, p.default) == s.dist[e.from];
        PathExtends(p.g, p.source, es, e);
        assert (es + [e])[..|es|] == es;
      } else {
        assert Realised(p, s, v);
      }
    }
  }

  lemma PartialNext(p: Problem, target: NodeID, s: Search, q: multiset<Item>, u: NodeID, k: nat)
    requires Partial(p, target, s, q, u, k) && k < |p.g.Out(u)|
    ensures p.g.Out(u)[k].from == u
    ensures var r := RelaxOne(p, s, q, p.g.Out(u)[k]); Partial(p, target, r.0, r.1, u, k + 1)
  {
    OutFrom(p.g, u);
    var e := p.g.Out(u)[k];
    var r := RelaxOne(p, s, q, e);
    OneRealises(p, s, q, e);
    forall v {:trigger p.g.Out(v)} | v in r.0.dist && v != u ensures Covered(p, r.0, r.1, v, p.g.Out(v)) {
      if v in s.dist {
        OneCovers(p, s, q, e, v, p.g.Out(v));
      }
    }
    OneCovers(p, s, q, e, u, p.g.Out(u)[..k]);
    assert p.g.Out(u)[..k + 1] == p.g.Out(u)[..k] + [e];
    assert Open(r.0, r.1, u) || p.RelaxedAt(r.0, u, e);
    forall it | it in r.1 ensures p.NotCheaper(r.0, it, it.id) {
      assert it in q ==> p.NotCheaper(s, it, it.id);
    }
  }

  lemma {:induction false} PartialAll(p: Problem, target: NodeID, s: Search, q: multiset<Item>, u: NodeID, k: nat)
    requires Partial(p, target, s, q, u, 0) && k <= |p.g.Out(u)|
    ensures forall e :: e in p.g.Out(u)[..k] ==> e.from == u
    ensures var r := RelaxList(p, s, q, u, p.g.Out(u)[..k]); Partial(p, target, r.0, r.1, u, k)
  {
    OutFrom(p.g, u);
    if k > 0 {
      PartialAll(p, target, s, q, u, k - 1);
      assert p.g.Out(u)[..k][..k - 1] == p.g.Out(u)[..k - 1];
      var r := RelaxList(p, s, q, u, p.g.Out(u)[..k - 1]);
      PartialNext(p, target, r.0, r.1, u, k - 1);
    }
  }

  /** Which node is spoken of last does not matter once all its edges are relaxed. */
  lemma Whole(p: Problem, target: NodeID, s: Search, q: multiset<Item>, u: NodeID, w: NodeID)
    requires Partial(p, target, s, q, u, |p.g.Out(u)|) && w in s.dist
    ensures Partial(p, target, s, q, w, |p.g.Out(w)|)
  {
    assert p.g.Out(u)[..|p.g.Out(u)|] == p.g.Out(u) && p.g.Out(w)[..|p.g.Out(w)|] == p.g.Out(w);
  }

  /** An entry leaves the queue; if it was current, its node is about to be expanded. */
  lemma Popped(p: Problem, target: NodeID, s: Search, q: multiset<Item>, it: Item)
    requires Inv(p, target, s, q) && it in q && it.id != target
    ensures it.id in s.dist
    ensures it.cost > s.dist[it.id] ==> Inv(p, target, s, q - multiset{it})
    ensures it.cost <= s.dist[it.id] ==> Partial(p, target, s, q - multiset{it}, it.id, 0)
  {
    var q' := q - multiset{it};
    assert p.NotCheaper(s, it, it.id);
    forall v | v in s.dist && (v != it.id || it.cost > s.dist[it.id]) && Open(s, q, v) ensures Open(s, q', v) {
      assert Item(v, s.dist[v]) != it;
    }
    Whole(p, target, s, q, p.source, it.id);
    assert p.g.Out(it.id)[..|p.g.Out(it.id)|] == p.g.Out(it.id);
    forall x | x in q' ensures p.NotCheaper(s, x, x.id) {
      assert x in q;
    }
    if it.cost > s.dist[it.id] {
      forall v {:trigger p.g.Out(v)} | v in s.dist ensures Covered(p, s, q', v, p.g.Out(v)) {
        assert Covered(p, s, q, v, p.g.Out(v));
      }
      assert p.g.Out(p.source)[..|p.g.Out(p.source)|] == p.g.Out(p.source);
    } else {
      forall v {:trigger p.g.Out(v)} | v in s.dist && v != it.id ensures Covered(p, s, q', v, p.g.Out(v)) {
        assert Covered(p, s, q, v, p.g.Out(v));
      }
    }
  }

  lemma TurnKeeps(p: Problem, target: NodeID, l: Loop, l': Loop)
    requires p.g.Filed() && Inv(p, target, l.s, l.q) && Turn(p, target, l, l') && !l'.stopped
    ensures Inv(p, target, l'.s, l'.q)
  {
    var it :| Cheapest(l.q, it) && it.id in l.s.dist && l' == After(p, target, l, it);
    Popped(p, target, l.s, l.q, it);
    if it.cost <= l.s.dist[it.id] {
      var n := |p.g.Out(it.id)|;
      PartialAll(p, target, l.s, l.q - multiset{it}, it.id, n);
      assert p.g.Out(it.id)[..n] == p.g.Out(it.id);
      Whole(p, target, l'.s, l'.q, it.id, p.source);
    }
  }

  lemma StartsOk(p: Problem, target: NodeID)
    requires p.g.Filed()
    ensures Inv(p, target, Start(p).s, Start(p).q)
  {
    var s := Start(p).s;
    assert Realised(p, s, p.source) by {
      assert p.g.IsPath(p.source, [], p.source) && Total([], p.prop, p.default) == 0.0;
    }
  }

  lemma {:induction false} TraceKeeps(p: Problem, target: NodeID, ls: seq<Loop>, i: nat)
    requires p.g.Filed() && Trace(p, target, ls) && i < |ls| && !ls[i].stopped
    ensures Inv(p, target, ls[i].s, ls[i].q)
  {
    if i == 0 {
      StartsOk(p, target);
    } else {
      assert Turn(p, target, ls[i - 1], ls[i]);
      TraceKeeps(p, target, ls, i - 1);
      TurnKeeps(p, target, ls[i - 1], ls[i]);
    }
  }

  /** All edges relaxed: along a path distances grow by no more than its weight. */
  lemma {:induction false} AlongPath(p: Problem, target: NodeID, s: Search, v: NodeID, es: seq<Edge>, w: NodeID)
    requires Inv(p, target, s, multiset{}) && v in s.dist && p.g.IsPath(v, es, w)
    ensures w in s.dist && s.dist[w] <= s.dist[v] + Total(es, p.prop, p.default)
    decreases |es|
  {
    if es != [] {
      var e := es[|es| - 1];
      AlongPath(p, target, s, v, es[..|es| - 1], e.from);
      Whole(p, target, s, multiset{}, p.source, e.from);
      assert p.g.Out(e.from)[..|p.g.Out(e.from)|] == p.g.Out(e.from);
      assert p.RelaxedAt(s, e.from, e);
    }
  }

  /** A stop is at a real path to the target. */
  lemma StopIsReal(p: Problem, target: NodeID, ls: seq<Loop>)
    requires p.g.Filed() && Trace(p, target, ls) && ls[|ls| - 1].stopped
    ensures Realised(p, ls[|ls| - 1].s, target)
  {
    var n := |ls| - 1;
    assert n > 0 && Turn(p, target, ls[n - 1], ls[n]);
    TraceKeeps(p, target, ls, n - 1);
    assert ls[n].s == ls[n - 1].s && target in ls[n].s.dist;
    assert Realised(p, ls[n - 1].s, target);
  }

  /**
   Whatever the weights, if the loop ends it has stopped at the target exactly when the
   target is reachable, and then at a real path to it. If it ran out of entries instead,
   every reachable node has its least distance.
   */
  lemma EndsExactly(p: Problem, target: NodeID, ls: seq<Loop>)
    requires p.g.Filed() && Trace(p, target, ls) && Ended(ls[|ls| - 1])
    ensures ls[|ls| - 1].stopped <==> Reachable(p, target)
    ensures ls[|ls| - 1].stopped ==> Realised(p, ls[|ls| - 1].s, target)
    ensures !ls[|ls| - 1].stopped ==>
              forall v, es {:trigger p.g.IsPath(p.source, es, v)} :: p.g.IsPath(p.source, es, v) ==>
              Realised(p, ls[|ls| - 1].s, v) && ls[|ls| - 1].s.dist[v] <= Total(es, p.prop, p.default)
  {
    var l := ls[|ls| - 1];
    if l.stopped {
      StopIsReal(p, target, ls);
    } else {
      TraceKeeps(p, target, ls, |ls| - 1);
      forall v, es | p.g.IsPath(p.source, es, v)
        ensures Realised(p, l.s, v) && l.s.dist[v] <= Total(es, p.prop, p.default) && v != target
      {
        AlongPath(p, target, l.s, p.source, es, v);
        assert Realised(p, l.s, v);
        assert v == target ==> Open(l.s, l.q, target);
      }
    }
  }

  /** With a reachable cycle of negative weight and no path to the target the loop never ends. */
  lemma NegativeCycleNeverEnds(p: Problem, target: NodeID, ls: seq<Loop>, v: NodeID, cycle: seq<Edge>)
    requires p.g.Filed() && Trace(p, target, ls) && !Reachable(p, target)
    requires Reachable(p, v) && p.g.IsPath(v, cycle, v) && Total(cycle, p.prop, p.default) < 0.0
    ensures !Ended(ls[|ls| - 1])
  {
    var l := ls[|ls| - 1];
    if Ended(l) {
      EndsExactly(p, target, ls);
      TraceKeeps(p, target, ls, |ls| - 1);
      var es :| p.g.IsPath(p.source, es, v);
      AlongPath(p, target, l.s, p.source, es, v);
      AlongPath(p, target, l.s, v, cycle, v);
    }
  }

  // ---- a stop too early -----------------------------------------------------------------------

  function Weighs(id: EdgeID, from: NodeID, to: NodeID, w: real): Edge {
    Edge(id, from, to, [], map[[] := Num(Float64, w)])
  }

  const Direct: Edge := Weighs(1, 1, 3, 1.0)
  const There: Edge := Weighs(2, 1, 2, 2.0)
  const Onward: Edge := Weighs(3, 2, 3, -5.0)

  /** From 1 to 3 directly for 1, or by way of 2 for 2 - 5. */
  function Detour(): Problem {
    Problem(Graph({1, 2, 3}, map[1 := [Direct, There], 2 := [Onward]], map[]), 1, [], 0.0)
  }

  const OnceRelaxed: Search := Search(map[1 := 0.0, 3 := 1.0], map[3 := 1], map[3 := Direct])
  const TwiceRelaxed: Search := Search(map[1 := 0.0, 3 := 1.0, 2 := 2.0], map[3 := 1, 2 := 1],
      map[3 := Direct, 2 := There])

  lemma DetourGraph()
    ensures Detour().g.Filed() && Detour().g.Out(1) == [Direct, There]
    ensures Detour().W(Direct) == 1.0 && Detour().W(There) == 2.0
  {
  }

  lemma DetourDirect()
    ensures RelaxOne(Detour(), Start(Detour()).s, multiset{}, Direct) == (OnceRelaxed, multiset{Item(3, 1.0)})
  {
    DetourGraph();
    assert Improve(Detour(), Start(Detour()).s, Direct) == OnceRelaxed;
    assert RelaxOne(Detour(), Start(Detour()).s, multiset{}, Direct).1 == multiset{Item(3, 1.0)};
  }

  lemma DetourThere()
    ensures RelaxOne(Detour(), OnceRelaxed, multiset{Item(3, 1.0)}, There) ==
              (TwiceRelaxed, multiset{Item(3, 1.0), Item(2, 2.0)})
  {
    DetourGraph();
    assert Improve(Detour(), OnceRelaxed, There) == TwiceRelaxed;
    assert RelaxOne(Detour(), OnceRelaxed, multiset{Item(3, 1.0)}, There).1 == multiset{Item(3, 1.0), Item(2, 2.0)};
  }

  lemma DetourFirst()
    ensures Detour().g.Filed()
    ensures After(Detour(), 3, Start(Detour()), Item(1, 0.0)) ==
              Loop(TwiceRelaxed, multiset{Item(3, 1.0), Item(2, 2.0)}, false)
  {
    var p, s := Detour(), Start(Detour()).s;
    DetourGraph();
    DetourDirect();
    DetourThere();
    OutFrom(p.g, 1);
    RelaxPair(p, s, multiset{}, 1, Direct, There);
    assert multiset{Item(1, 0.0)} - multiset{Item(1, 0.0)} == multiset{};
  }

  lemma RelaxPair(p: Problem, s: Search, q: multiset<Item>, u: NodeID, a: Edge, b: Edge)
    requires u in s.dist && a.from == u && b.from == u
    ensures var r := RelaxOne(p, s, q, a); RelaxList(p, s, q, u, [a, b]) == RelaxOne(p, r.0, r.1, b)
  {
    assert [a, b][..1] == [a] && [a][..0] == [];
    assert RelaxList(p, s, q, u, []) == (s, q);
    assert RelaxList(p, s, q, u, [a]) == RelaxOne(p, s, q, a);
  }

  /** The loop stops at the direct edge, of weight 1, though a path of weight -3 exists. */
  lemma StopsTooEarly() returns (ls: seq<Loop>)
    ensures Detour().g.Filed() && Trace(Detour(), 3, ls) && Ended(ls[|ls| - 1])
    ensures ls[|ls| - 1].s == TwiceRelaxed && TwiceRelaxed.dist[3] == 1.0 && TwiceRelaxed.prevEdge[3] == Direct
    ensures Detour().g.IsPath(1, [There, Onward], 3) && Total([There, Onward], [], 0.0) == -3.0
  {
    var p := Detour();
    DetourFirst();
    var l0 := Start(p);
    var l1 := After(p, 3, l0, Item(1, 0.0));
    var l2 := After(p, 3, l1, Item(3, 1.0));
    TraceExtends(p, 3, [l0], Item(1, 0.0), l1);
    TraceExtends(p, 3, [l0] + [l1], Item(3, 1.0), l2);
    ls := [l0] + [l1] + [l2];
    DetourPath();
  }

  lemma DetourPath()
    ensures Detour().g.IsPath(1, [There, Onward], 3) && Total([There, Onward], [], 0.0) == -3.0
  {
    assert [There, Onward][..1] == [There] && [There][..0] == [];
    assert Detour().g.IsPath(1, [There], 2);
    assert Total([There], [], 0.0) == 2.0;
  }
}
