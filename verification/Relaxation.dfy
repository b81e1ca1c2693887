/**
 The search of ShortestPathWeighted as a state machine, for weights of any sign: distances,
 predecessors and a queue, changed edge by edge and turn by turn.
 */
module Relaxation {
  import opened Types
  import opened Graph

  /** The weight of an edge: a float64, int or int64 property, otherwise the default. */
  function Weight(e: Edge, prop: Str, default: real): real {
    if prop in e.props && e.props[prop].Num? &&
       (e.props[prop].kind == Float64 || e.props[prop].kind == Int || e.props[prop].kind == Int64)
    then e.props[prop].num
    else default
  }

  ghost predicate NonNegative(g: Graph, prop: Str, default: real) {
    forall id, e {:trigger e in g.Out(id)} :: e in g.Out(id) ==> Weight(e, prop, default) >= 0.0
  }

  ghost function Total(p: seq<Edge>, prop: Str, default: real): real {
    if p == [] then 0.0 else Total(p[..|p| - 1], prop, default) + Weight(p[|p| - 1], prop, default)
  }

  /** An edge counts with its stored number if that is a float64, int or int64, and with the default otherwise. */
  ghost predicate CountsAs(e: Edge, prop: Str, default: real, w: real) {
    if prop !in e.props then w == default
    else
      match e.props[prop]
      case Num(Float64, x) => w == x
      case Num(Int, x) => w == x
      case Num(Int64, x) => w == x
      case Num(Float32, _) => w == default
      case Num(Int32, _) => w == default
      case Num(Uint64, _) => w == default
      case Nil => w == default
      case Text(_) => w == default
      case Bool(_) => w == default
      case Other(_) => w == default
  }

  /** `ws` are the numbers the edges of `p` count with. */
  ghost predicate Weighed(p: seq<Edge>, prop: Str, default: real, ws: seq<real>) {
    |ws| == |p| && forall i :: 0 <= i < |p| ==> CountsAs(p[i], prop, default, ws[i])
  }

  ghost function Sum(ws: seq<real>): real {
    if ws == [] then 0.0 else ws[0] + Sum(ws[1..])
  }

  lemma {:induction false} SumLast(ws: seq<real>, w: real)
    ensures Sum(ws + [w]) == Sum(ws) + w
  {
    if ws != [] {
      SumLast(ws[1..], w);
      assert (ws + [w])[1..] == ws[1..] + [w];
    }
  }

  /** The total of a path is the sum of those numbers, which are determined by the path. */
  lemma {:induction false} TotalIsSum(p: seq<Edge>, prop: Str, default: real, ws: seq<real>)
    requires Weighed(p, prop, default, ws)
    ensures Total(p, prop, default) == Sum(ws)
  {
    if p != [] {
      var n := |p| - 1;
      assert ws == ws[..n] + [ws[n]];
      TotalIsSum(p[..n], prop, default, ws[..n]);
      SumLast(ws[..n], ws[n]);
    }
  }

  /** Every float64, int and int64 stored under the property is non-negative, and so is the default. */
  ghost predicate NothingNegative(g: Graph, prop: Str, default: real) {
    default >= 0.0 && forall id, e, w {:trigger e in g.Out(id), CountsAs(e, prop, default, w)} ::
      e in g.Out(id) && CountsAs(e, prop, default, w) ==> w >= 0.0
  }

  lemma NothingNegativeCounts(g: Graph, prop: Str, default: real)
    requires NothingNegative(g, prop, default)
    ensures NonNegative(g, prop, default)
  {
    forall id, e | e in g.Out(id) ensures Weight(e, prop, default) >= 0.0 {
      assert CountsAs(e, prop, default, Weight(e, prop, default));
    }
  }

  datatype Item = Item(id: NodeID, cost: real)

  function Cheaper(a: Item, b: Item): bool {
    a.cost < b.cost
  }

  /** The maps the search updates. */
  datatype Search = Search(dist: map<NodeID, real>, prev: map<NodeID, NodeID>, prevEdge: map<NodeID, Edge>)

  datatype Problem = Problem(g: Graph, source: NodeID, prop: Str, default: real) {
    function W(e: Edge): real {
      Weight(e, prop, default)
    }

    ghost predicate Valid() {
      g.Filed() && NonNegative(g, prop, default)
    }

    /** `dist` is the weight of a real path whose last step is what `prev` and `prevEdge` record. */
    ghost predicate Witnessed(s: Search, paths: map<NodeID, seq<Edge>>, done: set<NodeID>) {
      && source in s.dist && s.dist[source] == 0.0
      && source in paths && paths[source] == []
      && forall v {:trigger Known(s, paths, done, v)} :: v in s.dist ==> Known(s, paths, done, v)
    }

    ghost predicate Known(s: Search, paths: map<NodeID, seq<Edge>>, done: set<NodeID>, v: NodeID)
      requires v in s.dist
    {
      && v in paths && g.IsPath(source, paths[v], v) && Total(paths[v], prop, default) == s.dist[v]
      && (v != source ==>
            && v in s.prev && v in s.prevEdge
            && s.prevEdge[v].to == v && s.prev[v] == s.prevEdge[v].from
            && s.prev[v] in done && s.prev[v] in s.dist && s.prev[v] in paths
            && paths[v] == paths[s.prev[v]] + [s.prevEdge[v]])
    }

    ghost predicate NotFarther(s: Search, u: NodeID, v: NodeID) {
      u in s.dist && v in s.dist && s.dist[u] <= s.dist[v]
    }

    /** Expanded nodes are no farther than open ones. */
    ghost predicate Settled(s: Search, done: set<NodeID>) {
      && done <= s.dist.Keys
      && forall u, v {:trigger NotFarther(s, u, v)} :: u in done && v in s.dist && v !in done ==> NotFarther(s, u, v)
    }

    /** `u` is the farthest expanded node. */
    ghost predicate Latest(s: Search, done: set<NodeID>, u: NodeID) {
      u in done && forall v {:trigger NotFarther(s, v, u)} :: v in done ==> NotFarther(s, v, u)
    }

    ghost predicate RelaxedAt(s: Search, u: NodeID, e: Edge) {
      u in s.dist && e.to in s.dist && s.dist[e.to] <= s.dist[u] + W(e)
    }

    ghost predicate Relaxed(s: Search, done: set<NodeID>) {
      forall u, e {:trigger RelaxedAt(s, u, e)} :: u in done && e in g.Out(u) ==> RelaxedAt(s, u, e)
    }

    ghost predicate Live(s: Search, done: set<NodeID>, q: multiset<Item>, v: NodeID) {
      v in s.dist && q[Item(v, s.dist[v])] == if v in done then 0 else 1
    }

    ghost predicate NotCheaper(s: Search, it: Item, u: NodeID) {
      u in s.dist && s.dist[u] <= it.cost
    }

    /** The queue holds one live entry per open node and none for an expanded one; no entry is too cheap. */
    ghost predicate Queued(s: Search, done: set<NodeID>, q: multiset<Item>) {
      && (forall v {:trigger Live(s, done, q, v)} :: v in s.dist ==> Live(s, done, q, v))
      && (forall it {:trigger NotCheaper(s, it, it.id)} :: it in q ==> NotCheaper(s, it, it.id))
      && (forall it, u {:trigger NotCheaper(s, it, u)} :: it in q && u in done ==> NotCheaper(s, it, u))
    }
  }

  function Improve(p: Problem, s: Search, e: Edge): Search
    requires e.from in s.dist
  {
    Search(s.dist[e.to := s.dist[e.from] + p.W(e)], s.prev[e.to := e.from], s.prevEdge[e.to := e])
  }

  // ---- the turns of the main loop ---------------------------------------

  /** One edge of the inner loop. */
  ghost function RelaxOne(p: Problem, s: Search, q: multiset<Item>, e: Edge): (r: (Search, multiset<Item>))
    requires e.from in s.dist
    ensures s.dist.Keys <= r.0.dist.Keys
  {
    var cost := s.dist[e.from] + p.W(e);
    if e.to !in s.dist || cost < s.dist[e.to] then (Improve(p, s, e), q + multiset{Item(e.to, cost)}) else (s, q)
  }

  ghost function RelaxList(p: Problem, s: Search, q: multiset<Item>, u: NodeID,
      edges: seq<Edge>): (r: (Search, multiset<Item>))
    requires u in s.dist && forall e :: e in edges ==> e.from == u
    ensures s.dist.Keys <= r.0.dist.Keys
    decreases |edges|
  {
    if edges == [] then (s, q)
    else
      var n := |edges| - 1;
      var (s1, q1) := RelaxList(p, s, q, u, edges[..n]);
      RelaxOne(p, s1, q1, edges[n])
  }

  /** The first `i` edges have been relaxed. */
  ghost predicate Progress(p: Problem, s0: Search, q0: multiset<Item>, u: NodeID, i: nat, s: Search, q: multiset<Item>)
    requires p.g.Filed()
  {
    OutFrom(p.g, u);
    u in s0.dist && i <= |p.g.Out(u)| && (s, q) == RelaxList(p, s0, q0, u, p.g.Out(u)[..i])
  }

  lemma ProgressNext(p: Problem, s0: Search, q0: multiset<Item>, u: NodeID, i: nat, s: Search, q: multiset<Item>)
    requires p.g.Filed() && i < |p.g.Out(u)| && Progress(p, s0, q0, u, i, s, q)
    ensures p.g.Out(u)[i].from == u && u in s.dist
    ensures var r := RelaxOne(p, s, q, p.g.Out(u)[i]); Progress(p, s0, q0, u, i + 1, r.0, r.1)
  {
    OutFrom(p.g, u);
    assert p.g.Out(u)[..i + 1][..i] == p.g.Out(u)[..i];
  }

  datatype Loop = Loop(s: Search, q: multiset<Item>, stopped: bool)

  ghost function Start(p: Problem): Loop {
    Loop(Search(map[p.source := 0.0], map[], map[]), multiset{Item(p.source, 0.0)}, false)
  }

  ghost function After(p: Problem, target: NodeID, l: Loop, it: Item): Loop
    requires p.g.Filed() && it.id in l.s.dist
  {
    var q := l.q - multiset{it};
    if it.id == target then Loop(l.s, q, true)
    else if it.cost > l.s.dist[it.id] then Loop(l.s, q, false)
    else
      OutFrom(p.g, it.id);
      var (s', q') := RelaxList(p, l.s, q, it.id, p.g.Out(it.id));
      Loop(s', q', false)
  }

  ghost predicate Cheapest(q: multiset<Item>, it: Item) {
    it in q && forall x :: x in q ==> it.cost <= x.cost
  }

  /** One turn: some cheapest entry is popped. */
  ghost predicate Turn(p: Problem, target: NodeID, l: Loop, l': Loop)
    requires p.g.Filed()
  {
    !l.stopped && exists it :: Cheapest(l.q, it) && it.id in l.s.dist && l' == After(p, target, l, it)
  }

  ghost predicate Trace(p: Problem, target: NodeID, ls: seq<Loop>)
    requires p.g.Filed()
  {
    |ls| > 0 && ls[0] == Start(p) && forall i {:trigger ls[i]} :: 0 < i < |ls| ==> Turn(p, target, ls[i - 1], ls[i])
  }

  /** The loop turn by turn with the entry each turn pops. */
  ghost predicate Pops(p: Problem, target: NodeID, ls: seq<Loop>, its: seq<Item>)
    requires p.g.Filed()
  {
    && |ls| == |its| + 1 && ls[0] == Start(p)
    && forall i {:trigger its[i]} :: 0 <= i < |its| ==> PopsAt(p, target, ls[i], its[i], ls[i + 1])
  }

  ghost predicate PopsAt(p: Problem, target: NodeID, l: Loop, it: Item, l': Loop)
    requires p.g.Filed()
  {
    !l.stopped && Cheapest(l.q, it) && it.id in l.s.dist && l' == After(p, target, l, it)
  }

  lemma PopsTrace(p: Problem, target: NodeID, ls: seq<Loop>, its: seq<Item>)
    requires p.g.Filed() && Pops(p, target, ls, its)
    ensures Trace(p, target, ls)
  {
    forall i {:trigger ls[i]} | 0 < i < |ls| ensures Turn(p, target, ls[i - 1], ls[i]) {
      assert PopsAt(p, target, ls[i - 1], its[i - 1], ls[i]);
    }
  }

  lemma PopsExtend(p: Problem, target: NodeID, ls: seq<Loop>, its: seq<Item>, it: Item, l: Loop)
    requires p.g.Filed() && Pops(p, target, ls, its) && PopsAt(p, target, ls[|ls| - 1], it, l)
    ensures Pops(p, target, ls + [l], its + [it])
  {
    var ls', its' := ls + [l], its + [it];
    forall i {:trigger its'[i]} | 0 <= i < |its'| ensures PopsAt(p, target, ls'[i], its'[i], ls'[i + 1]) {
      if i < |its| {
        assert its'[i] == its[i] && ls'[i] == ls[i] && ls'[i + 1] == ls[i + 1];
      }
    }
  }

  /** Turn `i` reads the edges of the node it pops: neither the target nor a superseded entry. */
  ghost predicate Expands(target: NodeID, ls: seq<Loop>, its: seq<Item>, i: nat) {
    && i < |its| && i < |ls| && its[i].id != target && its[i].id in ls[i].s.dist
    && its[i].cost <= ls[i].s.dist[its[i].id]
  }

  /** The nodes whose edges the first `n` turns read, in order. */
  ghost function Expansions(target: NodeID, ls: seq<Loop>, its: seq<Item>, n: nat): seq<NodeID>
    requires n <= |its|
  {
    if n == 0 then []
    else Expansions(target, ls, its, n - 1) + if Expands(target, ls, its, n - 1) then [its[n - 1].id] else []
  }

  lemma {:induction false} ExpansionsAre(target: NodeID, ls: seq<Loop>, its: seq<Item>, n: nat, v: NodeID)
    requires n <= |its|
    ensures v in Expansions(target, ls, its, n) <==>
              exists i: nat {:trigger Expands(target, ls, its, i)} :: i < n && Expands(target, ls, its, i) &&
                  its[i].id == v
  {
    if n > 0 {
      ExpansionsAre(target, ls, its, n - 1, v);
    }
  }

  ghost predicate Ended(l: Loop) {
    l.stopped || l.q == multiset{}
  }

  lemma TraceExtends(p: Problem, target: NodeID, ls: seq<Loop>, it: Item, l: Loop)
    requires p.g.Filed() && Trace(p, target, ls) && !ls[|ls| - 1].stopped
    requires Cheapest(ls[|ls| - 1].q, it) && it.id in ls[|ls| - 1].s.dist && l == After(p, target, ls[|ls| - 1], it)
    ensures Trace(p, target, ls + [l])
  {
    assert Turn(p, target, ls[|ls| - 1], l);
  }

  lemma OutFrom(g: Graph, u: NodeID)
    requires g.Filed()
    ensures forall e :: e in g.Out(u) ==> e.from == u && e.to in g.Heads()
  {
    forall e | e in g.Out(u) ensures e.from == u && e.to in g.Heads() {
      assert u in g.out && e in g.out[u];
    }
  }

  ghost predicate Reachable(p: Problem, v: NodeID) {
    exists es :: p.g.IsPath(p.source, es, v)
  }
}
