/**
 TopologicalSort: Kahn's algorithm. In-degrees count parallel edges, and the
 initial queue comes from a map range, so it may be in any order.
 */
module TopologicalSort {
  import opened Types
  import opened Graph

  /** A cycle through a stored node. */
  ghost predicate HasCycle(g: Graph) {
    exists v, p :: v in g.nodes && p != [] && g.IsPath(v, p, v)
  }

  ghost function HeadSet(g: Graph, s: set<NodeID>): set<NodeID> {
    set u, e | u in s && e in g.Out(u) :: e.to
  }

  /** What is sorted: the stored nodes and whatever their edges lead to, stored or not. */
  ghost function World(g: Graph): set<NodeID> {
    g.nodes + HeadSet(g, g.nodes)
  }

  /** Missing nodes that edges lead to have no edges of their own. */
  ghost predicate Closed(g: Graph) {
    forall v {:trigger g.Out(v)} :: v in World(g) && v !in g.nodes ==> g.Out(v) == []
  }

  lemma NoDanglingIsClosed(g: Graph)
    requires g.NoDangling()
    ensures Closed(g) && World(g) == g.nodes
  {
    forall u, e | u in g.nodes && e in g.Out(u) ensures e.to in g.nodes {
      assert u in g.out && e in g.out[u];
    }
  }

  /** The heads of an edge list, with multiplicity. */
  ghost function HeadBag(edges: seq<Edge>): multiset<NodeID> {
    if edges == [] then multiset{} else multiset{edges[0].to} + HeadBag(edges[1..])
  }

  lemma {:induction false} HeadBagSplits(a: seq<Edge>, b: seq<Edge>)
    ensures HeadBag(a + b) == HeadBag(a) + HeadBag(b)
  {
    if a == [] {
      assert a + b == b;
    } else {
      assert (a + b)[1..] == a[1..] + b;
      HeadBagSplits(a[1..], b);
    }
  }

  lemma {:induction false} HeadBagMembers(edges: seq<Edge>, v: NodeID)
    ensures v in HeadBag(edges) <==> exists e :: e in edges && e.to == v
  {
    if edges != [] {
      HeadBagMembers(edges[1..], v);
      assert edges == [edges[0]] + edges[1..];
      if exists e :: e in edges && e.to == v {
        var e :| e in edges && e.to == v;
        assert e == edges[0] || e in edges[1..];
      }
    }
  }

  /** All edge heads out of the nodes of `s`: what the in-degrees still count while `s` is unsorted. */
  ghost function Pending(g: Graph, s: set<NodeID>): multiset<NodeID> {
    if s == {} then multiset{} else
      var u :| u in s;
      HeadBag(g.Out(u)) + Pending(g, s - {u})
  }

  lemma {:induction false} PendingWithout(g: Graph, s: set<NodeID>, v: NodeID)
    requires v in s
    ensures Pending(g, s) == HeadBag(g.Out(v)) + Pending(g, s - {v})
    decreases s
  {
    var u :| u in s && Pending(g, s) == HeadBag(g.Out(u)) + Pending(g, s - {u});
    if u != v {
      PendingWithout(g, s - {u}, v);
      PendingWithout(g, s - {v}, u);
      assert s - {u} - {v} == s - {v} - {u};
    }
  }

  lemma {:induction false} PendingMembers(g: Graph, s: set<NodeID>, v: NodeID)
    ensures v in Pending(g, s) <==> exists u, e :: u in s && e in g.Out(u) && e.to == v
    decreases s
  {
    if s != {} {
      var u :| u in s && Pending(g, s) == HeadBag(g.Out(u)) + Pending(g, s - {u});
      HeadBagMembers(g.Out(u), v);
      PendingMembers(g, s - {u}, v);
      if exists w, e :: w in s && e in g.Out(w) && e.to == v {
        var w, e :| w in s && e in g.Out(w) && e.to == v;
        assert w == u || w in s - {u};
      }
    }
  }

  ghost predicate OnlyOnce(s: seq<NodeID>) {
    forall i, j :: 0 <= i < j < |s| ==> s[i] != s[j]
  }

  ghost function Elems(s: seq<NodeID>): set<NodeID> {
    set x | x in s
  }

  /** Every stored node's edge into position `j` comes from an earlier position. */
  ghost predicate SourcesBefore(g: Graph, sorted: seq<NodeID>, j: nat)
    requires j < |sorted|
  {
    forall u, e {:trigger e in g.Out(u)} :: u in g.nodes && e in g.Out(u) && e.to == sorted[j] ==> u in sorted[..j]
  }

  ghost predicate Topological(g: Graph, sorted: seq<NodeID>) {
    forall j {:trigger SourcesBefore(g, sorted, j)} :: 0 <= j < |sorted| ==> SourcesBefore(g, sorted, j)
  }

  /** A Go map read: zero when absent. */
  function Count(m: map<NodeID, int>, v: NodeID): int {
    if v in m then m[v] else 0
  }

  /** The in-degree map counts exactly `bag`. */
  ghost predicate Counts(m: map<NodeID, int>, bag: multiset<NodeID>) {
    forall v {:trigger Count(m, v)} :: Count(m, v) == bag[v]
  }

  lemma Bumped(m: map<NodeID, int>, bag: multiset<NodeID>, x: NodeID)
    requires Counts(m, bag)
    ensures Counts(m[x := Count(m, x) + 1], bag + multiset{x})
  {
    forall v: NodeID ensures Count(m[x := Count(m, x) + 1], v) == (bag + multiset{x})[v] {
      assert Count(m, v) == bag[v];
    }
  }

  lemma Dropped(m: map<NodeID, int>, bag: multiset<NodeID>, x: NodeID)
    requires Counts(m, bag + multiset{x})
    ensures Counts(m[x := Count(m, x) - 1], bag)
  {
    forall v: NodeID ensures Count(m[x := Count(m, x) - 1], v) == bag[v] {
      assert Count(m, v) == (bag + multiset{x})[v];
    }
  }

  lemma Associate(a: multiset<NodeID>, b: multiset<NodeID>, c: multiset<NodeID>)
    ensures a + (b + c) == a + b + c
  {
  }

  lemma HeadBagNext(bag: multiset<NodeID>, edges: seq<Edge>, i: nat)
    requires i < |edges|
    ensures bag + HeadBag(edges[..i + 1]) == bag + HeadBag(edges[..i]) + multiset{edges[i].to}
    ensures bag + HeadBag(edges[i..]) == bag + HeadBag(edges[i + 1..]) + multiset{edges[i].to}
  {
    assert edges[..i + 1] == edges[..i] + [edges[i]];
    HeadBagSplits(edges[..i], [edges[i]]);
    assert edges[i..][1..] == edges[i + 1..];
    Associate(bag, HeadBag(edges[..i]), multiset{edges[i].to});
    Associate(bag, HeadBag(edges[i + 1..]), multiset{edges[i].to});
  }

  ghost function Tos(edges: seq<Edge>): set<NodeID> {
    set e | e in edges :: e.to
  }

  lemma TosNext(all: set<NodeID>, edges: seq<Edge>, i: nat)
    requires i < |edges|
    ensures all + Tos(edges[..i + 1]) == all + Tos(edges[..i]) + {edges[i].to}
  {
    assert edges[..i + 1] == edges[..i] + [edges[i]];
  }

  /** What has been met when `rest` is still to be scanned. */
  ghost function Scanned(g: Graph, rest: set<NodeID>): set<NodeID> {
    (g.nodes - rest) + HeadSet(g, g.nodes - rest)
  }

  lemma HeadSetNext(g: Graph, s: set<NodeID>, id: NodeID)
    ensures HeadSet(g, s + {id}) == HeadSet(g, s) + Tos(g.Out(id))
  {
  }

  lemma ScannedNext(g: Graph, rest: set<NodeID>, id: NodeID)
    requires id in rest && rest <= g.nodes
    ensures Scanned(g, rest - {id}) == Scanned(g, rest) + {id} + Tos(g.Out(id))
  {
    HeadSetNext(g, g.nodes - rest, id);
    assert g.nodes - (rest - {id}) == (g.nodes - rest) + {id};
  }

  lemma PendingMoves(g: Graph, bag: multiset<NodeID>, rest: set<NodeID>, id: NodeID)
    requires id in rest
    ensures bag + Pending(g, rest) == bag + HeadBag(g.Out(id)) + Pending(g, rest - {id})
  {
    PendingWithout(g, rest, id);
    Associate(bag, HeadBag(g.Out(id)), Pending(g, rest - {id}));
  }

  /** inDegree and allNodes after some edges have been counted. */
  ghost predicate Tallied(m: map<NodeID, int>, all: set<NodeID>, bag: multiset<NodeID>) {
    m.Keys == all && Counts(m, bag)
  }

  lemma TallyNode(m: map<NodeID, int>, all: set<NodeID>, bag: multiset<NodeID>, id: NodeID)
    requires Tallied(m, all, bag)
    ensures Tallied(if id in m then m else m[id := 0], all + {id}, bag)
  {
    forall v: NodeID | id !in m ensures Count(m[id := 0], v) == bag[v] {
      assert Count(m, v) == bag[v];
    }
  }

  lemma TallyHead(m: map<NodeID, int>, all: set<NodeID>, bag: multiset<NodeID>, v: NodeID)
    requires Tallied(m, all, bag)
    ensures Tallied(m[v := Count(m, v) + 1], all + {v}, bag + multiset{v})
  {
    Bumped(m, bag, v);
  }

  method CountEdges(g: Graph, id: NodeID, m0: map<NodeID, int>, all0: set<NodeID>, ghost bag: multiset<NodeID>)
    returns (m: map<NodeID, int>, all: set<NodeID>)
    requires Tallied(m0, all0, bag)
    ensures Tallied(m, all, bag + HeadBag(g.Out(id))) && all == all0 + Tos(g.Out(id))
  {
    m, all := m0, all0;
    var edges := g.EdgesOf(id, Outgoing);
    assert bag + HeadBag([]) == bag && all0 + Tos([]) == all0;
    for i := 0 to |edges|
      invariant Tallied(m, all, bag + HeadBag(edges[..i])) && all == all0 + Tos(edges[..i])
    {
      var e := edges[i];
      TallyHead(m, all, bag + HeadBag(edges[..i]), e.to);
      HeadBagNext(bag, edges, i);
      TosNext(all0, edges, i);
      m := m[e.to := Count(m, e.to) + 1];
      all := all + {e.to};
    }
    assert edges[..|edges|] == edges == g.Out(id);
  }

  /** One node's turn. */
  method CountNode(g: Graph, id: NodeID, m0: map<NodeID, int>, all0: set<NodeID>, ghost bag: multiset<NodeID>)
    returns (m: map<NodeID, int>, all: set<NodeID>)
    requires Tallied(m0, all0, bag)
    ensures Tallied(m, all, bag + HeadBag(g.Out(id))) && all == all0 + {id} + Tos(g.Out(id))
  {
    m, all := m0, all0 + {id};
    TallyNode(m0, all0, bag, id);
    if id !in m {
      m := m[id := 0];
    }
    m, all := CountEdges(g, id, m, all, bag);
  }

  /** Count the incoming edges of every node, visiting nodes in any order. */
  method CountInDegrees(g: Graph) returns (m: map<NodeID, int>, all: set<NodeID>)
    ensures m.Keys == all == World(g) && Counts(m, Pending(g, g.nodes))
  {
    m, all := map[], {};
    var rest := g.nodes;
    ghost var bag: multiset<NodeID> := multiset{};
    while rest != {}
      invariant rest <= g.nodes && all == Scanned(g, rest)
      invariant Tallied(m, all, bag) && Pending(g, g.nodes) == bag + Pending(g, rest)
      decreases rest
    {
      var id :| id in rest;
      PendingMoves(g, bag, rest, id);
      ScannedNext(g, rest, id);
      rest := rest - {id};
      m, all := CountNode(g, id, m, all, bag);
      bag := bag + HeadBag(g.Out(id));
    }
    assert g.nodes - rest == g.nodes;
    assert Pending(g, rest) == multiset{} && bag + multiset{} == bag;
  }

  /** The nodes with no incoming edge, in the order the map yields them. */
  method InitialQueue(all: set<NodeID>, m: map<NodeID, int>) returns (queue: seq<NodeID>)
    ensures OnlyOnce(queue) && Elems(queue) == set v | v in all && Count(m, v) == 0
  {
    queue := [];
    var rest := all;
    while rest != {}
      invariant rest <= all && OnlyOnce(queue)
      invariant forall v :: v in queue <==> v in all && v !in rest && Count(m, v) == 0
      decreases rest
    {
      var id :| id in rest;
      if Count(m, id) == 0 {
        queue := queue + [id];
      }
      rest := rest - {id};
    }
  }

  /** Each sorted or queued node stands once and has no count left, and so has whatever was never counted. */
  ghost predicate Queueing(g: Graph, sorted: seq<NodeID>, queue: seq<NodeID>, m: map<NodeID, int>) {
    && OnlyOnce(sorted + queue) && Elems(sorted + queue) <= World(g)
    && forall v {:trigger Count(m, v)} :: v in sorted + queue || v !in World(g) ==> Count(m, v) <= 0
  }

  /** `sorted` and `queue` hold exactly the nodes with no unsorted predecessor, and every edge so far points forward. */
  ghost predicate Kahn(g: Graph, sorted: seq<NodeID>, queue: seq<NodeID>, bag: multiset<NodeID>) {
    && (forall v {:trigger v in sorted + queue} :: v in World(g) ==> (v in sorted + queue <==> bag[v] == 0))
    && Topological(g, sorted)
  }

  lemma {:induction false} PendingOfStored(g: Graph, s: set<NodeID>)
    requires Closed(g) && g.nodes <= s <= World(g)
    ensures Pending(g, s) == Pending(g, g.nodes)
    decreases s
  {
    if s != g.nodes {
      var v :| v in s && v !in g.nodes;
      assert g.Out(v) == [];
      PendingWithout(g, s, v);
      PendingOfStored(g, s - {v});
    }
  }

  lemma QueueingStarts(g: Graph, queue: seq<NodeID>, m: map<NodeID, int>)
    requires m.Keys == World(g) && OnlyOnce(queue) && Elems(queue) == set v | v in World(g) && Count(m, v) == 0
    ensures Queueing(g, [], queue, m)
  {
    assert [] + queue == queue;
    forall v: NodeID | v in queue || v !in World(g) ensures Count(m, v) <= 0 {
      assert v in queue ==> v in Elems(queue);
    }
  }

  lemma KahnStarts(g: Graph, queue: seq<NodeID>, m: map<NodeID, int>)
    requires Closed(g) && Counts(m, Pending(g, g.nodes))
    requires Elems(queue) == set v | v in World(g) && Count(m, v) == 0
    ensures Kahn(g, [], queue, Pending(g, World(g))) && Counts(m, Pending(g, World(g)))
  {
    PendingOfStored(g, World(g));
    assert [] + queue == queue;
    forall v | v in World(g) ensures v in queue <==> Pending(g, g.nodes)[v] == 0 {
      assert Count(m, v) == Pending(g, g.nodes)[v];
      assert v in queue <==> v in Elems(queue);
    }
  }

  /** Moving the front of the queue to the sorted list. */
  lemma TakeFront(g: Graph, sorted: seq<NodeID>, queue: seq<NodeID>, m: map<NodeID, int>)
    requires queue != [] && Queueing(g, sorted, queue, m)
    ensures queue[0] in World(g) - Elems(sorted)
    ensures Queueing(g, sorted + [queue[0]], queue[1..], m)
    ensures World(g) - Elems(sorted + [queue[0]]) == World(g) - Elems(sorted) - {queue[0]}
  {
    var v := queue[0];
    assert sorted + [v] + queue[1..] == sorted + queue;
    assert (sorted + queue)[|sorted|] == v;
    assert v in sorted + queue && v in Elems(sorted + queue);
    forall i | 0 <= i < |sorted| ensures sorted[i] != v {
      assert (sorted + queue)[i] == sorted[i];
    }
  }

  /** It keeps the order topological. */
  lemma FrontIsNext(g: Graph, sorted: seq<NodeID>, queue: seq<NodeID>)
    requires queue != [] && queue[0] in World(g) && Kahn(g, sorted, queue, Pending(g, World(g) - Elems(sorted)))
    ensures Kahn(g, sorted + [queue[0]], queue[1..], Pending(g, World(g) - Elems(sorted)))
  {
    var v := queue[0];
    var open := World(g) - Elems(sorted);
    var sorted' := sorted + [v];
    assert sorted' + queue[1..] == sorted + queue;
    assert (sorted + queue)[|sorted|] == v && v in sorted + queue;
    assert Pending(g, open)[v] == 0;
    forall u, e | u in g.nodes && e in g.Out(u) && e.to == v ensures u in sorted {
      PendingMembers(g, open, v);
      assert u in open || u in Elems(sorted);
    }
    forall j | 0 <= j < |sorted'| ensures SourcesBefore(g, sorted', j) {
      if j < |sorted| {
        assert SourcesBefore(g, sorted, j);
        assert sorted'[..j] == sorted[..j];
      } else {
        assert sorted'[..j] == sorted;
      }
    }
  }

  /** Between two decrements. */
  ghost predicate Stage(g: Graph, sorted: seq<NodeID>, queue: seq<NodeID>, m: map<NodeID, int>, bag: multiset<NodeID>) {
    Queueing(g, sorted, queue, m) && (Closed(g) ==> Kahn(g, sorted, queue, bag) && Counts(m, bag))
  }

  lemma ReleaseNext(g: Graph, sorted: seq<NodeID>, queue: seq<NodeID>, m: map<NodeID, int>, bag: multiset<NodeID>,
      v: NodeID)
    requires Stage(g, sorted, queue, m, bag + multiset{v}) && (Closed(g) ==> v in World(g))
    ensures Stage(g, sorted, if Count(m, v) == 1 then queue + [v] else queue, m[v := Count(m, v) - 1], bag)
  {
    QueueOne(g, sorted, queue, m, v);
    if Closed(g) {
      Dropped(m, bag, v);
      assert Count(m[v := Count(m, v) - 1], v) == bag[v];
      ReleaseOne(g, sorted, queue, bag, v);
    }
  }

  lemma FrontStage(g: Graph, sorted: seq<NodeID>, queue: seq<NodeID>, m: map<NodeID, int>)
    requires queue != [] && Stage(g, sorted, queue, m, Pending(g, World(g) - Elems(sorted)))
    ensures queue[0] in World(g) && World(g) - Elems(sorted + [queue[0]]) < World(g) - Elems(sorted)
    ensures Stage(g, sorted + [queue[0]], queue[1..], m,
                  Pending(g, World(g) - Elems(sorted + [queue[0]])) + HeadBag(g.Out(queue[0])))
  {
    var id, open := queue[0], World(g) - Elems(sorted);
    TakeFront(g, sorted, queue, m);
    PendingWithout(g, open, id);
    assert HeadBag(g.Out(id)) + Pending(g, open - {id}) == Pending(g, open - {id}) + HeadBag(g.Out(id));
    if Closed(g) {
      FrontIsNext(g, sorted, queue);
    }
  }

  /** Decrementing the heads of the node just sorted, queueing those that reach zero. */
  method ReleaseHeads(g: Graph, id: NodeID, sorted: seq<NodeID>, queue0: seq<NodeID>, m0: map<NodeID, int>,
      ghost rest: multiset<NodeID>)
    returns (queue: seq<NodeID>, m: map<NodeID, int>)
    requires id in World(g) && Stage(g, sorted, queue0, m0, rest + HeadBag(g.Out(id)))
    ensures Stage(g, sorted, queue, m, rest)
  {
    queue, m := queue0, m0;
    var edges := g.EdgesOf(id, Outgoing);
    assert edges[0..] == edges == g.Out(id);
    for i := 0 to |edges|
      invariant Stage(g, sorted, queue, m, rest + HeadBag(edges[i..]))
    {
      var e := edges[i];
      ghost var bag := rest + HeadBag(edges[i + 1..]);
      HeadBagNext(rest, edges, i);
      HeadIsWorld(g, id, e);
      ReleaseNext(g, sorted, queue, m, bag, e.to);
      m := m[e.to := Count(m, e.to) - 1];
      if m[e.to] == 0 {
        queue := queue + [e.to];
      }
    }
    assert HeadBag(edges[|edges|..]) == multiset{};
    assert rest + multiset{} == rest;
  }

  lemma HeadIsWorld(g: Graph, id: NodeID, e: Edge)
    requires id in World(g) && e in g.Out(id)
    ensures Closed(g) ==> e.to in World(g)
  {
    if Closed(g) {
      assert id in g.nodes;
    }
  }

  /** A count that reaches zero was positive, so its node was neither sorted nor queued. */
  lemma QueueOne(g: Graph, sorted: seq<NodeID>, queue: seq<NodeID>, m: map<NodeID, int>, v: NodeID)
    requires Queueing(g, sorted, queue, m)
    ensures Queueing(g, sorted, if Count(m, v) == 1 then queue + [v] else queue, m[v := Count(m, v) - 1])
  {
    var both, m' := sorted + queue, m[v := Count(m, v) - 1];
    assert sorted + (queue + [v]) == both + [v];
    assert Count(m, v) == 1 ==> v !in both && v in World(g);
    var now := sorted + if Count(m, v) == 1 then queue + [v] else queue;
    forall x: NodeID | x in now || x !in World(g) ensures Count(m', x) <= 0 {
      assert x != v ==> Count(m', x) == Count(m, x);
      assert Count(m', v) == Count(m, v) - 1;
    }
  }

  lemma ReleaseOne(g: Graph, sorted: seq<NodeID>, queue: seq<NodeID>, bag: multiset<NodeID>, v: NodeID)
    requires v in World(g) && Kahn(g, sorted, queue, bag + multiset{v})
    ensures Kahn(g, sorted, if bag[v] == 0 then queue + [v] else queue, bag)
  {
    var both := sorted + queue;
    assert v !in both by { assert v in both <==> (bag + multiset{v})[v] == 0; }
    assert sorted + (queue + [v]) == both + [v];
    var q' := if bag[v] == 0 then queue + [v] else queue;
    forall x | x in World(g) ensures x in sorted + q' <==> bag[x] == 0 {
      assert x in both <==> (bag + multiset{v})[x] == 0;
    }
  }

  /** Paths from a stored node visit stored nodes before their last step. */
  lemma {:induction false} PathIsStored(g: Graph, v: NodeID, p: seq<Edge>, w: NodeID)
    requires Closed(g) && v in g.nodes && g.IsPath(v, p, w)
    ensures w in World(g) && (p != [] ==> p[|p| - 1].from in g.nodes)
    decreases |p|
  {
    if p != [] {
      var e := p[|p| - 1];
      PathIsStored(g, v, p[..|p| - 1], e.from);
      assert e.from in g.nodes;
    }
  }

  /** In a topological order every path leads to a later position. */
  lemma {:induction false} PathsGoForward(g: Graph, sorted: seq<NodeID>, v: NodeID, p: seq<Edge>, w: NodeID, j: nat)
    requires Closed(g) && v in g.nodes && Topological(g, sorted) && p != [] && g.IsPath(v, p, w) && j < |sorted| &&
             sorted[j] == w
    ensures v in sorted[..j]
    decreases |p|
  {
    var n := |p| - 1;
    var u := p[n].from;
    PathIsStored(g, v, p, w);
    assert SourcesBefore(g, sorted, j);
    assert u in sorted[..j];
    if n > 0 {
      var i :| 0 <= i < j && sorted[i] == u;
      PathsGoForward(g, sorted, v, p[..n], u, i);
      assert sorted[..i] <= sorted[..j];
    }
  }

  lemma NoCycleIfSorted(g: Graph, sorted: seq<NodeID>)
    requires Closed(g) && Topological(g, sorted) && OnlyOnce(sorted) && g.nodes <= Elems(sorted)
    ensures !HasCycle(g)
  {
    forall v: NodeID, p: seq<Edge> | v in g.nodes && p != [] && g.IsPath(v, p, v) ensures false {
      assert v in Elems(sorted);
      var j :| 0 <= j < |sorted| && sorted[j] == v;
      PathsGoForward(g, sorted, v, p, v, j);
    }
  }

  ghost predicate Joined(g: Graph, u: NodeID, v: NodeID) {
    exists e :: e in g.Out(u) && e.to == v
  }

  ghost predicate HasPredecessor(g: Graph, s: set<NodeID>, x: NodeID) {
    exists u :: u in s && Joined(g, u, x)
  }

  ghost predicate BackStep(g: Graph, w: seq<NodeID>, i: int)
    requires 0 <= i < |w| - 1
  {
    Joined(g, w[i + 1], w[i])
  }

  /** `w` goes backwards along edges. */
  ghost predicate Backwards(g: Graph, w: seq<NodeID>) {
    forall i {:trigger BackStep(g, w, i)} :: 0 <= i < |w| - 1 ==> BackStep(g, w, i)
  }

  /** Going back `n` edges inside a set where every node has a predecessor. */
  lemma {:induction false} WalkBack(g: Graph, s: set<NodeID>, v: NodeID, n: nat) returns (w: seq<NodeID>)
    requires v in s && forall x {:trigger HasPredecessor(g, s, x)} :: x in s ==> HasPredecessor(g, s, x)
    ensures |w| == n + 1 && (forall i :: 0 <= i < |w| ==> w[i] in s) && Backwards(g, w)
  {
    if n == 0 {
      w := [v];
    } else {
      var front := WalkBack(g, s, v, n - 1);
      assert HasPredecessor(g, s, front[n - 1]);
      var u :| u in s && Joined(g, u, front[n - 1]);
      w := front + [u];
      forall i | 0 <= i < n ensures BackStep(g, w, i) {
        assert i < n - 1 ==> BackStep(g, front, i);
      }
    }
  }

  lemma {:induction false} Pigeonhole(s: set<NodeID>, w: seq<NodeID>)
    requires |w| > |s| && forall i :: 0 <= i < |w| ==> w[i] in s
    ensures exists i, j :: 0 <= i < j < |w| && w[i] == w[j]
    decreases |w|
  {
    var n := |w| - 1;
    if k :| 0 <= k < n && w[k] == w[n] {
    } else {
      forall i | 0 <= i < n ensures w[..n][i] in s - {w[n]} {
        assert w[i] != w[n];
      }
      Pigeonhole(s - {w[n]}, w[..n]);
      var i, j :| 0 <= i < j < n && w[..n][i] == w[..n][j];
      assert w[i] == w[j];
    }
  }

  lemma {:induction false} SegmentIsPath(g: Graph, w: seq<NodeID>, i: nat, j: nat) returns (p: seq<Edge>)
    requires g.Filed() && i < j < |w| && Backwards(g, w)
    ensures p != [] && g.IsPath(w[j], p, w[i])
    decreases j - i
  {
    var front := [];
    if i + 1 < j {
      front := SegmentIsPath(g, w, i + 1, j);
    }
    assert g.IsPath(w[j], front, w[i + 1]);
    assert BackStep(g, w, i);
    var e :| e in g.Out(w[i + 1]) && e.to == w[i];
    assert w[i + 1] in g.out && e in g.out[w[i + 1]];
    PathExtends(g, w[j], front, e);
    p := front + [e];
  }

  /** A set in which each node has a predecessor, all of them stored, contains a cycle. */
  lemma CycleIfStuck(g: Graph, s: set<NodeID>)
    requires g.Filed() && Closed(g) && s <= World(g) && s != {} && forall x {:trigger HasPredecessor(g, s, x)} ::
               x in s ==> HasPredecessor(g, s, x)
    ensures HasCycle(g)
  {
    var v :| v in s;
    var w := WalkBack(g, s, v, |s|);
    Pigeonhole(s, w);
    var i, j :| 0 <= i < j < |w| && w[i] == w[j];
    var p := SegmentIsPath(g, w, i, j);
    PathStartsStored(g, w[j], p, w[i]);
  }

  /** A path that leaves a node of the world starts at a stored one. */
  lemma {:induction false} PathStartsStored(g: Graph, v: NodeID, p: seq<Edge>, w: NodeID)
    requires Closed(g) && v in World(g) && p != [] && g.IsPath(v, p, w)
    ensures v in g.nodes
    decreases |p|
  {
    var e := p[|p| - 1];
    if |p| > 1 {
      PathStartsStored(g, v, p[..|p| - 1], e.from);
    } else {
      assert g.IsPath(v, p[..0], e.from);
      assert g.Out(v) != [];
    }
  }

  lemma {:induction false} SizeOfElems(s: seq<NodeID>)
    requires OnlyOnce(s)
    ensures |Elems(s)| == |s|
  {
    if s != [] {
      var n := |s| - 1;
      SizeOfElems(s[..n]);
      assert Elems(s) == Elems(s[..n]) + {s[n]};
    }
  }

  lemma Finished(g: Graph, sorted: seq<NodeID>)
    requires g.Filed() && Closed(g) && OnlyOnce(sorted) && Elems(sorted) <= World(g)
    requires Kahn(g, sorted, [], Pending(g, World(g) - Elems(sorted)))
    ensures Elems(sorted) == World(g) <==> !HasCycle(g)
  {
    assert sorted + [] == sorted;
    var open := World(g) - Elems(sorted);
    if open == {} {
      NoCycleIfSorted(g, sorted);
    } else {
      forall x | x in open ensures HasPredecessor(g, open, x) {
        assert x !in sorted + [];
        PendingMembers(g, open, x);
        var u, e :| u in open && e in g.Out(u) && e.to == x;
        assert Joined(g, u, x);
      }
      CycleIfStuck(g, open);
    }
  }

  lemma AllSorted(g: Graph, sorted: seq<NodeID>)
    requires OnlyOnce(sorted) && Elems(sorted) <= World(g)
    ensures |sorted| == |World(g)| <==> Elems(sorted) == World(g)
  {
    SizeOfElems(sorted);
    var open := World(g) - Elems(sorted);
    assert World(g) == Elems(sorted) + open;
  }

  /** The queue loop. */
  method DrainQueue(g: Graph, queue0: seq<NodeID>, m0: map<NodeID, int>)
    returns (sorted: seq<NodeID>, ghost m: map<NodeID, int>)
    requires Stage(g, [], queue0, m0, Pending(g, World(g)))
    ensures Stage(g, sorted, [], m, Pending(g, World(g) - Elems(sorted)))
  {
    var queue, degrees := queue0, m0;
    sorted := [];
    assert World(g) - Elems([]) == World(g);
    while queue != []
      invariant Stage(g, sorted, queue, degrees, Pending(g, World(g) - Elems(sorted)))
      decreases World(g) - Elems(sorted)
    {
      var id := queue[0];
      FrontStage(g, sorted, queue, degrees);
      queue, sorted := queue[1..], sorted + [id];
      queue, degrees := ReleaseHeads(g, id, sorted, queue, degrees, Pending(g, World(g) - Elems(sorted)));
    }
    m := degrees;
  }

  lemma StageStarts(g: Graph, queue: seq<NodeID>, m: map<NodeID, int>)
    requires m.Keys == World(g) && Counts(m, Pending(g, g.nodes))
    requires OnlyOnce(queue) && Elems(queue) == set v | v in World(g) && Count(m, v) == 0
    ensures Stage(g, [], queue, m, Pending(g, World(g)))
  {
    QueueingStarts(g, queue, m);
    if Closed(g) {
      KahnStarts(g, queue, m);
    }
  }

  lemma StageEnds(g: Graph, sorted: seq<NodeID>, m: map<NodeID, int>)
    requires g.Filed() && Stage(g, sorted, [], m, Pending(g, World(g) - Elems(sorted)))
    ensures OnlyOnce(sorted) && (|sorted| == |World(g)| <==> Elems(sorted) == World(g))
    ensures Closed(g) ==> (Elems(sorted) == World(g) <==> !HasCycle(g)) && Topological(g, sorted)
  {
    assert sorted + [] == sorted;
    AllSorted(g, sorted);
    if Closed(g) {
      Finished(g, sorted);
    }
  }

  /**
   Any graph: a result lists the stored nodes and the heads of their edges, each once. Where
   missing heads have no edges of their own, it exists exactly if there is no cycle, and
   every edge points forward.
   */
  method Sort(g: Graph) returns (r: Option<seq<NodeID>>)
    requires g.Filed()
    ensures r.Some? ==> OnlyOnce(r.value) && Elems(r.value) == World(g)
    ensures Closed(g) ==> (r.Some? <==> !HasCycle(g)) && (r.Some? ==> Topological(g, r.value))
  {
    var m, all := CountInDegrees(g);
    var queue := InitialQueue(all, m);
    StageStarts(g, queue, m);
    var sorted;
    ghost var left;
    sorted, left := DrainQueue(g, queue, m);
    StageEnds(g, sorted, left);
    if |sorted| != |all| {
      return None;
    }
    r := Some(sorted);
  }
}
