/**
 Grouping a batch by the shard that owns each item, and writing each group in one
 transaction, in whatever order the groups come.
 */
module Batches {
  import opened Types
  import opened Keys
  import opened Store
  import L = Leader

  /** The items of a batch that shard `i` of `n` owns, in order. */
  function Own<T>(items: seq<T>, owner: T -> NodeID, n: nat, i: nat): seq<T>
    requires n > 0
  {
    if items == [] then []
    else Own(items[..|items| - 1], owner, n, i) + if owner(items[|items| - 1]) % n == i then [items[|items| - 1]]
      else []
  }

  /** Items by owning shard; shards without items are absent. */
  ghost predicate Grouped<T>(groups: map<nat, seq<T>>, items: seq<T>, owner: T -> NodeID, n: nat)
    requires n > 0
  {
    && (forall g :: g in groups ==> g < n)
    && forall g: nat {:trigger Own(items, owner, n, g)} ::
         (if g in groups then groups[g] else []) == Own(items, owner, n, g)
  }

  method Group<T>(items: seq<T>, owner: T -> NodeID, n: nat) returns (groups: map<nat, seq<T>>)
    requires n > 0
    ensures Grouped(groups, items, owner, n)
  {
    groups := map[];
    for j := 0 to |items|
      invariant Grouped(groups, items[..j], owner, n)
    {
      var g := owner(items[j]) % n;
      ghost var was := groups;
      groups := groups[g := (if g in groups then groups[g] else []) + [items[j]]];
      forall h: nat ensures (if h in groups then groups[h] else []) == Own(items[..j + 1], owner, n, h) {
        assert items[..j + 1][..j] == items[..j];
        assert (if h in was then was[h] else []) == Own(items[..j], owner, n, h);
      }
    }
    assert items[..|items|] == items;
  }

  // ---- what a group does to its shard ------------------------------------------------------------------

  function PutNodes(sh: Shard, nodes: seq<(NodeID, Props)>): Shard {
    if nodes == [] then sh
    else
      var last := nodes[|nodes| - 1];
      var sh1 := PutNodes(sh, nodes[..|nodes| - 1]);
      sh1.(nodes := sh1.nodes[last.0 := last.1], nodeCount := sh1.nodeCount + 1)
  }

  function PutEdges(sh: Shard, es: seq<Edge>): Shard {
    if es == [] then sh else PutEdge(PutEdges(sh, es[..|es| - 1]), es[|es| - 1])
  }

  function PutIncomings(sh: Shard, es: seq<Edge>): Shard {
    if es == [] then sh else PutIncoming(PutIncomings(sh, es[..|es| - 1]), es[|es| - 1])
  }

  function NodeOwner(item: (NodeID, Props)): NodeID {
    item.0
  }

  function Source(e: Edge): NodeID {
    e.from
  }

  function Target(e: Edge): NodeID {
    e.to
  }

  lemma {:induction false} PutOwnNodesIs(sh: Shard, nodes: seq<(NodeID, Props)>, n: nat, i: nat)
    requires n > 0
    ensures L.PutOwnNodes(sh, nodes, n, i) == PutNodes(sh, Own(nodes, NodeOwner, n, i))
  {
    if nodes != [] {
      var rest, last := nodes[..|nodes| - 1], nodes[|nodes| - 1];
      PutOwnNodesIs(sh, rest, n, i);
      var own := Own(rest, NodeOwner, n, i);
      if NodeOwner(last) % n == i {
        assert Own(nodes, NodeOwner, n, i) == own + [last];
        assert (own + [last])[..|own|] == own;
      } else {
        assert Own(nodes, NodeOwner, n, i) == own;
      }
    }
  }

  lemma {:induction false} PutOwnEdgesIs(sh: Shard, es: seq<Edge>, n: nat, i: nat)
    requires n > 0
    ensures L.PutOwnEdges(sh, es, n, i) == PutEdges(sh, Own(es, Source, n, i))
  {
    if es != [] {
      var rest, last := es[..|es| - 1], es[|es| - 1];
      PutOwnEdgesIs(sh, rest, n, i);
      var own := Own(rest, Source, n, i);
      if Source(last) % n == i {
        assert Own(es, Source, n, i) == own + [last];
        assert (own + [last])[..|own|] == own;
      } else {
        assert Own(es, Source, n, i) == own;
      }
    }
  }

  lemma {:induction false} PutOwnIncomingIs(sh: Shard, es: seq<Edge>, n: nat, i: nat)
    requires n > 0
    ensures L.PutOwnIncoming(sh, es, n, i) == PutIncomings(sh, Own(es, Target, n, i))
  {
    if es != [] {
      var rest, last := es[..|es| - 1], es[|es| - 1];
      PutOwnIncomingIs(sh, rest, n, i);
      var own := Own(rest, Target, n, i);
      if Target(last) % n == i {
        assert Own(es, Target, n, i) == own + [last];
        assert (own + [last])[..|own|] == own;
      } else {
        assert Own(es, Target, n, i) == own;
      }
    }
  }

  // ---- the three group writes --------------------------------------------------------------------------

  /** One transaction: the records, then the counter once. */
  method WriteNodes(sh: Shard, nodes: seq<(NodeID, Props)>) returns (sh': Shard)
    ensures sh' == PutNodes(sh, nodes)
  {
    sh' := sh;
    for j := 0 to |nodes|
      invariant sh'.(nodeCount := sh.nodeCount + j) == PutNodes(sh, nodes[..j])
    {
      assert nodes[..j + 1][..j] == nodes[..j];
      sh' := sh'.(nodes := sh'.nodes[nodes[j].0 := nodes[j].1]);
    }
    assert nodes[..|nodes|] == nodes;
    sh' := sh'.(nodeCount := sh.nodeCount + |nodes|);
  }

  method WriteEdges(sh: Shard, es: seq<Edge>) returns (sh': Shard)
    ensures sh' == PutEdges(sh, es)
  {
    sh' := sh;
    for j := 0 to |es|
      invariant sh'.(edgeCount := sh.edgeCount + j) == PutEdges(sh, es[..j])
    {
      assert es[..j + 1][..j] == es[..j];
      var e := es[j];
      sh' := sh'.(edges := sh'.edges[e.id := e], adjOut := sh'.adjOut[(e.from, e.id) := AdjVal(e.to, e.lbl)],
                  edgeType := sh'.edgeType + {IndexKey(e.lbl, e.id)});
    }
    assert es[..|es|] == es;
    sh' := sh'.(edgeCount := sh.edgeCount + |es|);
  }

  method WriteIncomings(sh: Shard, es: seq<Edge>) returns (sh': Shard)
    ensures sh' == PutIncomings(sh, es)
  {
    sh' := sh;
    for j := 0 to |es|
      invariant sh' == PutIncomings(sh, es[..j])
    {
      assert es[..j + 1][..j] == es[..j];
      sh' := sh'.(adjIn := sh'.adjIn[(es[j].to, es[j].id) := AdjVal(es[j].from, es[j].lbl)]);
    }
    assert es[..|es|] == es;
  }

  // ---- all shards -----------------------------------------------------------------------------------------

  /** Shards outside `todo` have their group written, the others are as before. */
  ghost predicate Written<T(!new)>(shards: seq<Shard>, was: seq<Shard>, items: seq<T>, owner: T -> NodeID,
      put: (Shard, seq<T>) -> Shard, todo: set<nat>) {
    && |shards| == |was| && |was| > 0
    && forall i {:trigger shards[i]} :: 0 <= i < |was| ==>
         shards[i] == if i in todo then was[i] else put(was[i], Own(items, owner, |was|, i))
  }

  method WriteNodeBatch(shards: seq<Shard>, nodes: seq<(NodeID, Props)>) returns (shards': seq<Shard>)
    requires |shards| > 0
    ensures Written(shards', shards, nodes, NodeOwner, PutNodes, {})
  {
    var groups := Group(nodes, NodeOwner, |shards|);
    var todo := groups.Keys;
    shards' := shards;
    assert Written(shards', shards, nodes, NodeOwner, PutNodes, todo) by {
      forall i | 0 <= i < |shards| && i !in todo
        ensures PutNodes(shards[i], Own(nodes, NodeOwner, |shards|, i)) == shards[i]
      {
        assert Own(nodes, NodeOwner, |shards|, i) == [];
      }
    }
    while todo != {}
      invariant todo <= groups.Keys && Written(shards', shards, nodes, NodeOwner, PutNodes, todo)
      decreases |todo|
    {
      var g :| g in todo;
      assert groups[g] == Own(nodes, NodeOwner, |shards|, g);
      var sh := WriteNodes(shards'[g], groups[g]);
      shards', todo := shards'[g := sh], todo - {g};
    }
  }

  method WriteEdgeBatch(shards: seq<Shard>, es: seq<Edge>) returns (shards': seq<Shard>)
    requires |shards| > 0
    ensures Written(shards', shards, es, Source, PutEdges, {})
  {
    var groups := Group(es, Source, |shards|);
    var todo := groups.Keys;
    shards' := shards;
    assert Written(shards', shards, es, Source, PutEdges, todo) by {
      forall i | 0 <= i < |shards| && i !in todo
        ensures PutEdges(shards[i], Own(es, Source, |shards|, i)) == shards[i]
      {
        assert Own(es, Source, |shards|, i) == [];
      }
    }
    while todo != {}
      invariant todo <= groups.Keys && Written(shards', shards, es, Source, PutEdges, todo)
      decreases |todo|
    {
      var g :| g in todo;
      assert groups[g] == Own(es, Source, |shards|, g);
      var sh := WriteEdges(shards'[g], groups[g]);
      shards', todo := shards'[g := sh], todo - {g};
    }
  }

  method WriteIncomingBatch(shards: seq<Shard>, es: seq<Edge>) returns (shards': seq<Shard>)
    requires |shards| > 0
    ensures Written(shards', shards, es, Target, PutIncomings, {})
  {
    var groups := Group(es, Target, |shards|);
    var todo := groups.Keys;
    shards' := shards;
    assert Written(shards', shards, es, Target, PutIncomings, todo) by {
      forall i | 0 <= i < |shards| && i !in todo
        ensures PutIncomings(shards[i], Own(es, Target, |shards|, i)) == shards[i]
      {
        assert Own(es, Target, |shards|, i) == [];
      }
    }
    while todo != {}
      invariant todo <= groups.Keys && Written(shards', shards, es, Target, PutIncomings, todo)
      decreases |todo|
    {
      var g :| g in todo;
      assert groups[g] == Own(es, Target, |shards|, g);
      var sh := WriteIncomings(shards'[g], groups[g]);
      shards', todo := shards'[g := sh], todo - {g};
    }
  }

  /** The grouped writes leave what the batch functions of the specification give. */
  lemma NodeBatchWritten(db: DB, nodes: seq<(NodeID, Props)>, shards: seq<Shard>)
    requires db.Valid() && Written(shards, db.shards, nodes, NodeOwner, PutNodes, {})
    ensures shards == L.PutNodeBatch(db, nodes).shards
  {
    forall i | 0 <= i < |shards| ensures shards[i] == L.PutNodeBatch(db, nodes).shards[i] {
      PutOwnNodesIs(db.shards[i], nodes, |db.shards|, i);
    }
  }

  lemma EdgeBatchWritten(db: DB, es: seq<Edge>, mid: seq<Shard>, shards: seq<Shard>)
    requires db.Valid() && Written(mid, db.shards, es, Source, PutEdges, {}) &&
             Written(shards, mid, es, Target, PutIncomings, {})
    ensures shards == L.PutEdgeBatch(db, es).shards
  {
    forall i | 0 <= i < |shards| ensures shards[i] == L.PutEdgeBatch(db, es).shards[i] {
      assert mid[i] == PutEdges(db.shards[i], Own(es, Source, |db.shards|, i));
      PutOwnEdgesIs(db.shards[i], es, |db.shards|, i);
      PutOwnIncomingIs(mid[i], es, |db.shards|, i);
    }
  }
}
