/**
 Replay simulates the leader: a follower that is fed the emitted entries in LSN
 order, old ones possibly again, holds after entry k the leader's buckets at the
 moment entry k was appended.
 */
module Replay {
  import opened Types
  import opened Values
  import opened Keys
  import opened Store
  import opened Leader
  import opened Applier
  import U = UniqueBuild

  /** Everything a shard holds but the unique index. */
  function Strip(sh: Shard): Shard {
    sh.(uniqIdx := map[])
  }

  predicate SameShard(l: DB, f: DB, i: nat)
    requires i < |l.shards| && i < |f.shards|
  {
    Strip(l.shards[i]) == Strip(f.shards[i])
  }

  /** Equal registries, counters and buckets, the unique index and the ID counters aside. */
  predicate Same(l: DB, f: DB) {
    && |l.shards| == |f.shards| && l.reg == f.reg
    && forall i {:trigger SameShard(l, f, i)} :: 0 <= i < |l.shards| ==> SameShard(l, f, i)
  }

  lemma SameTransitive(a: DB, b: DB, c: DB)
    requires Same(a, b) && Same(b, c)
    ensures Same(a, c)
  {
    forall i | 0 <= i < |a.shards|
      ensures SameShard(a, c, i)
    {
      assert SameShard(a, b, i) && SameShard(b, c, i);
    }
  }

  lemma SameSymmetric(a: DB, b: DB)
    requires Same(a, b)
    ensures Same(b, a)
  {
    forall i | 0 <= i < |b.shards|
      ensures SameShard(b, a, i)
    {
      assert SameShard(a, b, i);
    }
  }

  lemma SameHome(l: DB, f: DB, id: NodeID)
    requires l.Valid() && Same(l, f)
    ensures Strip(l.ShardOf(id)) == Strip(f.ShardOf(id))
  {
    assert SameShard(l, f, l.Home(id));
  }

  lemma SameCommit(l: DB, f: DB, id: NodeID, a: Shard, b: Shard)
    requires l.Valid() && Same(l, f) && Strip(a) == Strip(b)
    ensures Same(l.Commit(id, a), f.Commit(id, b))
  {
    var l', f' := l.Commit(id, a), f.Commit(id, b);
    forall i | 0 <= i < |l'.shards|
      ensures SameShard(l', f', i)
    {
      assert SameShard(l, f, i);
    }
  }

  // ---- where an edge is kept ----------------------------------------------------------------

  /** Each stored edge lies in the shard of its source, under its own ID. */
  predicate PlacedAt(db: DB, i: nat, eid: EdgeID)
    requires db.Valid() && i < |db.shards| && eid in db.shards[i].edges
  {
    db.shards[i].edges[eid].id == eid && db.Home(db.shards[i].edges[eid].from) == i
  }

  predicate PlacedIn(db: DB, i: nat)
    requires db.Valid() && i < |db.shards|
  {
    forall eid {:trigger PlacedAt(db, i, eid)} :: eid in db.shards[i].edges ==> PlacedAt(db, i, eid)
  }

  predicate Placed(db: DB) {
    db.Valid() && forall i {:trigger PlacedIn(db, i)} :: 0 <= i < |db.shards| ==> PlacedIn(db, i)
  }

  lemma {:induction false} GetEdgeIsHome(db: DB, eid: EdgeID, i: nat)
    requires Placed(db) && i <= |db.shards|
    ensures GetEdge(db, eid, i).Some? ==>
              var e := GetEdge(db, eid, i).value;
                  e.id == eid && eid in db.ShardOf(e.from).edges && db.ShardOf(e.from).edges[eid] == e
    decreases |db.shards| - i
  {
    if i < |db.shards| {
      if eid in db.shards[i].edges {
        assert PlacedIn(db, i);
        assert PlacedAt(db, i, eid);
      } else {
        GetEdgeIsHome(db, eid, i + 1);
      }
    }
  }

  lemma PlacedCommit(db: DB, id: NodeID, sh: Shard)
    requires Placed(db)
    requires forall eid :: eid in sh.edges ==>
               (eid in db.ShardOf(id).edges && sh.edges[eid] == db.ShardOf(id).edges[eid])
               || (sh.edges[eid].id == eid && db.Home(sh.edges[eid].from) == db.Home(id))
    ensures Placed(db.Commit(id, sh))
  {
    var db' := db.Commit(id, sh);
    forall i | 0 <= i < |db'.shards|
      ensures PlacedIn(db', i)
    {
      assert PlacedIn(db, i);
      forall eid | eid in db'.shards[i].edges
        ensures PlacedAt(db', i, eid)
      {
        if i != db.Home(id) || (eid in db.ShardOf(id).edges && sh.edges[eid] == db.ShardOf(id).edges[eid]) {
          assert PlacedAt(db, i, eid);
        }
      }
    }
  }

  lemma PlacedSameEdges(db: DB, db': DB)
    requires Placed(db) && |db'.shards| == |db.shards|
    requires forall i {:trigger db'.shards[i]} :: 0 <= i < |db.shards| ==> db'.shards[i].edges == db.shards[i].edges
    ensures Placed(db')
  {
    forall i | 0 <= i < |db'.shards|
      ensures PlacedIn(db', i)
    {
      assert PlacedIn(db, i);
      forall eid | eid in db'.shards[i].edges
        ensures PlacedAt(db', i, eid)
      {
        assert PlacedAt(db, i, eid);
      }
    }
  }

  lemma PlacedWrite(db: DB, e: Edge)
    requires Placed(db)
    ensures Placed(WriteEdge(db, e))
  {
    var sh := PutEdge(db.ShardOf(e.from), e);
    PlacedCommit(db, e.from, sh);
    var db1 := db.Commit(e.from, sh);
    PlacedCommit(db1, e.to, PutIncoming(db1.ShardOf(e.to), e));
  }

  lemma PlacedErase(db: DB, e: Edge)
    requires Placed(db)
    ensures Placed(EraseEdge(db, e))
  {
    var sh := DropEdge(db.ShardOf(e.from), e.id, e.from, e.lbl);
    PlacedCommit(db, e.from, sh);
    var db1 := db.Commit(e.from, sh);
    PlacedCommit(db1, e.to, DropIncoming(db1.ShardOf(e.to), e.id, e.to));
  }

  // ---- batches of edges ---------------------------------------------------------------------

  lemma {:induction false} IncomingCommutes(sh: Shard, es: seq<Edge>, n: nat, i: nat, e: Edge)
    requires n > 0
    ensures PutOwnIncoming(PutEdge(sh, e), es, n, i) == PutEdge(PutOwnIncoming(sh, es, n, i), e)
  {
    if es != [] {
      IncomingCommutes(sh, es[..|es| - 1], n, i, e);
    }
  }

  /** One edge more, in the grouped form. */
  lemma BatchStep(sh: Shard, es: seq<Edge>, n: nat, i: nat)
    requires n > 0 && es != []
    ensures
      var e, es' := es[|es| - 1], es[..|es| - 1];
      var sh1 := PutOwnIncoming(PutOwnEdges(sh, es', n, i), es', n, i);
      var sh2 := if e.from % n == i then PutEdge(sh1, e) else sh1;
      PutOwnIncoming(PutOwnEdges(sh, es, n, i), es, n, i) == if e.to % n == i then PutIncoming(sh2, e) else sh2
  {
    IncomingCommutes(PutOwnEdges(sh, es[..|es| - 1], n, i), es[..|es| - 1], n, i, es[|es| - 1]);
  }

  /** The leader's writes grouped by shard leave what the follower's edge-by-edge writes leave. */
  lemma {:induction false} BatchIsOneByOne(db: DB, es: seq<Edge>)
    requires db.Valid()
    ensures PutEdgeBatch(db, es) == ApplyAddEdges(db, es)
  {
    if es == [] {
      assert PutEdgeBatch(db, es).shards == db.shards;
    } else {
      var e, es' := es[|es| - 1], es[..|es| - 1];
      BatchIsOneByOne(db, es');
      var mid := PutEdgeBatch(db, es');
      forall i | 0 <= i < |db.shards|
        ensures PutEdgeBatch(db, es).shards[i] == WriteEdge(mid, e).shards[i]
      {
        BatchStep(db.shards[i], es, |db.shards|, i);
      }
      assert PutEdgeBatch(db, es).shards == WriteEdge(mid, e).shards;
    }
  }

  // ---- entries ---------------------------------------------------------------------------------

  lemma SameWrite(l: DB, f: DB, e: Edge)
    requires l.Valid() && Same(l, f)
    ensures Same(WriteEdge(l, e), WriteEdge(f, e))
  {
    SameHome(l, f, e.from);
    var a, b := PutEdge(l.ShardOf(e.from), e), PutEdge(f.ShardOf(e.from), e);
    SameCommit(l, f, e.from, a, b);
    var l1, f1 := l.Commit(e.from, a), f.Commit(e.from, b);
    SameHome(l1, f1, e.to);
    SameCommit(l1, f1, e.to, PutIncoming(l1.ShardOf(e.to), e), PutIncoming(f1.ShardOf(e.to), e));
  }

  lemma SameErase(l: DB, f: DB, e: Edge)
    requires l.Valid() && Same(l, f)
    ensures Same(EraseEdge(l, e), ApplyDeleteEdge(f, e.id, e.from, e.to, e.lbl))
  {
    SameHome(l, f, e.from);
    var a, b := DropEdge(l.ShardOf(e.from), e.id, e.from, e.lbl), DropEdge(f.ShardOf(e.from), e.id, e.from, e.lbl);
    SameCommit(l, f, e.from, a, b);
    var l1, f1 := l.Commit(e.from, a), f.Commit(e.from, b);
    SameHome(l1, f1, e.to);
    SameCommit(l1, f1, e.to, DropIncoming(l1.ShardOf(e.to), e.id, e.to), DropIncoming(f1.ShardOf(e.to), e.id, e.to));
  }

  lemma {:induction false} SameEdgeBatch(l: DB, f: DB, es: seq<Edge>)
    requires l.Valid() && Same(l, f)
    ensures Same(ApplyAddEdges(l, es), ApplyAddEdges(f, es))
  {
    if es != [] {
      SameEdgeBatch(l, f, es[..|es| - 1]);
      SameWrite(ApplyAddEdges(l, es[..|es| - 1]), ApplyAddEdges(f, es[..|es| - 1]), es[|es| - 1]);
    }
  }

  lemma {:induction false} SameOwnNodes(a: Shard, b: Shard, nodes: seq<(NodeID, Props)>, n: nat, i: nat)
    requires n > 0 && Strip(a) == Strip(b)
    ensures Strip(PutOwnNodes(a, nodes, n, i)) == Strip(PutOwnNodes(b, nodes, n, i))
  {
    if nodes != [] {
      SameOwnNodes(a, b, nodes[..|nodes| - 1], n, i);
    }
  }

  lemma SameNodeBatch(l: DB, f: DB, nodes: seq<(NodeID, Props)>)
    requires l.Valid() && Same(l, f)
    ensures Same(PutNodeBatch(l, nodes), PutNodeBatch(f, nodes))
  {
    var l', f' := PutNodeBatch(l, nodes), PutNodeBatch(f, nodes);
    forall i | 0 <= i < |l'.shards|
      ensures SameShard(l', f', i)
    {
      assert SameShard(l, f, i);
      SameOwnNodes(l.shards[i], f.shards[i], nodes, |l.shards|, i);
    }
  }

  /** Whatever state equals `before` up to the unique index, replaying the entry brings it to `entry.after`. */
  ghost predicate Link(r: Render, before: DB, entry: Logged) {
    entry.after.Valid() &&
    forall f: DB {:trigger ApplyOp(r, f, entry.op)} :: f.Valid() && Same(before, f) ==>
      ApplyOp(r, f, entry.op).Some? && Same(entry.after, ApplyOp(r, f, entry.op).value)
  }

  ghost function Before(start: DB, log: seq<Logged>, k: nat): DB
    requires k <= |log|
  {
    if k == 0 then start else log[k - 1].after
  }

  ghost predicate LinkAt(r: Render, start: DB, log: seq<Logged>, k: nat)
    requires k < |log|
  {
    Link(r, Before(start, log, k), log[k])
  }

  /** The entries lead from `start` to `end`, one state after the other. */
  ghost predicate Chain(r: Render, start: DB, log: seq<Logged>, end: DB) {
    && start.Valid() && end.Valid()
    && (forall k {:trigger LinkAt(r, start, log, k)} :: 0 <= k < |log| ==> LinkAt(r, start, log, k))
    && Same(Before(start, log, |log|), end)
  }

  lemma LinkFrom(r: Render, a: DB, b: DB, entry: Logged)
    requires Same(a, b) && Link(r, b, entry)
    ensures Link(r, a, entry)
  {
    forall f: DB | f.Valid() && Same(a, f)
      ensures ApplyOp(r, f, entry.op).Some? && Same(entry.after, ApplyOp(r, f, entry.op).value)
    {
      SameSymmetric(a, b);
      SameTransitive(b, a, f);
    }
  }

  lemma ChainJoin(r: Render, a: DB, log: seq<Logged>, b: DB, log': seq<Logged>, c: DB)
    requires Chain(r, a, log, b) && Chain(r, b, log', c)
    ensures Chain(r, a, log + log', c)
  {
    var all := log + log';
    forall k | 0 <= k < |all|
      ensures LinkAt(r, a, all, k)
    {
      if k < |log| {
        assert LinkAt(r, a, log, k);
      } else {
        assert LinkAt(r, b, log', k - |log|);
        if k == |log| {
          LinkFrom(r, Before(a, log, |log|), b, log'[0]);
        }
      }
    }
    if log' == [] {
      assert all == log;
      SameTransitive(Before(a, log, |log|), b, c);
    } else {
      assert all[|all| - 1] == log'[|log'| - 1];
    }
  }

  // ---- calls -----------------------------------------------------------------------------------

  lemma SameButIds(l: DB, f: DB, n: uint64, e: uint64)
    requires Same(l, f)
    ensures Same(l.(nextNode := n, nextEdge := e), f)
  {
    var l' := l.(nextNode := n, nextEdge := e);
    forall i | 0 <= i < |l'.shards| ensures SameShard(l', f, i) { assert SameShard(l, f, i); }
  }

  /** The call logged one entry with its final state, and the entry takes `f` there. */
  ghost predicate Replayed(r: Render, f: DB, o: Outcome)
    requires f.Valid()
  {
    && |o.log| == 1 && o.log[0].after == o.db && o.db.Valid()
    && ApplyOp(r, f, o.log[0].op).Some? && Same(o.db, ApplyOp(r, f, o.log[0].op).value)
  }

  lemma AddNodeReplays(r: Render, l: DB, f: DB, props: Props)
    requires l.Valid() && l.nextNode + 1 < TWO64 && Same(l, f)
    ensures Same(AddNode(r, l, props).db, ApplyAddNode(r, f, l.nextNode + 1, props))
  {
    var id := l.nextNode + 1;
    var l1 := l.(nextNode := id);
    SameButIds(l, f, id, l.nextEdge);
    SameHome(l, f, id);
    var a, b := l.ShardOf(id), f.ShardOf(id);
    var a1 := Index(r, l.reg, a.(nodes := a.nodes[id := props]), id, props);
    var b1 := Index(r, f.reg, b.(nodes := b.nodes[id := props]), id, props);
    SameCommit(l1, f, id, a1.(nodeCount := a1.nodeCount + 1), b1.(nodeCount := b1.nodeCount + 1));
  }

  lemma SameIndex(r: Render, reg: Registry, a: Shard, b: Shard, id: NodeID, props: Props)
    requires Strip(a) == Strip(b)
    ensures Strip(Index(r, reg, a, id, props)) == Strip(Index(r, reg, b, id, props))
  {
  }

  lemma SameUnindex(r: Render, reg: Registry, a: Shard, b: Shard, id: NodeID, props: Props)
    requires Strip(a) == Strip(b)
    ensures Strip(Unindex(r, reg, a, id, props)) == Strip(Unindex(r, reg, b, id, props))
    ensures Unindex(r, reg, a, id, props).nodes == a.nodes
  {
  }

  /** Both sides reindex the node; only the leader touches the unique index. */
  lemma SameRewrite(r: Render, l: DB, f: DB, id: NodeID, names: seq<Str>, dropped: Props, props: Props)
    requires l.Valid() && Same(l, f) && l.HasNode(id)
    ensures f.HasNode(id)
    ensures
      var a1 := UnindexUnique(r, l.reg, Unindex(r, l.reg, l.ShardOf(id), id, l.ShardOf(id).nodes[id]), id, names,
                              dropped);
      var b1 := Unindex(r, f.reg, f.ShardOf(id), id, f.ShardOf(id).nodes[id]);
      var a2 := Index(r, l.reg, a1.(nodes := a1.nodes[id := props]), id, props);
      Same(l.Commit(id, IndexUnique(r, l.reg, a2, id, names, props)),
           f.Commit(id, Index(r, f.reg, b1.(nodes := b1.nodes[id := props]), id, props)))
  {
    SameHome(l, f, id);
    var was := l.ShardOf(id).nodes[id];
    SameUnindex(r, l.reg, l.ShardOf(id), f.ShardOf(id), id, was);
    var a1 := UnindexUnique(r, l.reg, Unindex(r, l.reg, l.ShardOf(id), id, was), id, names, dropped);
    var b1 := Unindex(r, f.reg, f.ShardOf(id), id, was);
    SameIndex(r, l.reg, a1.(nodes := a1.nodes[id := props]), b1.(nodes := b1.nodes[id := props]), id, props);
    var a2 := Index(r, l.reg, a1.(nodes := a1.nodes[id := props]), id, props);
    SameCommit(l, f, id, IndexUnique(r, l.reg, a2, id, names, props),
               Index(r, f.reg, b1.(nodes := b1.nodes[id := props]), id, props));
  }

  lemma UpdateNodeReplays(r: Render, l: DB, f: DB, id: NodeID, props: Props)
    requires l.Valid() && Same(l, f) && UpdateNode(r, l, id, props).ok
    ensures ApplyUpdateNode(r, f, id, props).Some?
    ensures Same(UpdateNode(r, l, id, props).db, ApplyUpdateNode(r, f, id, props).value)
  {
    SameHome(l, f, id);
    var merged := l.ShardOf(id).nodes[id] + props;
    SameRewrite(r, l, f, id, Labels(l.ShardOf(id), id), merged, merged);
  }

  lemma SetNodePropsReplays(r: Render, l: DB, f: DB, id: NodeID, props: Props)
    requires l.Valid() && Same(l, f) && SetNodeProps(r, l, id, props).ok
    ensures Same(SetNodeProps(r, l, id, props).db, ApplySetNodeProps(r, f, id, props))
  {
    SameRewrite(r, l, f, id, Labels(l.ShardOf(id), id), l.ShardOf(id).nodes[id], props);
  }

  lemma EraseNodeReplays(r: Render, l: DB, f: DB, id: NodeID)
    requires l.Valid() && Same(l, f) && l.HasNode(id)
    ensures Same(l.Commit(id, EraseNode(r, l.reg, l.ShardOf(id), id)), ApplyDeleteNode(r, f, id))
  {
    SameHome(l, f, id);
    SameCommit(l, f, id, EraseNode(r, l.reg, l.ShardOf(id), id), ApplyDeleteNode(r, f, id).ShardOf(id));
  }

  lemma AddLabeledReplays(r: Render, l: DB, f: DB, names: seq<Str>, props: Props)
    requires l.Valid() && l.nextNode + 1 < TWO64 && Same(l, f) && AddNodeWithLabels(r, l, names, props).ok
    ensures Same(AddNodeWithLabels(r, l, names, props).db, ApplyAddNodeWithLabels(r, f, l.nextNode + 1, names, props))
  {
    var id := l.nextNode + 1;
    var l1 := l.(nextNode := id);
    SameButIds(l, f, id, l.nextEdge);
    SameHome(l, f, id);
    SameCommit(l1, f, id, AddNodeWithLabels(r, l, names, props).db.ShardOf(id),
               ApplyAddNodeWithLabels(r, f, id, names, props).ShardOf(id));
  }

  lemma AddLabelReplays(r: Render, l: DB, f: DB, id: NodeID, names: seq<Str>)
    requires l.Valid() && f.Valid() && Same(l, f) && AddLabel(r, l, id, names).log != []
    ensures Replayed(r, f, AddLabel(r, l, id, names))
  {
    SameHome(l, f, id);
    if NewLabels(Labels(l.ShardOf(id), id), names) != [] {
      SameCommit(l, f, id, AddLabel(r, l, id, names).db.ShardOf(id), ApplyAddLabel(f, id, names).value.ShardOf(id));
    }
  }

  lemma RemoveLabelReplays(r: Render, l: DB, f: DB, id: NodeID, names: seq<Str>)
    requires l.Valid() && f.Valid() && Same(l, f) && RemoveLabel(l, id, names).log != []
    ensures Replayed(r, f, RemoveLabel(l, id, names))
  {
    SameHome(l, f, id);
    SameCommit(l, f, id, RemoveLabel(l, id, names).db.ShardOf(id), ApplyRemoveLabel(f, id, names).ShardOf(id));
  }

  lemma UpdateEdgeReplays(l: DB, f: DB, eid: EdgeID, props: Props)
    requires Placed(l) && Same(l, f) && GetEdge(l, eid, 0).Some?
    ensures var e := GetEdge(l, eid, 0).value;
            ApplyUpdateEdge(f, eid, e.from, props).Some?
            && Same(UpdateEdge(l, eid, props).db, ApplyUpdateEdge(f, eid, e.from, props).value)
  {
    var e := GetEdge(l, eid, 0).value;
    GetEdgeIsHome(l, eid, 0);
    SameHome(l, f, e.from);
    SameCommit(l, f, e.from, UpdateEdge(l, eid, props).db.ShardOf(e.from),
               ApplyUpdateEdge(f, eid, e.from, props).value.ShardOf(e.from));
  }

  lemma UniqueReplays(r: Render, l: DB, f: DB, c: Constraint)
    requires l.Valid() && Same(l, f) && CreateUnique(r, l, c).log != []
    ensures Same(CreateUnique(r, l, c).db, ApplyCreateUnique(r, f, c))
  {
    var l', f' := CreateUnique(r, l, c).db, ApplyCreateUnique(r, f, c);
    forall i | 0 <= i < |l'.shards| ensures SameShard(l', f', i) { assert SameShard(l, f, i); }
  }

  /** Replaying what a one-entry call logged, on any state that was equal before it. */
  lemma DefinitionReplays(r: Render, l: DB, f: DB, call: Call)
    requires l.Valid() && Same(l, f)
    requires call.CreateIndexCall? || call.DropIndexCall? || call.CreateCompositeCall? || call.DropCompositeCall? ||
             call.DropUniqueCall?
    requires Execute(r, l, call).log != []
    ensures Replayed(r, f, Execute(r, l, call))
  {
    var l', f' := Execute(r, l, call).db, ApplyOp(r, f, Execute(r, l, call).log[0].op).value;
    forall i | 0 <= i < |l'.shards| ensures SameShard(l', f', i) { assert SameShard(l, f, i); }
  }

  lemma NodeBatchReplays(r: Render, l: DB, f: DB, list: seq<Props>)
    requires l.Valid() && f.Valid() && l.nextNode + |list| < TWO64 && Same(l, f)
    ensures Replayed(r, f, AddNodeBatch(l, list))
  {
    SameButIds(l, f, l.nextNode + |list|, l.nextEdge);
    SameNodeBatch(l.(nextNode := l.nextNode + |list|), f, Numbered(l.nextNode + 1, list));
  }

  lemma NodeCallReplays(r: Render, l: DB, f: DB, call: Call)
    requires l.Valid() && f.Valid() && Room(l, call) && Same(l, f) && Execute(r, l, call).log != []
    requires call.AddNodeCall? || call.AddNodeBatchCall? || call.UpdateNodeCall? || call.SetNodePropsCall?
    ensures Replayed(r, f, Execute(r, l, call))
  {
    match call
    case AddNodeCall(props) => AddNodeReplays(r, l, f, props);
    case AddNodeBatchCall(list) => NodeBatchReplays(r, l, f, list);
    case UpdateNodeCall(id, props) => UpdateNodeReplays(r, l, f, id, props);
    case SetNodePropsCall(id, props) => SetNodePropsReplays(r, l, f, id, props);
  }

  lemma AddEdgeReplays(r: Render, l: DB, f: DB, s: NodeID, t: NodeID, name: Str, props: Props)
    requires l.Valid() && f.Valid() && l.nextEdge + 1 < TWO64 && Same(l, f) && AddEdge(l, s, t, name, props).ok
    ensures Replayed(r, f, AddEdge(l, s, t, name, props))
  {
    SameButIds(l, f, l.nextNode, l.nextEdge + 1);
    SameWrite(l.(nextEdge := l.nextEdge + 1), f, Edge(l.nextEdge + 1, s, t, name, props));
  }

  lemma PutBatchReplays(l: DB, f: DB, es: seq<Edge>)
    requires l.Valid() && Same(l, f)
    ensures Same(PutEdgeBatch(l, es), ApplyAddEdges(f, es))
  {
    BatchIsOneByOne(l, es);
    SameEdgeBatch(l, f, es);
  }

  lemma EdgeBatchReplays(l: DB, f: DB, list: seq<Edge>)
    requires l.Valid() && f.Valid() && l.nextEdge + |list| < TWO64 && Same(l, f)
    ensures Same(AddEdgeBatch(l, list).db, ApplyAddEdges(f, NumberedEdges(l.nextEdge + 1, list)))
  {
    var l1, es := l.(nextEdge := l.nextEdge + |list|), NumberedEdges(l.nextEdge + 1, list);
    SameButIds(l, f, l.nextNode, l.nextEdge + |list|);
    PutBatchReplays(l1, f, es);
    assert AddEdgeBatch(l, list).db == PutEdgeBatch(l1, es);
  }

  lemma DeleteEdgeReplays(r: Render, l: DB, f: DB, eid: EdgeID)
    requires Placed(l) && f.Valid() && Same(l, f) && DeleteEdge(l, eid).log != []
    ensures Replayed(r, f, DeleteEdge(l, eid))
  {
    SameErase(l, f, GetEdge(l, eid, 0).value);
  }

  lemma EdgeCallReplays(r: Render, l: DB, f: DB, call: Call)
    requires Placed(l) && f.Valid() && Room(l, call) && Same(l, f) && Execute(r, l, call).log != []
    requires call.AddEdgeCall? || call.AddEdgeBatchCall? || call.DeleteEdgeCall? || call.UpdateEdgeCall?
    ensures Replayed(r, f, Execute(r, l, call))
  {
    match call
    case AddEdgeCall(s, t, name, props) => AddEdgeReplays(r, l, f, s, t, name, props);
    case AddEdgeBatchCall(list) => EdgeBatchReplays(l, f, list);
    case DeleteEdgeCall(eid) => DeleteEdgeReplays(r, l, f, eid);
    case UpdateEdgeCall(eid, props) => UpdateEdgeReplays(l, f, eid, props);
  }

  lemma LabeledCallReplays(r: Render, l: DB, f: DB, call: Call)
    requires l.Valid() && f.Valid() && Room(l, call) && Same(l, f) && Execute(r, l, call).log != []
    requires call.AddNodeWithLabelsCall?
    ensures Replayed(r, f, Execute(r, l, call))
  {
    AddLabeledReplays(r, l, f, call.names, call.props);
  }

  lemma CallReplays(r: Render, l: DB, f: DB, call: Call)
    requires Placed(l) && f.Valid() && Room(l, call) && !call.DeleteNodeCall? && Same(l, f) &&
             Execute(r, l, call).log != []
    ensures Replayed(r, f, Execute(r, l, call))
  {
    match call
    case AddNodeCall(_) => NodeCallReplays(r, l, f, call);
    case AddNodeBatchCall(_) => NodeCallReplays(r, l, f, call);
    case UpdateNodeCall(_, _) => NodeCallReplays(r, l, f, call);
    case SetNodePropsCall(_, _) => NodeCallReplays(r, l, f, call);
    case AddEdgeCall(_, _, _, _) => EdgeCallReplays(r, l, f, call);
    case AddEdgeBatchCall(_) => EdgeCallReplays(r, l, f, call);
    case DeleteEdgeCall(_) => EdgeCallReplays(r, l, f, call);
    case UpdateEdgeCall(_, _) => EdgeCallReplays(r, l, f, call);
    case AddNodeWithLabelsCall(_, _) => LabeledCallReplays(r, l, f, call);
    case AddLabelCall(id, names) => AddLabelReplays(r, l, f, id, names);
    case RemoveLabelCall(id, names) => RemoveLabelReplays(r, l, f, id, names);
    case CreateUniqueCall(c) => UniqueReplays(r, l, f, c);
    case _ => DefinitionReplays(r, l, f, call);
  }

  lemma CallChains(r: Render, db: DB, call: Call)
    requires Placed(db) && Room(db, call) && !call.DeleteNodeCall?
    ensures Chain(r, db, Execute(r, db, call).log, Execute(r, db, call).db)
  {
    var o := Execute(r, db, call);
    assert Same(db, db) by {
      forall i | 0 <= i < |db.shards| ensures SameShard(db, db, i) { }
    }
    if o.log == [] {
      SameButIds(db, db, o.db.nextNode, o.db.nextEdge);
      NoEntryNoChange(r, db, call);
    } else {
      CallReplays(r, db, db, call);
      assert LinkAt(r, db, o.log, 0) by {
        forall f: DB | f.Valid() && Same(db, f)
          ensures ApplyOp(r, f, o.log[0].op).Some? && Same(o.log[0].after, ApplyOp(r, f, o.log[0].op).value)
        {
          CallReplays(r, db, f, call);
        }
      }
      SelfSame(o.db);
    }
  }

  lemma SelfSame(db: DB)
    ensures Same(db, db)
  {
    forall i | 0 <= i < |db.shards| ensures SameShard(db, db, i) { }
  }

  /** A call that logs nothing changes at most the next node ID. */
  lemma NoEntryNoChange(r: Render, db: DB, call: Call)
    requires db.Valid() && Room(db, call) && !call.DeleteNodeCall? && Execute(r, db, call).log == []
    ensures Execute(r, db, call).db == db.(nextNode := Execute(r, db, call).db.nextNode)
    ensures Same(db, Execute(r, db, call).db)
  {
    SelfSame(db);
    var o := Execute(r, db, call);
    assert o.db == db.(nextNode := o.db.nextNode);
    forall i | 0 <= i < |db.shards| ensures SameShard(db, o.db, i) { }
  }

  lemma DeletionChains(r: Render, db: DB, e: Edge)
    requires db.Valid()
    ensures Chain(r, db, [Logged(DeletionOf(e), EraseEdge(db, e))], EraseEdge(db, e))
  {
    var db1 := EraseEdge(db, e);
    var entry := Logged(DeletionOf(e), db1);
    assert LinkAt(r, db, [entry], 0) by {
      forall f: DB | f.Valid() && Same(db, f)
        ensures ApplyOp(r, f, entry.op).Some? && Same(db1, ApplyOp(r, f, entry.op).value)
      {
        SameErase(db, f, e);
      }
    }
    SelfSame(db1);
  }

  lemma {:induction false} EraseEdgesChains(r: Render, db: DB, es: seq<Edge>)
    requires Placed(db)
    ensures Chain(r, db, EraseEdges(db, es).log, EraseEdges(db, es).db) && Placed(EraseEdges(db, es).db)
    ensures EraseEdges(db, es).db.reg == db.reg
  {
    if es == [] {
      SelfSame(db);
    } else {
      var o := EraseEdges(db, es[..|es| - 1]);
      EraseEdgesChains(r, db, es[..|es| - 1]);
      var e := es[|es| - 1];
      PlacedErase(o.db, e);
      DeletionChains(r, o.db, e);
      ChainJoin(r, db, o.log, o.db, [Logged(DeletionOf(e), EraseEdge(o.db, e))], EraseEdge(o.db, e));
    }
  }

  lemma DeleteNodeChains(r: Render, db: DB, id: NodeID, es: seq<Edge>)
    requires Placed(db)
    ensures Chain(r, db, DeleteNode(r, db, id, es).log, DeleteNode(r, db, id, es).db)
    ensures Placed(DeleteNode(r, db, id, es).db)
  {
    EraseEdgesChains(r, db, es);
    var o := EraseEdges(db, es);
    if o.db.HasNode(id) {
      var sh := EraseNode(r, db.reg, o.db.ShardOf(id), id);
      var db1 := o.db.Commit(id, sh);
      PlacedCommit(o.db, id, sh);
      var entry := Logged(OpDeleteNode(id), db1);
      assert LinkAt(r, o.db, [entry], 0) by {
        forall f: DB | f.Valid() && Same(o.db, f)
          ensures ApplyOp(r, f, entry.op).Some? && Same(db1, ApplyOp(r, f, entry.op).value)
        {
          EraseNodeReplays(r, o.db, f, id);
        }
      }
      SelfSame(db1);
      ChainJoin(r, db, o.log, o.db, [entry], db1);
    }
  }

  lemma {:induction false} PlacedBatch(db: DB, es: seq<Edge>)
    requires Placed(db)
    ensures Placed(ApplyAddEdges(db, es))
  {
    if es != [] {
      PlacedBatch(db, es[..|es| - 1]);
      PlacedWrite(ApplyAddEdges(db, es[..|es| - 1]), es[|es| - 1]);
    }
  }

  lemma {:induction false} NodeBatchKeepsEdges(sh: Shard, nodes: seq<(NodeID, Props)>, n: nat, i: nat)
    requires n > 0
    ensures EdgeSide(PutOwnNodes(sh, nodes, n, i)) == EdgeSide(sh)
  {
    if nodes != [] {
      NodeBatchKeepsEdges(sh, nodes[..|nodes| - 1], n, i);
    }
  }

  /** The edge buckets of a shard and its edge counter. */
  function EdgeSide(sh: Shard): (map<EdgeID, Edge>, map<AdjKey, AdjVal>, map<AdjKey, AdjVal>, set<Str>, int) {
    (sh.edges, sh.adjOut, sh.adjIn, sh.edgeType, sh.edgeCount)
  }

  /** Nothing about edges has changed. */
  predicate KeepsEdges(db: DB, db': DB) {
    && |db'.shards| == |db.shards| && db'.nextEdge == db.nextEdge
    && forall i {:trigger db'.shards[i]} :: 0 <= i < |db.shards| ==> EdgeSide(db'.shards[i]) == EdgeSide(db.shards[i])
  }

  predicate IsEdgeCall(call: Call) {
    call.AddEdgeCall? || call.AddEdgeBatchCall? || call.DeleteEdgeCall? || call.UpdateEdgeCall?
  }

  lemma BatchKeepsEdges(db: DB, nodes: seq<(NodeID, Props)>)
    requires db.Valid()
    ensures KeepsEdges(db, PutNodeBatch(db, nodes))
  {
    forall i | 0 <= i < |db.shards| ensures EdgeSide(PutNodeBatch(db, nodes).shards[i]) == EdgeSide(db.shards[i]) {
      NodeBatchKeepsEdges(db.shards[i], nodes, |db.shards|, i);
    }
  }

  lemma AddNodeKeepsEdges(r: Render, db: DB, names: seq<Str>, props: Props)
    requires db.Valid() && db.nextNode + 1 < TWO64
    ensures KeepsEdges(db, AddNode(r, db, props).db) && KeepsEdges(db, AddNodeWithLabels(r, db, names, props).db)
  {
  }

  lemma UpdateKeepsEdges(r: Render, db: DB, id: NodeID, props: Props)
    requires db.Valid()
    ensures KeepsEdges(db, UpdateNode(r, db, id, props).db)
  {
  }

  lemma SetKeepsEdges(r: Render, db: DB, id: NodeID, props: Props)
    requires db.Valid()
    ensures KeepsEdges(db, SetNodeProps(r, db, id, props).db)
  {
  }

  lemma RelabelKeepsEdges(r: Render, db: DB, id: NodeID, names: seq<Str>)
    requires db.Valid()
    ensures KeepsEdges(db, AddLabel(r, db, id, names).db) && KeepsEdges(db, RemoveLabel(db, id, names).db)
  {
  }

  lemma DefinitionKeepsEdges(r: Render, db: DB, p: Str, names: seq<Str>, c: Constraint)
    requires db.Valid()
    ensures KeepsEdges(db, CreateIndex(r, db, p).db) && KeepsEdges(db, DropIndex(db, p).db)
    ensures KeepsEdges(db, CreateComposite(r, db, names).db) && KeepsEdges(db, DropComposite(db, names).db)
    ensures KeepsEdges(db, DropUnique(db, c).db)
  {
  }

  lemma UniqueKeepsEdges(r: Render, db: DB, c: Constraint)
    requires db.Valid()
    ensures KeepsEdges(db, CreateUnique(r, db, c).db)
  {
  }

  lemma AddEdgeKeepsPlaced(db: DB, source: NodeID, target: NodeID, name: Str, props: Props)
    requires Placed(db) && db.nextEdge + 1 < TWO64
    ensures Placed(AddEdge(db, source, target, name, props).db)
  {
    var db1, e := db.(nextEdge := db.nextEdge + 1), Edge(db.nextEdge + 1, source, target, name, props);
    PlacedSameEdges(db, db1);
    PlacedWrite(db1, e);
  }

  lemma AddEdgeBatchKeepsPlaced(db: DB, list: seq<Edge>)
    requires Placed(db) && db.nextEdge + |list| < TWO64
    ensures Placed(AddEdgeBatch(db, list).db)
  {
    var db1 := db.(nextEdge := db.nextEdge + |list|);
    var es := NumberedEdges(db.nextEdge + 1, list);
    PlacedSameEdges(db, db1);
    BatchIsOneByOne(db1, es);
    PlacedBatch(db1, es);
    assert AddEdgeBatch(db, list).db == PutEdgeBatch(db1, es);
  }

  lemma EdgeCallKeepsPlaced(r: Render, db: DB, call: Call)
    requires Placed(db) && Room(db, call) && IsEdgeCall(call)
    ensures Placed(Execute(r, db, call).db)
  {
    match call
    case AddEdgeCall(s, t, name, props) => AddEdgeKeepsPlaced(db, s, t, name, props);
    case AddEdgeBatchCall(list) => AddEdgeBatchKeepsPlaced(db, list);
    case DeleteEdgeCall(eid) =>
      if GetEdge(db, eid, 0).Some? {
        PlacedErase(db, GetEdge(db, eid, 0).value);
      }
    case UpdateEdgeCall(eid, props) =>
      GetEdgeIsHome(db, eid, 0);
      if GetEdge(db, eid, 0).Some? {
        var e := GetEdge(db, eid, 0).value;
        PlacedCommit(db, e.from, UpdateEdge(db, eid, props).db.ShardOf(e.from));
      }
  }

  /** Every call keeps each edge in the shard of its source. */
  lemma CallKeepsPlaced(r: Render, db: DB, call: Call)
    requires Placed(db) && Room(db, call)
    ensures Placed(Execute(r, db, call).db)
  {
    if IsEdgeCall(call) {
      EdgeCallKeepsPlaced(r, db, call);
    } else if call.DeleteNodeCall? {
      DeleteNodeChains(r, db, call.id, call.listed);
    } else {
      OtherCallsKeepEdges(r, db, call);
      PlacedSameEdges(db, Execute(r, db, call).db);
    }
  }

  lemma OtherCallsKeepEdges(r: Render, db: DB, call: Call)
    requires db.Valid() && Room(db, call) && !IsEdgeCall(call) && !call.DeleteNodeCall?
    ensures KeepsEdges(db, Execute(r, db, call).db)
  {
    match call
    case AddNodeCall(props) => AddNodeKeepsEdges(r, db, [], props);
    case AddNodeBatchCall(list) => BatchKeepsEdges(db.(nextNode := db.nextNode + |list|),
                                                   Numbered(db.nextNode + 1, list));
    case UpdateNodeCall(id, props) => UpdateKeepsEdges(r, db, id, props);
    case SetNodePropsCall(id, props) => SetKeepsEdges(r, db, id, props);
    case AddNodeWithLabelsCall(names, props) => AddNodeKeepsEdges(r, db, names, props);
    case AddLabelCall(id, names) => RelabelKeepsEdges(r, db, id, names);
    case RemoveLabelCall(id, names) => RelabelKeepsEdges(r, db, id, names);
    case CreateIndexCall(p) => DefinitionKeepsEdges(r, db, p, [], Constraint([], []));
    case DropIndexCall(p) => DefinitionKeepsEdges(r, db, p, [], Constraint([], []));
    case CreateCompositeCall(names) => DefinitionKeepsEdges(r, db, [], names, Constraint([], []));
    case DropCompositeCall(names) => DefinitionKeepsEdges(r, db, [], names, Constraint([], []));
    case CreateUniqueCall(c) => UniqueKeepsEdges(r, db, c);
    case DropUniqueCall(c) => DefinitionKeepsEdges(r, db, [], [], c);
  }

  // ---- runs ------------------------------------------------------------------------------------

  /** There are IDs left for every call of the run. */
  ghost predicate RoomFor(r: Render, db: DB, calls: seq<Call>)
    requires db.Valid()
    decreases |calls|
  {
    calls == [] || (Room(db, calls[0]) && Execute(r, db, calls[0]).db.Valid() &&
                    RoomFor(r, Execute(r, db, calls[0]).db, calls[1..]))
  }

  /** The leader's state and log after a run, failed calls included. */
  ghost function Run(r: Render, db: DB, calls: seq<Call>): (DB, seq<Logged>)
    requires db.Valid() && RoomFor(r, db, calls)
    decreases |calls|
  {
    if calls == [] then (db, [])
    else
      var o := Execute(r, db, calls[0]);
      var (end, log) := Run(r, o.db, calls[1..]);
      (end, o.log + log)
  }

  lemma {:induction false} RunChains(r: Render, db: DB, calls: seq<Call>)
    requires Placed(db) && RoomFor(r, db, calls)
    ensures Chain(r, db, Run(r, db, calls).1, Run(r, db, calls).0)
    decreases |calls|
  {
    if calls == [] {
      SelfSame(db);
    } else {
      var o := Execute(r, db, calls[0]);
      CallKeepsPlaced(r, db, calls[0]);
      if calls[0].DeleteNodeCall? {
        DeleteNodeChains(r, db, calls[0].id, calls[0].listed);
      } else {
        CallChains(r, db, calls[0]);
      }
      RunChains(r, o.db, calls[1..]);
      ChainJoin(r, db, o.log, o.db, Run(r, o.db, calls[1..]).1, Run(r, db, calls).0);
    }
  }

  /** Deliveries to Apply: the next entry, or any earlier one again. The first entry has LSN `base` + 1. */
  ghost predicate InOrder(log: seq<Logged>, base: nat, applied: nat, delivered: seq<nat>)
    decreases |delivered|
  {
    delivered == [] ||
    (1 <= delivered[0] <= |log| + base && delivered[0] <= applied + 1
     && InOrder(log, base, if delivered[0] == applied + 1 then applied + 1 else applied, delivered[1..]))
  }

  ghost function ApplyAll(r: Render, f: Follower, log: seq<Logged>, base: nat, delivered: seq<nat>): Follower
    requires f.db.Valid()
    decreases |delivered|
  {
    if delivered == [] then f
    else
      var d := delivered[0];
      var f' := if base < d <= base + |log| then Apply(r, f, d, log[d - base - 1].op) else f;
      if f'.db.Valid() then ApplyAll(r, f', log, base, delivered[1..]) else f'
  }

  /** The follower stands where the leader stood after entry number `k`. */
  ghost predicate CaughtUp(start: DB, log: seq<Logged>, base: nat, f: Follower) {
    && f.db.Valid() && base <= f.lsn <= base + |log|
    && Same(Before(start, log, f.lsn - base), f.db)
  }

  lemma {:induction false} DeliveryKeepsUp(r: Render, start: DB, log: seq<Logged>, end: DB, base: nat, f: Follower,
      delivered: seq<nat>)
    requires Chain(r, start, log, end) && CaughtUp(start, log, base, f) && InOrder(log, base, f.lsn, delivered)
    ensures CaughtUp(start, log, base, ApplyAll(r, f, log, base, delivered))
    ensures forall d :: d in delivered ==> d <= ApplyAll(r, f, log, base, delivered).lsn
    ensures ApplyAll(r, f, log, base, delivered).lsn > f.lsn ==> ApplyAll(r, f, log, base, delivered).lsn in delivered
    ensures f.lsn <= ApplyAll(r, f, log, base, delivered).lsn
    decreases |delivered|
  {
    if delivered != [] {
      var d := delivered[0];
      assert delivered == [d] + delivered[1..];
      if d == f.lsn + 1 {
        assert LinkAt(r, start, log, d - base - 1);
        var f' := Apply(r, f, d, log[d - base - 1].op);
        DeliveryKeepsUp(r, start, log, end, base, f', delivered[1..]);
      } else {
        DeliveryKeepsUp(r, start, log, end, base, f, delivered[1..]);
      }
    }
  }

  /** What a follower holds that was given entries of a log whose states lead from `start` to `end`. */
  ghost predicate Follows(start: DB, log: seq<Logged>, end: DB, base: nat, f: Follower, delivered: seq<nat>) {
    && CaughtUp(start, log, base, f)
    && (forall d :: d in delivered ==> d <= f.lsn) && (f.lsn == base || f.lsn in delivered)
    && (f.lsn == base + |log| ==> Same(end, f.db))
  }

  lemma ChainIsFollowed(r: Render, start: DB, log: seq<Logged>, end: DB, base: nat, f: DB, delivered: seq<nat>)
    requires Chain(r, start, log, end) && f.Valid() && Same(start, f) && InOrder(log, base, base, delivered)
    ensures Follows(start, log, end, base, ApplyAll(r, Follower(f, base), log, base, delivered), delivered)
  {
    DeliveryKeepsUp(r, start, log, end, base, Follower(f, base), delivered);
    var f' := ApplyAll(r, Follower(f, base), log, base, delivered);
    if f'.lsn == base + |log| {
      var last := Before(start, log, |log|);
      SameSymmetric(last, end);
      SameTransitive(end, last, f'.db);
    }
  }

  /**
   For every run of leader calls from a state with its edges in place, and a follower that
   starts equal to it at LSN `base`: whatever prefix of the log has been delivered in
   order, with any re-deliveries between, the follower's applied LSN is the highest
   delivered and its buckets are the leader's right after that entry.
   */
  lemma ReplaySimulatesLeader(r: Render, start: DB, calls: seq<Call>, base: nat, f: DB, delivered: seq<nat>)
    requires Placed(start) && RoomFor(r, start, calls) && f.Valid() && Same(start, f)
    requires InOrder(Run(r, start, calls).1, base, base, delivered)
    ensures
      var log := Run(r, start, calls).1;
      var f' := ApplyAll(r, Follower(f, base), log, base, delivered);
      && CaughtUp(start, log, base, f')
      && (forall d :: d in delivered ==> d <= f'.lsn) && (f'.lsn == base || f'.lsn in delivered)
      && (f'.lsn == base + |log| ==> Same(Run(r, start, calls).0, f'.db))
  {
    RunChains(r, start, calls);
    var (end, log) := Run(r, start, calls);
    ChainIsFollowed(r, start, log, end, base, f, delivered);
  }

  /** Where no value is duplicated, the follower's rebuilt unique index is the one the leader built. */
  lemma UniqueRebuilt(r: Render, db: DB, c: Constraint)
    requires db.Valid() && RegistryKey(c) !in db.reg.unique && !Duplicated(r, c, db)
    ensures ApplyCreateUnique(r, db, c) == CreateUnique(r, db, c).db
  {
    var visited := U.ScanAgrees(r, c, db);
    var seen, spec := U.LastSeen(r, c, db.shards, |db.shards|), ApplyCreateUnique(r, db, c);
    forall i | 0 <= i < |db.shards| ensures U.EntriesAt(spec.shards[i], db.shards[i], c, seen, |db.shards|, i) {
      U.EntriesFrom(db.shards[i], c, seen, |db.shards|, i);
    }
    U.EntriesAreBuilt(r, c, db, visited, seen, spec.shards);
  }
}
