/**
 The leader's write methods as they run: transactions opened, changed by loops and
 committed or dropped, counters moved, entries appended to the log. Each method ends in
 the state that the corresponding function of Leader gives and logs that function's entries.
 */
module Database {
  import opened Types
  import opened Keys
  import opened Store
  import L = Leader
  import opened Transaction
  import Batches
  import Adjacency
  import EdgeReads
  import NodeState
  import D = Definitions
  import U = UniqueBuild

  function Ops(log: seq<L.Logged>): seq<Op> {
    if log == [] then [] else Ops(log[..|log| - 1]) + [log[|log| - 1].op]
  }

  lemma OpsOne(l: L.Logged)
    ensures Ops([l]) == [l.op]
  {
    assert [l][..0] == [];
  }

  // ---- batches as they are read back ------------------------------------------------------------------

  /** The record under `ids[k]` is `list[k]`. */
  ghost predicate NodesStored(db: DB, ids: seq<NodeID>, list: seq<Props>) {
    db.Valid() && |ids| == |list| && forall k :: 0 <= k < |ids| ==>
      db.HasNode(ids[k]) && db.ShardOf(ids[k]).nodes[ids[k]] == list[k]
  }

  ghost predicate Unlabelled(db: DB, ids: seq<NodeID>) {
    db.Valid() && forall k :: 0 <= k < |ids| ==> Labels(db.ShardOf(ids[k]), ids[k]) == []
  }

  /** The entry pairs `ids[k]` with `list[k]`. */
  ghost predicate NodesLogged(op: Op, ids: seq<NodeID>, list: seq<Props>) {
    op.OpAddNodeBatch? && |op.nodes| == |ids| == |list| && forall k :: 0 <= k < |ids| ==>
      op.nodes[k] == (ids[k], list[k])
  }

  lemma NodeBatchReads(db: DB, list: seq<Props>, ids: seq<NodeID>)
    requires db.Valid() && db.nextNode + |list| < TWO64
    requires |ids| == |list| && forall k :: 0 <= k < |ids| ==> ids[k] == db.nextNode + 1 + k
    ensures var o := L.AddNodeBatch(db, list);
            && NodesStored(o.db, ids, list) && (NodeState.RecordsOk(db) ==> Unlabelled(o.db, ids))
            && NodesLogged(o.log[0].op, ids, list)
  {
    var o := L.AddNodeBatch(db, list);
    forall k | 0 <= k < |ids|
      ensures o.db.HasNode(ids[k]) && o.db.ShardOf(ids[k]).nodes[ids[k]] == list[k]
      ensures NodeState.RecordsOk(db) ==> Labels(o.db.ShardOf(ids[k]), ids[k]) == []
      ensures o.log[0].op.nodes[k] == (ids[k], list[k])
    {
      NodeState.BatchIsRead(db, list, k);
    }
  }

  /** `e` under the given ID. */
  ghost predicate IsItem(got: Edge, id: EdgeID, e: Edge) {
    got.id == id && got.from == e.from && got.to == e.to && got.lbl == e.lbl && got.props == e.props
  }

  /** The record under `ids[k]`, in the shard of its source, is `list[k]`. */
  ghost predicate EdgesStored(db: DB, ids: seq<EdgeID>, list: seq<Edge>) {
    db.Valid() && |ids| == |list| && forall k :: 0 <= k < |ids| ==>
      var edges := db.ShardOf(list[k].from).edges;
      ids[k] in edges && IsItem(edges[ids[k]], ids[k], list[k])
  }

  ghost predicate EdgesLogged(op: Op, ids: seq<EdgeID>, list: seq<Edge>) {
    op.OpAddEdgeBatch? && |op.edges| == |ids| == |list| && forall k :: 0 <= k < |ids| ==>
      IsItem(op.edges[k], ids[k], list[k])
  }

  lemma EdgeBatchReads(db: DB, list: seq<Edge>, ids: seq<EdgeID>)
    requires db.Valid() && db.nextEdge + |list| < TWO64
    requires |ids| == |list| && forall k :: 0 <= k < |ids| ==> ids[k] == db.nextEdge + 1 + k
    ensures var o := L.AddEdgeBatch(db, list); EdgesStored(o.db, ids, list) && EdgesLogged(o.log[0].op, ids, list)
  {
    var es, n := L.NumberedEdges(db.nextEdge + 1, list), |db.shards|;
    forall k | 0 <= k < |ids|
      ensures var edges := L.AddEdgeBatch(db, list).db.ShardOf(list[k].from).edges;
              ids[k] in edges && edges[ids[k]] == es[k]
    {
      Adjacency.OwnEdgeAt(db.ShardOf(list[k].from), es, n, list[k].from % n, db.nextEdge + 1, k);
    }
  }

  class Database {
    const r: Render
    var shards: seq<Shard>
    var nextNode: uint64
    var nextEdge: uint64
    var reg: Registry
    var log: seq<Op>

    ghost predicate Valid()
      reads this
    {
      |shards| > 0
    }

    ghost function View(): DB
      reads this
    {
      DB(shards, nextNode, nextEdge, reg)
    }

    /** The state and the log after an outcome of the specification. */
    ghost predicate Reached(o: L.Outcome, was: seq<Op>)
      reads this
    {
      View() == o.db && log == was + Ops(o.log)
    }

    /** The node's record, in the shard that owns the ID. */
    ghost predicate Stores(id: NodeID, props: Props)
      reads this
    {
      |shards| > 0 && id in shards[id % |shards|].nodes && shards[id % |shards|].nodes[id] == props
    }

    /** The edge's record, in the shard of its source. */
    ghost predicate StoresEdge(e: Edge)
      reads this
    {
      |shards| > 0 && e.id in shards[e.from % |shards|].edges && shards[e.from % |shards|].edges[e.id] == e
    }

    constructor (r: Render, n: nat)
      requires n > 0
      ensures Valid() && this.r == r && log == [] && View() == NewDB(n)
    {
      this.r := r;
      shards := NewDB(n).shards;
      nextNode, nextEdge, reg, log := 0, 0, Registry({}, map[], map[]), [];
    }

    // ---- nodes ------------------------------------------------------------------------------------

    method AddNode(props: Props) returns (id: NodeID)
      requires Valid() && nextNode + 1 < TWO64
      modifies this
      ensures Valid() && id == old(nextNode) + 1 && Reached(L.AddNode(r, old(View()), props), old(log))
      ensures nextNode == id && Stores(id, props) && log == old(log) + [OpAddNode(id, props)]
    {
      nextNode := nextNode + 1;
      id := nextNode;
      var i := id % |shards|;
      var tx := new Tx(shards[i]);
      tx.sh := tx.sh.(nodes := tx.sh.nodes[id := props]);
      tx.IndexNodeProps(r, reg, id, props);
      shards := shards[i := tx.sh.(nodeCount := tx.sh.nodeCount + 1)];
      log := log + [OpAddNode(id, props)];
    }

    method UpdateNode(id: NodeID, props: Props) returns (ok: bool)
      requires Valid()
      modifies this
      ensures Valid() && ok == L.UpdateNode(r, old(View()), id, props).ok &&
              Reached(L.UpdateNode(r, old(View()), id, props), old(log))
    {
      var i := id % |shards|;
      var tx := new Tx(shards[i]);
      if id !in tx.sh.nodes {
        return false;
      }
      var was := tx.sh.nodes[id];
      tx.UnindexNodeProps(r, reg, id, was);
      var merged := was + props;
      var names := Labels(tx.sh, id);
      tx.DropUniqueKeys(r, reg, id, names, merged);
      var bad := tx.CheckUnique(r, reg, names, merged, id);
      if bad {
        return false;
      }
      tx.sh := tx.sh.(nodes := tx.sh.nodes[id := merged]);
      tx.IndexNodeProps(r, reg, id, merged);
      tx.PutUnique(r, reg, id, names, merged);
      shards := shards[i := tx.sh];
      log := log + [OpUpdateNode(id, props)];
      return true;
    }

    method SetNodeProps(id: NodeID, props: Props) returns (ok: bool)
      requires Valid()
      modifies this
      ensures Valid() && ok == L.SetNodeProps(r, old(View()), id, props).ok &&
              Reached(L.SetNodeProps(r, old(View()), id, props), old(log))
    {
      var i := id % |shards|;
      var tx := new Tx(shards[i]);
      if id !in tx.sh.nodes {
        return false;
      }
      var was := tx.sh.nodes[id];
      tx.UnindexNodeProps(r, reg, id, was);
      var names := Labels(tx.sh, id);
      tx.DropUniqueKeys(r, reg, id, names, was);
      var bad := tx.CheckUnique(r, reg, names, props, id);
      if bad {
        return false;
      }
      tx.sh := tx.sh.(nodes := tx.sh.nodes[id := props]);
      tx.IndexNodeProps(r, reg, id, props);
      tx.PutUnique(r, reg, id, names, props);
      shards := shards[i := tx.sh];
      log := log + [OpSetNodeProps(id, props)];
      return true;
    }

    // ---- labels -------------------------------------------------------------------------------------

    method AddNodeWithLabels(names: seq<Str>, props: Props) returns (id: Option<NodeID>)
      requires Valid() && nextNode + 1 < TWO64
      modifies this
      ensures Valid() &&
              id == if L.AddNodeWithLabels(r, old(View()), names, props).ok then Some(old(nextNode) + 1) else None
      ensures Reached(L.AddNodeWithLabels(r, old(View()), names, props), old(log))
      ensures nextNode == old(nextNode) + 1 && (id.None? ==> shards == old(shards) && log == old(log))
      ensures id.Some? ==>
                && Stores(id.value, props) && log == old(log) + [OpAddNodeWithLabels(id.value, names, props)]
                && (names != [] ==> Labels(shards[id.value % |shards|], id.value) == names)
    {
      nextNode := nextNode + 1;
      var i := nextNode % |shards|;
      var sh := NewNodeTx(shards[i], nextNode, names, props);
      if sh.None? {
        return None;
      }
      shards := shards[i := sh.value.(nodeCount := sh.value.nodeCount + 1)];
      log := log + [OpAddNodeWithLabels(nextNode, names, props)];
      return Some(nextNode);
    }

    /** The transaction of AddNodeWithLabels; None on a constraint violation. */
    method NewNodeTx(sh: Shard, id: NodeID, names: seq<Str>, props: Props) returns (sh': Option<Shard>)
      ensures sh'.None? <==> Violates(r, reg, sh, names, props, 0)
      ensures sh'.Some? ==>
                var sh1 := Index(r, reg, sh.(nodes := sh.nodes[id := props]), id, props);
                var sh2 := if names == [] then sh1
                  else sh1.(labels := sh1.labels[id := names], labelIdx := sh1.labelIdx + LabelKeys(names, id));
                sh'.value == IndexUnique(r, reg, sh2, id, names, props)
    {
      var tx := new Tx(sh);
      var bad := tx.CheckUnique(r, reg, names, props, 0);
      if bad {
        return None;
      }
      tx.sh := tx.sh.(nodes := tx.sh.nodes[id := props]);
      tx.IndexNodeProps(r, reg, id, props);
      if names != [] {
        tx.sh := tx.sh.(labels := tx.sh.labels[id := names]);
        tx.IndexLabels(names, id);
      }
      tx.PutUnique(r, reg, id, names, props);
      return Some(tx.sh);
    }

    method AddLabel(id: NodeID, names: seq<Str>) returns (ok: bool)
      requires Valid()
      modifies this
      ensures Valid() && ok == L.AddLabel(r, old(View()), id, names).ok &&
              Reached(L.AddLabel(r, old(View()), id, names), old(log))
    {
      if names == [] {
        return true;
      }
      var i := id % |shards|;
      var tx := new Tx(shards[i]);
      if id !in tx.sh.nodes {
        return false;
      }
      var existing := Labels(tx.sh, id);
      var added := MissingLabels(existing, names);
      if added != [] {
        var bad := tx.CheckUnique(r, reg, added, tx.sh.nodes[id], id);
        if bad {
          return false;
        }
        tx.sh := tx.sh.(labels := tx.sh.labels[id := existing + added]);
        tx.IndexLabels(added, id);
        tx.PutUnique(r, reg, id, added, tx.sh.nodes[id]);
        shards := shards[i := tx.sh];
      }
      log := log + [OpAddLabel(id, names)];
      return true;
    }

    method RemoveLabel(id: NodeID, names: seq<Str>) returns (ok: bool)
      requires Valid()
      modifies this
      ensures Valid() && ok == L.RemoveLabel(old(View()), id, names).ok &&
              Reached(L.RemoveLabel(old(View()), id, names), old(log))
    {
      if names == [] {
        return true;
      }
      var i := id % |shards|;
      var tx := new Tx(shards[i]);
      if id !in tx.sh.nodes {
        return false;
      }
      var kept := RemainingLabels(Labels(tx.sh, id), names);
      if kept == [] {
        tx.sh := tx.sh.(labels := tx.sh.labels - {id});
      } else {
        tx.sh := tx.sh.(labels := tx.sh.labels[id := kept]);
      }
      tx.UnindexLabels(names, id);
      shards := shards[i := tx.sh];
      log := log + [OpRemoveLabel(id, names)];
      return true;
    }

    // ---- edges --------------------------------------------------------------------------------------

    method AddEdge(source: NodeID, target: NodeID, name: Str, props: Props) returns (id: Option<EdgeID>)
      requires Valid() && nextEdge + 1 < TWO64
      modifies this
      ensures Valid() &&
              id == if L.AddEdge(old(View()), source, target, name, props).ok then Some(old(nextEdge) + 1) else None
      ensures Reached(L.AddEdge(old(View()), source, target, name, props), old(log))
      ensures id.Some? <==> old(View().HasNode(source) && View().HasNode(target))
      ensures id.None? ==> View() == old(View()) && log == old(log)
      ensures id.Some? ==>
                var e := Edge(id.value, source, target, name, props);
                nextEdge == id.value && StoresEdge(e) && log == old(log) + [OpAddEdge(e)]
    {
      var i, j := source % |shards|, target % |shards|;
      if source !in shards[i].nodes || target !in shards[j].nodes {
        return None;
      }
      nextEdge := nextEdge + 1;
      var e := Edge(nextEdge, source, target, name, props);
      StoreEdge(e);
      log := log + [OpAddEdge(e)];
      return Some(nextEdge);
    }

    /** One transaction if both ends share a shard, else one per shard. */
    method StoreEdge(e: Edge)
      requires Valid()
      modifies this
      ensures Valid() && View() == L.WriteEdge(old(View()), e) && log == old(log)
    {
      var i, j := e.from % |shards|, e.to % |shards|;
      var tx := new Tx(shards[i]);
      tx.PutOutgoing(e);
      if i == j {
        tx.PutIncomingEntry(e);
        shards := shards[i := tx.sh.(edgeCount := tx.sh.edgeCount + 1)];
      } else {
        shards := shards[i := tx.sh.(edgeCount := tx.sh.edgeCount + 1)];
        var tx2 := new Tx(shards[j]);
        tx2.PutIncomingEntry(e);
        shards := shards[j := tx2.sh];
      }
    }

    /** getEdge: the shards in turn. */
    method GetEdge(eid: EdgeID) returns (e: Option<Edge>)
      ensures e == L.GetEdge(View(), eid, 0)
    {
      for i := 0 to |shards|
        invariant L.GetEdge(View(), eid, 0) == L.GetEdge(View(), eid, i)
      {
        if eid in shards[i].edges {
          return Some(shards[i].edges[eid]);
        }
      }
      return None;
    }

    /** deleteEdgeInternal, logged also when called by DeleteNode. */
    method DeleteEdgeInternal(e: Edge)
      requires Valid()
      modifies this
      ensures Valid() && View() == L.EraseEdge(old(View()), e) && log == old(log) + [L.DeletionOf(e)]
    {
      var i, j := e.from % |shards|, e.to % |shards|;
      var tx := new Tx(shards[i]);
      tx.DeleteOutgoing(e);
      shards := shards[i := tx.sh.(edgeCount := tx.sh.edgeCount - 1)];
      var tx2 := new Tx(shards[j]);
      tx2.DeleteIncomingEntry(e);
      shards := shards[j := tx2.sh];
      log := log + [OpDeleteEdge(e.id, e.from, e.to, e.lbl)];
    }

    method DeleteEdge(eid: EdgeID) returns (ok: bool)
      requires Valid()
      modifies this
      ensures Valid() && ok == L.DeleteEdge(old(View()), eid).ok && Reached(L.DeleteEdge(old(View()), eid), old(log))
    {
      var e := GetEdge(eid);
      if e.None? {
        return false;
      }
      DeleteEdgeInternal(e.value);
      return true;
    }

    method UpdateEdge(eid: EdgeID, props: Props) returns (ok: bool)
      requires Valid()
      modifies this
      ensures Valid() && ok == L.UpdateEdge(old(View()), eid, props).ok &&
              Reached(L.UpdateEdge(old(View()), eid, props), old(log))
    {
      var e := GetEdge(eid);
      if e.None? {
        return false;
      }
      var i := e.value.from % |shards|;
      var tx := new Tx(shards[i]);
      tx.sh := tx.sh.(edges := tx.sh.edges[eid := e.value.(props := e.value.props + props)]);
      shards := shards[i := tx.sh];
      log := log + [OpUpdateEdge(eid, e.value.from, props)];
      return true;
    }

    // ---- batches -----------------------------------------------------------------------------------

    /** AddNodeBatch: IDs first, then one transaction per shard, then one log entry. */
    method AddNodeBatch(list: seq<Props>) returns (ids: seq<NodeID>)
      requires Valid() && nextNode + |list| < TWO64
      modifies this
      ensures |ids| == |list| && forall k :: 0 <= k < |ids| ==> ids[k] == old(nextNode) + 1 + k
      ensures Valid() && Reached(L.AddNodeBatch(old(View()), list), old(log))
      ensures nextNode == old(nextNode) + |list| && NodesStored(View(), ids, list)
      ensures NodeState.RecordsOk(old(View())) ==> Unlabelled(View(), ids)
      ensures |log| == |old(log)| + 1 && log[..|old(log)|] == old(log) && NodesLogged(log[|old(log)|], ids, list)
    {
      var nodes;
      nodes, ids := NumberNodes(list);
      ghost var db := View();
      shards := Batches.WriteNodeBatch(shards, nodes);
      Batches.NodeBatchWritten(db, nodes, shards);
      log := log + [OpAddNodeBatch(nodes)];
      NodeBatchReads(old(View()), list, ids);
    }

    /** The items under the next IDs. */
    method NumberNodes(list: seq<Props>) returns (nodes: seq<(NodeID, Props)>, ids: seq<NodeID>)
      requires nextNode + |list| < TWO64
      modifies this`nextNode
      ensures nextNode == old(nextNode) + |list| && nodes == L.Numbered(old(nextNode) + 1, list)
      ensures |ids| == |list| && forall k :: 0 <= k < |ids| ==> ids[k] == old(nextNode) + 1 + k
    {
      nodes, ids := [], [];
      for j := 0 to |list|
        invariant nextNode == old(nextNode) + j && |nodes| == |ids| == j
        invariant forall k :: 0 <= k < j ==> ids[k] == old(nextNode) + 1 + k
        invariant forall k :: 0 <= k < j ==> nodes[k] == (old(nextNode) + 1 + k, list[k])
      {
        nextNode := nextNode + 1;
        nodes, ids := nodes + [(nextNode, list[j])], ids + [nextNode];
      }
    }

    /** AddEdgeBatch: IDs, outgoing sides by source shard, incoming sides by target shard. */
    method AddEdgeBatch(list: seq<Edge>) returns (ids: seq<EdgeID>)
      requires Valid() && nextEdge + |list| < TWO64
      modifies this
      ensures |ids| == |list| && forall k :: 0 <= k < |ids| ==> ids[k] == old(nextEdge) + 1 + k
      ensures Valid() && Reached(L.AddEdgeBatch(old(View()), list), old(log))
      ensures nextEdge == old(nextEdge) + |list| && EdgesStored(View(), ids, list)
      ensures |log| == |old(log)| + 1 && log[..|old(log)|] == old(log) && EdgesLogged(log[|old(log)|], ids, list)
    {
      var es := NumberEdges(list);
      ghost var db := View();
      var mid := Batches.WriteEdgeBatch(shards, es);
      shards := Batches.WriteIncomingBatch(mid, es);
      Batches.EdgeBatchWritten(db, es, mid, shards);
      log := log + [OpAddEdgeBatch(es)];
      ids := Adjacency.Ids(es);
      EdgeBatchReads(old(View()), list, ids);
    }

    /** The edges under the next IDs. */
    method NumberEdges(list: seq<Edge>) returns (es: seq<Edge>)
      requires nextEdge + |list| < TWO64
      modifies this`nextEdge
      ensures nextEdge == old(nextEdge) + |list| && es == L.NumberedEdges(old(nextEdge) + 1, list)
    {
      es := [];
      for j := 0 to |list|
        invariant nextEdge == old(nextEdge) + j && |es| == j && forall k :: 0 <= k < j ==>
                    es[k] == list[k].(id := old(nextEdge) + 1 + k)
      {
        nextEdge := nextEdge + 1;
        es := es + [list[j].(id := nextEdge)];
      }
    }

    // ---- DeleteNode ----------------------------------------------------------------------------------

    /** The cascade: every listed edge in turn, each with its own log entry. */
    method DeleteEdges(es: seq<Edge>)
      requires Valid()
      modifies this
      ensures Valid() && Reached(L.EraseEdges(old(View()), es), old(log))
    {
      for k := 0 to |es|
        invariant Valid() && Reached(L.EraseEdges(old(View()), es[..k]), old(log))
      {
        DeleteEdgeInternal(es[k]);
        assert es[..k + 1][..k] == es[..k];
        ghost var o, o' := L.EraseEdges(old(View()), es[..k]), L.EraseEdges(old(View()), es[..k + 1]);
        assert o'.log[..|o'.log| - 1] == o.log;
      }
      assert es[..|es|] == es;
    }

    /** The node itself, if it exists: its transaction, counter and log entry. */
    method DeleteNodeRecord(id: NodeID) returns (ok: bool)
      requires Valid()
      modifies this
      ensures Valid() && ok == old(View().HasNode(id))
      ensures !ok ==> View() == old(View()) && log == old(log)
      ensures ok ==> View() == old(View()).Commit(id, L.EraseNode(r, old(reg), old(View()).ShardOf(id), id))
      ensures ok ==> log == old(log) + [OpDeleteNode(id)]
    {
      var i := id % |shards|;
      if id !in shards[i].nodes {
        return false;
      }
      var sh := EraseNodeTx(shards[i], id);
      shards := shards[i := sh];
      log := log + [OpDeleteNode(id)];
      return true;
    }

    /** DeleteNode reads the node's edges in both directions, deletes them, then the node. */
    method DeleteNode(id: NodeID, ghost G: Adjacency.Edges) returns (ok: bool, ghost es: seq<Edge>)
      requires Adjacency.Mirrors(View(), G)
      modifies this
      ensures Valid() && Adjacency.Listing(G, id, es)
      ensures ok == L.DeleteNode(r, old(View()), id, es).ok && Reached(L.DeleteNode(r, old(View()), id, es), old(log))
    {
      var db := DB(shards, nextNode, nextEdge, reg);
      var listed := EdgeReads.GetEdgesForNode(db, G, id, Both);
      es := listed;
      DeleteEdges(listed);
      ghost var o := L.EraseEdges(db, listed);
      ok := DeleteNodeRecord(id);
      DeleteNodeIs(db, id, listed);
    }

    /** The specification of DeleteNode in terms of its two phases. */
    lemma DeleteNodeIs(db: DB, id: NodeID, es: seq<Edge>)
      requires db.Valid()
      ensures var o, whole := L.EraseEdges(db, es), L.DeleteNode(r, db, id, es);
              && o.db.reg == db.reg && whole.ok == o.db.HasNode(id)
              && (!whole.ok ==> whole.db == o.db && whole.log == o.log)
              && (whole.ok ==>
                  whole.db == o.db.Commit(id, L.EraseNode(r, o.db.reg, o.db.ShardOf(id), id)) &&
                      Ops(whole.log) == Ops(o.log) + [OpDeleteNode(id)])
    {
      SameRegistry(db, es);
      var o, whole := L.EraseEdges(db, es), L.DeleteNode(r, db, id, es);
      assert whole.ok ==> whole.log[..|whole.log| - 1] == o.log;
    }

    lemma {:induction false} SameRegistry(db: DB, es: seq<Edge>)
      requires db.Valid()
      ensures L.EraseEdges(db, es).db.reg == db.reg
    {
      if es != [] {
        SameRegistry(db, es[..|es| - 1]);
      }
    }

    /** The node's own transaction. */
    method EraseNodeTx(sh: Shard, id: NodeID) returns (sh': Shard)
      requires id in sh.nodes
      ensures sh' == L.EraseNode(r, reg, sh, id)
    {
      var tx := new Tx(sh);
      var props, names := sh.nodes[id], Labels(sh, id);
      tx.UnindexNodeProps(r, reg, id, props);
      tx.DropUniqueKeys(r, reg, id, names, props);
      tx.UnindexLabels(names, id);
      if names != [] {
        tx.sh := tx.sh.(labels := tx.sh.labels - {id});
      }
      sh' := tx.sh.(nodes := tx.sh.nodes - {id}, nodeCount := tx.sh.nodeCount - 1);
    }

    // ---- definitions --------------------------------------------------------------------------------

    method CreateIndex(p: Str)
      modifies this
      ensures Reached(L.CreateIndex(r, old(View()), p), old(log))
      ensures reg == old(reg).(indexed := old(reg).indexed + {p})
    {
      shards := D.CreateIndexAll(r, p, shards);
      D.UpToAll(old(View()), shards, sh => BuildProp(r, p, sh));
      reg := reg.(indexed := reg.indexed + {p});
      log := log + [OpCreateIndex(p)];
    }

    method DropIndex(p: Str)
      modifies this
      ensures Reached(L.DropIndex(old(View()), p), old(log))
      ensures reg == old(reg).(indexed := old(reg).indexed - {p})
    {
      shards := D.DropIndexAll(p, shards);
      D.UpToAll(old(View()), shards, sh => ClearProp(p, sh));
      reg := reg.(indexed := reg.indexed - {p});
      log := log + [OpDropIndex(p)];
    }

    /** ReIndex: drop, then create. */
    method ReIndex(p: Str)
      modifies this
      ensures View() == L.CreateIndex(r, L.DropIndex(old(View()), p).db, p).db &&
              log == old(log) + [OpDropIndex(p), OpCreateIndex(p)]
    {
      DropIndex(p);
      OpsOne(L.DropIndex(old(View()), p).log[0]);
      ghost var mid := View();
      CreateIndex(p);
      OpsOne(L.CreateIndex(r, mid, p).log[0]);
    }

    method CreateComposite(names: seq<Str>) returns (ok: bool)
      modifies this
      ensures ok <==> |names| >= 2
      ensures reg == if ok then old(reg).(composite := old(reg).composite[L.DefKey(L.Definition(names)) :=
                                                                          L.Definition(names)]) else old(reg)
      ensures ok == L.CreateComposite(r, old(View()), names).ok &&
              Reached(L.CreateComposite(r, old(View()), names), old(log))
    {
      if |names| < 2 {
        return false;
      }
      var def := L.Definition(names);
      shards := D.CreateCompositeAll(r, def, shards);
      D.UpToAll(old(View()), shards, sh => BuildComp(r, def, sh));
      reg := reg.(composite := reg.composite[L.DefKey(def) := def]);
      log := log + [OpCreateComposite(names)];
      return true;
    }

    method DropComposite(names: seq<Str>)
      modifies this
      ensures Reached(L.DropComposite(old(View()), names), old(log))
    {
      var def := L.Definition(names);
      shards := D.DropCompositeAll(def, shards);
      D.UpToAll(old(View()), shards, sh => ClearComp(def, sh));
      reg := reg.(composite := reg.composite - {L.DefKey(def)});
      log := log + [OpDropComposite(names)];
    }

    /** CreateUniqueConstraint: scan, refuse on a duplicate, write the entries, register. */
    method CreateUnique(c: Constraint) returns (ok: bool)
      requires Valid()
      modifies this
      ensures ok ==> RegistryKey(c) in reg.unique
      ensures ok && RegistryKey(c) !in old(reg).unique ==> reg.unique[RegistryKey(c)] == c
      ensures !ok ==> View() == old(View()) && log == old(log)
      ensures Valid() && ok == L.CreateUnique(r, old(View()), c).ok &&
              Reached(L.CreateUnique(r, old(View()), c), old(log))
    {
      if RegistryKey(c) in reg.unique {
        return true;
      }
      var db := DB(shards, nextNode, nextEdge, reg);
      var seen, dup, visited := U.ScanAll(r, c, db);
      if dup {
        return false;
      }
      shards := U.WriteEntries(c, shards, seen);
      U.EntriesAreBuilt(r, c, db, visited, seen, shards);
      reg := reg.(unique := reg.unique[RegistryKey(c) := c]);
      log := log + [OpCreateUnique(c)];
      return true;
    }

    method DropUnique(c: Constraint)
      modifies this
      ensures Reached(L.DropUnique(old(View()), c), old(log))
      ensures reg == old(reg).(unique := old(reg).unique - {RegistryKey(c)})
    {
      if RegistryKey(c) in reg.unique {
        shards := D.DropUniqueAll(c, shards);
        D.UpToAll(old(View()), shards, sh => ClearUnique(c, sh));
        reg := reg.(unique := reg.unique - {RegistryKey(c)});
        log := log + [OpDropUnique(c)];
      }
    }
  }
}
