/**
 A whole stretch of the log applied again on the state it leads to, as a follower does that
 reconnects behind its own progress: when every entry is accepted, and what then differs.
 */
module Redelivery {
  import opened Types
  import opened Store
  import opened Leader
  import opened Applier
  import opened Commute

  // ---- which records exist -----------------------------------------------------------------------

  /** A node, or an edge ID in one shard. */
  datatype Record = NodeRec(id: NodeID) | EdgeRec(eid: EdgeID, shard: nat)

  predicate Stored(db: DB, x: Record)
    requires db.Valid()
  {
    match x
    case NodeRec(id) => db.HasNode(id)
    case EdgeRec(eid, shard) => shard < |db.shards| && eid in db.shards[shard].edges
  }

  /** Whether an entry creates the record, deletes it, or does neither. */
  ghost function Touch(n: nat, op: Op, x: Record): Option<bool>
    requires n > 0
  {
    match x
    case NodeRec(id) =>
      if id in NodesOf(op) &&
          (op.OpAddNode? || op.OpAddNodeBatch? || op.OpSetNodeProps? || op.OpAddNodeWithLabels?) then Some(true)
      else if op == OpDeleteNode(id) then Some(false)
      else None
    case EdgeRec(eid, shard) =>
      if op.OpAddEdge? && op.edge.id == eid && op.edge.from % n == shard then Some(true)
      else if op.OpAddEdgeBatch? && ListsEdge(n, shard, op.edges, eid) then Some(true)
      else if op.OpDeleteEdge? && op.eid == eid && op.from % n == shard then Some(false)
      else None
  }

  /** What the last creation or deletion of the record in the log was. */
  ghost function Fate(n: nat, log: seq<Entry>, x: Record): Option<bool>
    requires n > 0
    decreases |log|
  {
    if log == [] then None
    else
      var later := Fate(n, log[1..], x);
      if later.Some? then later else Touch(n, log[0].op, x)
  }

  /** The record an entry is refused without. */
  function Needed(n: nat, op: Op): Option<Record>
    requires n > 0
  {
    match op
    case OpUpdateNode(id, _) => Some(NodeRec(id))
    case OpAddLabel(id, _) => Some(NodeRec(id))
    case OpUpdateEdge(eid, source, _) => Some(EdgeRec(eid, source % n))
    case _ => None
  }

  ghost predicate Lists(nodes: seq<(NodeID, Props)>, id: NodeID) {
    exists j :: 0 <= j < |nodes| && nodes[j].0 == id
  }

  ghost predicate ListsEdge(n: nat, i: nat, es: seq<Edge>, eid: EdgeID)
    requires n > 0
  {
    exists j :: 0 <= j < |es| && es[j].id == eid && es[j].from % n == i
  }

  lemma ListsNext(nodes: seq<(NodeID, Props)>, id: NodeID)
    requires nodes != []
    ensures Lists(nodes, id) <==> Lists(nodes[..|nodes| - 1], id) || nodes[|nodes| - 1].0 == id
  {
    var k := |nodes| - 1;
    if Lists(nodes[..k], id) {
      var j :| 0 <= j < k && nodes[..k][j].0 == id;
      assert nodes[j].0 == id;
    }
    if j :| 0 <= j < k && nodes[j].0 == id {
      assert nodes[..k][j].0 == id;
    }
  }

  lemma {:induction false} NodeBatchStores(n: nat, i: nat, nodes: seq<(NodeID, Props)>, id: NodeID)
    requires n > 0
    ensures var x := NodeBatchPatch(n, i, nodes).nodes;
            x.del == {} && (id in x.put <==> Lists(nodes, id) && id % n == i)
  {
    if nodes != [] {
      NodeBatchStores(n, i, nodes[..|nodes| - 1], id);
      ListsNext(nodes, id);
    }
  }

  lemma ListsEdgeNext(n: nat, i: nat, es: seq<Edge>, eid: EdgeID)
    requires n > 0 && es != []
    ensures var last := es[|es| - 1];
            ListsEdge(n, i, es, eid) <==> ListsEdge(n, i, es[..|es| - 1], eid) || (last.id == eid && last.from % n == i)
  {
    var k := |es| - 1;
    if ListsEdge(n, i, es[..k], eid) {
      var j :| 0 <= j < k && es[..k][j].id == eid && es[..k][j].from % n == i;
      assert es[j].id == eid;
    }
    if j :| 0 <= j < k && es[j].id == eid && es[j].from % n == i {
      assert es[..k][j].id == eid;
    }
  }

  lemma EdgePatchEdges(n: nat, i: nat, e: Edge)
    requires n > 0
    ensures EdgePatch(n, i, e).edges == if e.from % n == i then MapEdit({}, map[e.id := e]) else NoMap()
  {
  }

  lemma EdgeBatchEdges(n: nat, i: nat, es: seq<Edge>)
    requires n > 0 && es != []
    ensures EdgeBatchPatch(n, i, es).edges ==
              ThenMap(EdgeBatchPatch(n, i, es[..|es| - 1]).edges, EdgePatch(n, i, es[|es| - 1]).edges)
  {
  }

  lemma {:induction false} EdgeBatchStores(n: nat, i: nat, es: seq<Edge>, eid: EdgeID)
    requires n > 0
    ensures var x := EdgeBatchPatch(n, i, es).edges; x.del == {} && (eid in x.put <==> ListsEdge(n, i, es, eid))
  {
    if es != [] {
      EdgeBatchStores(n, i, es[..|es| - 1], eid);
      EdgePatchEdges(n, i, es[|es| - 1]);
      EdgeBatchEdges(n, i, es);
      ListsEdgeNext(n, i, es, eid);
    }
  }

  function After(touch: Option<bool>, before: bool): bool {
    match touch
    case Some(there) => there
    case None => before
  }

  lemma TouchNode(r: Render, db: DB, op: Op, id: NodeID)
    requires db.Valid() && IsData(op)
    ensures Stored(Spread(r, db, op), NodeRec(id)) <==>
              After(Touch(|db.shards|, op, NodeRec(id)), Stored(db, NodeRec(id)))
  {
    TouchOfNode(|db.shards|, op, id);
    if id !in NodesOf(op) {
      NotNamed(r, db, op, id);
    } else if op.OpAddNodeBatch? {
      InBatch(r, db, op, id);
    } else {
      Named(r, db, op);
    }
  }

  lemma TouchOfNode(n: nat, op: Op, id: NodeID)
    requires n > 0 && IsData(op)
    ensures var t := Touch(n, op, NodeRec(id));
            && (id !in NodesOf(op) ==> t.None?) && (id in NodesOf(op) && op.OpAddNodeBatch? ==> t == Some(true))
            && (id in NodesOf(op) && !op.OpAddNodeBatch? ==>
                  IsNodeOp(op) && op.id == id
                  && t == if op.OpAddNode? || op.OpSetNodeProps? || op.OpAddNodeWithLabels? then Some(true)
                          else if op.OpDeleteNode? then Some(false) else None)
  {
  }

  lemma NotNamed(r: Render, db: DB, op: Op, id: NodeID)
    requires db.Valid() && IsData(op) && id !in NodesOf(op)
    ensures Stored(Spread(r, db, op), NodeRec(id)) <==> Stored(db, NodeRec(id))
  {
    var i := db.Home(id);
    PatchWithin(r, db.reg, |db.shards|, i, db.shards[i], op);
    assert Itself(id) !in NodesOf(op);
  }

  lemma InBatch(r: Render, db: DB, op: Op, id: NodeID)
    requires db.Valid() && op.OpAddNodeBatch? && id in NodesOf(op)
    ensures Stored(Spread(r, db, op), NodeRec(id))
  {
    assert Lists(op.nodes, id);
    NodeBatchStores(|db.shards|, db.Home(id), op.nodes, id);
  }

  lemma Named(r: Render, db: DB, op: Op)
    requires db.Valid() && IsNodeOp(op)
    ensures Stored(Spread(r, db, op), NodeRec(op.id)) <==>
              (Stored(db, NodeRec(op.id)) && !op.OpDeleteNode?) || op.OpAddNode? || op.OpSetNodeProps? ||
                  op.OpAddNodeWithLabels?
  {
    NodePatchStores(r, db.reg, db.ShardOf(op.id), op);
  }

  lemma NodePatchStores(r: Render, reg: Registry, sh: Shard, op: Op)
    requires IsNodeOp(op)
    ensures op.id in Patched(sh, NodePatch(r, reg, sh, op)).nodes <==>
              (op.id in sh.nodes && !op.OpDeleteNode?) || op.OpAddNode? || op.OpSetNodeProps? || op.OpAddNodeWithLabels?
  {
  }

  lemma TouchEdge(r: Render, db: DB, op: Op, eid: EdgeID, shard: nat)
    requires db.Valid() && IsData(op) && shard < |db.shards|
    ensures var x := EdgeRec(eid, shard);
            Stored(Spread(r, db, op), x) <==> After(Touch(|db.shards|, op, x), Stored(db, x))
  {
    var n := |db.shards|;
    if eid !in EdgesOf(op) {
      PatchWithin(r, db.reg, n, shard, db.shards[shard], op);
      assert Itself(eid) !in EdgesOf(op);
    } else if op.OpAddEdgeBatch? {
      EdgeBatchStores(n, shard, op.edges, eid);
    } else if op.OpAddEdge? {
      EdgePatchEdges(n, shard, op.edge);
    }
  }

  predicate InStore(n: nat, x: Record) {
    x.EdgeRec? ==> x.shard < n
  }

  lemma TouchExactly(r: Render, db: DB, op: Op, x: Record)
    requires db.Valid() && IsData(op) && InStore(|db.shards|, x)
    ensures Stored(Spread(r, db, op), x) <==> After(Touch(|db.shards|, op, x), Stored(db, x))
  {
    match x
    case NodeRec(id) => TouchNode(r, db, op, id);
    case EdgeRec(eid, shard) => TouchEdge(r, db, op, eid, shard);
  }

  lemma ApplicableExactly(db: DB, op: Op)
    requires db.Valid() && IsData(op)
    ensures Applicable(db, op) <==> (Needed(|db.shards|, op).Some? ==> Stored(db, Needed(|db.shards|, op).value))
  {
  }

  /** After a log a record exists as its last creation or deletion says, or as it did before. */
  lemma {:induction false} FateExactly(r: Render, db: DB, log: seq<Entry>, x: Record)
    requires db.Valid() && AllData(log) && InStore(|db.shards|, x) && ApplyLog(r, db, log).Some?
    ensures ApplyLog(r, db, log).value.Valid() && |ApplyLog(r, db, log).value.shards| == |db.shards|
    ensures Stored(ApplyLog(r, db, log).value, x) <==> After(Fate(|db.shards|, log, x), Stored(db, x))
    decreases |log|
  {
    if log != [] {
      ApplyIsSpread(r, db, log[0].op);
      TouchExactly(r, db, log[0].op, x);
      FateExactly(r, Spread(r, db, log[0].op), log[1..], x);
    }
  }

  /** What entry `i` needs is there when its turn comes. */
  ghost predicate Served(db: DB, log: seq<Entry>, i: nat)
    requires db.Valid() && i < |log|
  {
    var need := Needed(|db.shards|, log[i].op);
    need.Some? ==> After(Fate(|db.shards|, log[..i], need.value), Stored(db, need.value))
  }

  lemma ServedFirst(r: Render, db: DB, log: seq<Entry>, i: nat)
    requires db.Valid() && AllData(log) && i + 1 < |log|
    ensures Served(db, log, i + 1) <==> Served(Spread(r, db, log[0].op), log[1..], i)
  {
    var n := |db.shards|;
    assert log[..i + 1][1..] == log[1..][..i];
    var need := Needed(n, log[i + 1].op);
    if need.Some? {
      TouchExactly(r, db, log[0].op, need.value);
    }
  }

  /** A log is accepted exactly when each entry finds the record it needs, whatever the state. */
  lemma {:induction false} AcceptedExactly(r: Render, db: DB, log: seq<Entry>)
    requires db.Valid() && AllData(log)
    ensures ApplyLog(r, db, log).Some? <==>
              forall i {:trigger Served(db, log, i)} :: 0 <= i < |log| ==> Served(db, log, i)
    decreases |log|
  {
    if log != [] {
      var op, rest := log[0].op, log[1..];
      var db1 := Spread(r, db, op);
      ApplyIsSpread(r, db, op);
      ApplicableExactly(db, op);
      assert Served(db, log, 0) <==> Applicable(db, op);
      AcceptedExactly(r, db1, rest);
      forall i | 0 <= i < |rest| ensures Served(db1, rest, i) <==> Served(db, log, i + 1) {
        ServedFirst(r, db, log, i);
      }
      if forall i {:trigger Served(db1, rest, i)} :: 0 <= i < |rest| ==> Served(db1, rest, i) {
        forall i | 1 <= i < |log| ensures Served(db, log, i) {
          assert Served(db1, rest, i - 1);
        }
      }
    }
  }

  /**
   Entry `i` needs a record that the log has not created by then and in the end deletes.
   */
  ghost predicate Orphaned(n: nat, log: seq<Entry>, i: nat)
    requires n > 0 && i < |log|
  {
    var need := Needed(n, log[i].op);
    need.Some? && Fate(n, log[..i], need.value) != Some(true) && Fate(n, log, need.value) == Some(false)
  }

  ghost predicate NoOrphan(n: nat, log: seq<Entry>)
    requires n > 0
  {
    forall i {:trigger Orphaned(n, log, i)} :: 0 <= i < |log| ==> !Orphaned(n, log, i)
  }

  lemma {:induction false} FateOfPrefix(n: nat, log: seq<Entry>, i: nat, x: Record)
    requires n > 0 && i <= |log|
    ensures Fate(n, log, x) == if Fate(n, log[i..], x).Some? then Fate(n, log[i..], x) else Fate(n, log[..i], x)
    decreases |log|
  {
    if i == 0 {
      assert log[0..] == log && log[..0] == [];
    } else {
      assert log[1..][i - 1..] == log[i..] && log[..i][1..] == log[1..][..i - 1];
      FateOfPrefix(n, log[1..], i - 1, x);
    }
  }

  /**
   Applied again on the state it leads to, an accepted log is accepted if and only if it has
   no orphaned entry.
   */
  lemma RedeliveryExactly(r: Render, db: DB, log: seq<Entry>)
    requires db.Valid() && AllData(log) && ApplyLog(r, db, log).Some?
    ensures ApplyLog(r, db, log).value.Valid()
    ensures ApplyLog(r, ApplyLog(r, db, log).value, log).Some? <==> NoOrphan(|db.shards|, log)
  {
    var e, n := ApplyLog(r, db, log).value, |db.shards|;
    FateExactly(r, db, log, NodeRec(0));
    AcceptedExactly(r, db, log);
    AcceptedExactly(r, e, log);
    forall i | 0 <= i < |log| ensures Served(e, log, i) <==> !Orphaned(n, log, i) {
      assert Served(db, log, i);
      var need := Needed(n, log[i].op);
      if need.Some? {
        FateExactly(r, db, log, need.value);
        FateOfPrefix(n, log, i, need.value);
      }
    }
  }
}
