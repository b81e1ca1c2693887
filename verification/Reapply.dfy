/**
 One entry applied twice in a row: the buckets stay, the counters move again. A whole
 stretch of the log applied again is another matter, the subject of Redelivery, Settling
 and Reconnect.
 */
module Reapply {
  import opened Types
  import opened Store
  import opened Leader
  import opened Applier
  import opened Commute

  // ---- one shard ---------------------------------------------------------------------------------

  lemma MapTwice<K, V>(m: map<K, V>, e: MapEdit<K, V>)
    ensures EditMap(EditMap(m, e), e) == EditMap(m, e)
  {
  }

  lemma SetTwice(s: set<Str>, e: SetEdit)
    ensures EditSet(EditSet(s, e), e) == EditSet(s, e) && EditSet(EditSet(s, e), SetEdit(e.put, e.put)) == EditSet(s, e)
  {
  }

  /** The counters moved by a patch once more. */
  function Bumped(sh: Shard, p: Patch): Shard {
    sh.(nodeCount := sh.nodeCount + p.dn, edgeCount := sh.edgeCount + p.de)
  }

  lemma PatchTwice(sh: Shard, p: Patch)
    ensures Patched(Patched(sh, p), p) == Bumped(Patched(sh, p), p)
  {
    MapTwice(sh.nodes, p.nodes);
    MapTwice(sh.labels, p.labels);
    MapTwice(sh.edges, p.edges);
    MapTwice(sh.adjOut, p.adjOut);
    MapTwice(sh.adjIn, p.adjIn);
    SetTwice(sh.labelIdx, p.labelIdx);
    SetTwice(sh.propIdx, p.propIdx);
    SetTwice(sh.compIdx, p.compIdx);
    SetTwice(sh.edgeType, p.edgeType);
  }

  lemma RewriteTwice(r: Render, reg: Registry, sh: Shard, id: NodeID, was: Props, props: Props)
    ensures var sh1 := Patched(sh, Rewrite(r, reg, id, was, props));
            id in sh1.nodes && sh1.nodes[id] == props && Patched(sh1, Rewrite(r, reg, id, props, props)) == sh1
  {
    var p := Rewrite(r, reg, id, was, props);
    PatchTwice(sh, p);
    SetTwice(sh.propIdx, p.propIdx);
    SetTwice(sh.compIdx, p.compIdx);
  }

  lemma {:induction false} NothingNew(existing: seq<Str>, names: seq<Str>)
    ensures (forall n :: n in names && n !in existing ==> n in NewLabels(existing, names))
    ensures (forall n :: n in names ==> n in existing) ==> NewLabels(existing, names) == []
  {
    if names != [] {
      NothingNew(existing, names[..|names| - 1]);
    }
  }

  lemma {:induction false} KeptTwice(existing: seq<Str>, names: seq<Str>)
    ensures KeptLabels(KeptLabels(existing, names), names) == KeptLabels(existing, names)
  {
    if existing != [] {
      var n := |existing| - 1;
      KeptTwice(existing[..n], names);
      var kept := KeptLabels(existing, names);
      if existing[n] in names {
        assert kept == KeptLabels(existing[..n], names);
      } else {
        assert kept[..|kept| - 1] == KeptLabels(existing[..n], names);
      }
    }
  }

  lemma AddLabelTwice(r: Render, reg: Registry, sh: Shard, op: Op)
    requires op.OpAddLabel? && op.id in sh.nodes
    ensures var sh1 := Patched(sh, NodePatch(r, reg, sh, op));
            NodePatch(r, reg, sh1, op) == Nothing() && op.id in sh1.nodes
  {
    var was := Labels(sh, op.id);
    var added := NewLabels(was, op.names);
    var sh1 := Patched(sh, NodePatch(r, reg, sh, op));
    NothingNew(was, op.names);
    NothingNew(Labels(sh1, op.id), op.names);
    assert added != [] ==> Labels(sh1, op.id) == was + added;
    assert added == [] ==> Labels(sh1, op.id) == was;
  }

  lemma RemoveLabelTwice(r: Render, reg: Registry, sh: Shard, op: Op)
    requires op.OpRemoveLabel?
    ensures var p := NodePatch(r, reg, sh, op); NodePatch(r, reg, Patched(sh, p), op) == p
  {
    KeptTwice(Labels(sh, op.id), op.names);
    if op.id in sh.nodes {
      assert Labels(Patched(sh, NodePatch(r, reg, sh, op)), op.id) == KeptLabels(Labels(sh, op.id), op.names);
    }
  }

  predicate NeedsNode(op: Op) {
    op.OpUpdateNode? || op.OpAddLabel?
  }

  lemma NodeCounts(r: Render, reg: Registry, sh: Shard, op: Op)
    requires IsNodeOp(op)
    ensures var p := NodePatch(r, reg, sh, op);
            p.de == 0 && p.dn == if op.OpAddNode? ||
                op.OpAddNodeWithLabels? then 1 else if op.OpDeleteNode? then -1 else 0
  {
  }

  /** A node entry applied to its shard twice. */
  lemma NodeTwice(r: Render, reg: Registry, sh: Shard, op: Op)
    requires IsNodeOp(op) && (NeedsNode(op) ==> op.id in sh.nodes)
    ensures var p := NodePatch(r, reg, sh, op); var sh1 := Patched(sh, p);
            Patched(sh1, NodePatch(r, reg, sh1, op)) == Bumped(sh1, p)
  {
    var p := NodePatch(r, reg, sh, op);
    NodeCounts(r, reg, sh, op);
    if op.OpUpdateNode? {
      assert (sh.nodes[op.id] + op.props) + op.props == sh.nodes[op.id] + op.props;
      RewriteTwice(r, reg, sh, op.id, sh.nodes[op.id], sh.nodes[op.id] + op.props);
    } else if op.OpSetNodeProps? {
      RewriteTwice(r, reg, sh, op.id, Old(sh, op.id), op.props);
    } else if op.OpDeleteNode? {
      GoneTwice(r, reg, sh, op);
    } else if op.OpAddLabel? {
      AddLabelTwice(r, reg, sh, op);
      PatchNothing(Patched(sh, p));
    } else {
      if op.OpRemoveLabel? {
        RemoveLabelTwice(r, reg, sh, op);
      }
      PatchTwice(sh, p);
    }
  }

  lemma GoneTwice(r: Render, reg: Registry, sh: Shard, op: Op)
    requires op.OpDeleteNode?
    ensures var p := NodePatch(r, reg, sh, op); var sh1 := Patched(sh, p);
            Patched(sh1, NodePatch(r, reg, sh1, op)) == Bumped(sh1, p)
  {
    var p := NodePatch(r, reg, sh, op);
    var sh1 := Patched(sh, p);
    assert op.id !in sh1.nodes;
    KeepAll(sh1);
  }

  // ---- the whole store ----------------------------------------------------------------------------

  /** Entries that move a counter. */
  predicate Counted(op: Op) {
    match op
    case OpAddNode(_, _) => true
    case OpAddNodeWithLabels(_, _, _) => true
    case OpAddNodeBatch(nodes) => nodes != []
    case OpDeleteNode(_) => true
    case OpAddEdge(_) => true
    case OpAddEdgeBatch(es) => es != []
    case OpDeleteEdge(_, _, _, _) => true
    case _ => false
  }

  lemma {:induction false} NodeBatchCounts(n: nat, i: nat, nodes: seq<(NodeID, Props)>)
    requires n > 0
    ensures var p := NodeBatchPatch(n, i, nodes);
            p.dn >= 0 && p.de == 0 && (nodes != [] && nodes[|nodes| - 1].0 % n == i ==> p.dn > 0)
  {
    if nodes != [] {
      NodeBatchCounts(n, i, nodes[..|nodes| - 1]);
    }
  }

  lemma {:induction false} EdgeBatchCounts(n: nat, i: nat, es: seq<Edge>)
    requires n > 0
    ensures var p := EdgeBatchPatch(n, i, es);
            p.de >= 0 && p.dn == 0 && (es != [] && es[|es| - 1].from % n == i ==> p.de > 0)
  {
    if es != [] {
      EdgeBatchCounts(n, i, es[..|es| - 1]);
    }
  }

  /** The shard whose counter an entry certainly moves. */
  function CountedIn(n: nat, op: Op): (i: nat)
    requires n > 0
    ensures i < n
  {
    match op
    case OpAddNodeBatch(nodes) => if nodes == [] then 0 else nodes[|nodes| - 1].0 % n
    case OpAddEdge(e) => e.from % n
    case OpAddEdgeBatch(es) => if es == [] then 0 else es[|es| - 1].from % n
    case OpDeleteEdge(_, source, _, _) => source % n
    case _ => if IsNodeOp(op) then op.id % n else 0
  }

  /** An entry moves some counter exactly when it is counted. */
  lemma Moves(r: Render, reg: Registry, n: nat, i: nat, sh: Shard, op: Op)
    requires n > 0 && IsData(op)
    ensures var p := PatchOf(r, reg, n, i, sh, op);
            && (!Counted(op) ==> p.dn == 0 && p.de == 0)
            && (Counted(op) && i == CountedIn(n, op) ==> p.dn != 0 || p.de != 0)
  {
    match op
    case OpAddNodeBatch(nodes) => NodeBatchCounts(n, i, nodes);
    case OpAddEdgeBatch(es) => EdgeBatchCounts(n, i, es);
    case _ =>
  }

  lemma ShardTwice(r: Render, reg: Registry, n: nat, i: nat, sh: Shard, op: Op)
    requires n > 0 && IsData(op) && (NeedsNode(op) && op.id % n == i ==> op.id in sh.nodes)
    ensures var p := PatchOf(r, reg, n, i, sh, op); var sh1 := Patched(sh, p);
            Patched(sh1, PatchOf(r, reg, n, i, sh1, op)) == Bumped(sh1, p)
  {
    var p := PatchOf(r, reg, n, i, sh, op);
    PatchTwice(sh, p);
    PatchNothing(Patched(sh, p));
    if IsNodeOp(op) {
      if op.id % n == i {
        NodeTwice(r, reg, sh, op);
      }
    } else if op.OpUpdateEdge? && op.from % n == i && op.eid in sh.edges {
      assert (sh.edges[op.eid].props + op.props) + op.props == sh.edges[op.eid].props + op.props;
    }
  }

  lemma StillApplicable(r: Render, db: DB, op: Op)
    requires db.Valid() && IsData(op) && Applicable(db, op)
    ensures Applicable(Spread(r, db, op), op)
  {
  }

  /** `sh` with its counters moved again as they moved from `was`. */
  function Doubled(was: Shard, sh: Shard): Shard {
    sh.(nodeCount := 2 * sh.nodeCount - was.nodeCount, edgeCount := 2 * sh.edgeCount - was.edgeCount)
  }

  ghost predicate CountedTwice(was: DB, db: DB, db': DB) {
    && |was.shards| == |db.shards| == |db'.shards| && db' == db.(shards := db'.shards)
    && forall i {:trigger db'.shards[i]} :: 0 <= i < |db.shards| ==>
         db'.shards[i] == Doubled(was.shards[i], db.shards[i])
  }

  lemma SpreadTwice(r: Render, db: DB, op: Op, i: nat)
    requires db.Valid() && IsData(op) && Applicable(db, op) && i < |db.shards|
    ensures var db1 := Spread(r, db, op); var p := PatchOf(r, db.reg, |db.shards|, i, db.shards[i], op);
            db1.shards[i] == Patched(db.shards[i], p) && Spread(r, db1, op).shards[i] == Bumped(db1.shards[i], p)
  {
    ShardTwice(r, db.reg, |db.shards|, i, db.shards[i], op);
  }

  lemma BumpedIsDoubled(was: Shard, sh: Shard, p: Patch)
    requires sh == Patched(was, p)
    ensures Bumped(sh, p) == Doubled(was, sh) && (Bumped(sh, p) == sh <==> p.dn == 0 && p.de == 0)
  {
  }

  lemma TwiceAt(r: Render, db: DB, op: Op, i: nat)
    requires db.Valid() && IsData(op) && Applicable(db, op) && i < |db.shards|
    ensures var sh1, sh2 := Spread(r, db, op).shards[i], Spread(r, Spread(r, db, op), op).shards[i];
            && sh2 == Doubled(db.shards[i], sh1) && (!Counted(op) ==> sh2 == sh1)
            && (Counted(op) && i == CountedIn(|db.shards|, op) ==> sh2 != sh1)
  {
    var p := PatchOf(r, db.reg, |db.shards|, i, db.shards[i], op);
    SpreadTwice(r, db, op, i);
    BumpedIsDoubled(db.shards[i], Spread(r, db, op).shards[i], p);
    Moves(r, db.reg, |db.shards|, i, db.shards[i], op);
  }

  lemma SpreadTwiceExactly(r: Render, db: DB, op: Op)
    requires db.Valid() && IsData(op) && Applicable(db, op)
    ensures CountedTwice(db, Spread(r, db, op), Spread(r, Spread(r, db, op), op))
    ensures Spread(r, Spread(r, db, op), op) == Spread(r, db, op) <==> !Counted(op)
  {
    var db1, n := Spread(r, db, op), |db.shards|;
    var db2 := Spread(r, db1, op);
    forall i {:trigger db2.shards[i]} | 0 <= i < n
      ensures db2.shards[i] == Doubled(db.shards[i], db1.shards[i]) && (!Counted(op) ==> db2.shards[i] == db1.shards[i])
    {
      TwiceAt(r, db, op, i);
    }
    if Counted(op) {
      TwiceAt(r, db, op, CountedIn(n, op));
    } else {
      assert db2.shards == db1.shards;
    }
  }

  /**
   An accepted data entry is accepted again; all buckets stay as they are and every counter
   moves a second time. So re-applying changes nothing exactly for entries that are neither
   additions nor deletions.
   */
  lemma ReapplyExactly(r: Render, db: DB, op: Op)
    requires db.Valid() && IsData(op) && ApplyOp(r, db, op).Some?
    ensures ApplyOp(r, db, op).value.Valid()
    ensures var db1 := ApplyOp(r, db, op).value; var again := ApplyOp(r, db1, op);
            again.Some? && CountedTwice(db, db1, again.value) && (again.value == db1 <==> !Counted(op))
  {
    ApplyIsSpread(r, db, op);
    StillApplicable(r, db, op);
    ApplyIsSpread(r, Spread(r, db, op), op);
    SpreadTwiceExactly(r, db, op);
  }
}
