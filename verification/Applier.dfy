/**
 The follower: each WAL entry replayed on its own buckets. It keeps neither the
 unique index of written nodes nor the ID counters, and takes every ID from the entry.
 */
module Applier {
  import opened Types
  import opened Values
  import opened Keys
  import opened Store
  import opened Leader
  import U = UniqueBuild

  function ApplyAddNode(r: Render, db: DB, id: NodeID, props: Props): DB
    requires db.Valid()
  {
    var sh := db.ShardOf(id);
    var sh1 := Index(r, db.reg, sh.(nodes := sh.nodes[id := props]), id, props);
    db.Commit(id, sh1.(nodeCount := sh1.nodeCount + 1))
  }

  function ApplyUpdateNode(r: Render, db: DB, id: NodeID, props: Props): Option<DB>
    requires db.Valid()
  {
    var sh := db.ShardOf(id);
    if id !in sh.nodes then None
    else
      var merged := sh.nodes[id] + props;
      var sh1 := Unindex(r, db.reg, sh, id, sh.nodes[id]);
      Some(db.Commit(id, Index(r, db.reg, sh1.(nodes := sh1.nodes[id := merged]), id, merged)))
  }

  function ApplySetNodeProps(r: Render, db: DB, id: NodeID, props: Props): DB
    requires db.Valid()
  {
    var sh := db.ShardOf(id);
    var sh1 := if id in sh.nodes then Unindex(r, db.reg, sh, id, sh.nodes[id]) else sh;
    db.Commit(id, Index(r, db.reg, sh1.(nodes := sh1.nodes[id := props]), id, props))
  }

  /** A node that is already gone still costs one on the counter. */
  function ApplyDeleteNode(r: Render, db: DB, id: NodeID): DB
    requires db.Valid()
  {
    var sh := db.ShardOf(id);
    if id !in sh.nodes then db.Commit(id, sh.(nodeCount := sh.nodeCount - 1))
    else
      var names := Labels(sh, id);
      var sh1 := Unindex(r, db.reg, sh, id, sh.nodes[id]);
      db.Commit(id, sh1.(labelIdx := sh1.labelIdx - LabelKeys(names, id),
                         labels := if names == [] then sh1.labels else sh1.labels - {id},
                         nodes := sh1.nodes - {id}, nodeCount := sh1.nodeCount - 1))
  }

  /** applyAddEdgeBatch: one edge after the other. */
  function ApplyAddEdges(db: DB, es: seq<Edge>): (db': DB)
    requires db.Valid()
    ensures db'.Valid() && |db'.shards| == |db.shards|
  {
    if es == [] then db else WriteEdge(ApplyAddEdges(db, es[..|es| - 1]), es[|es| - 1])
  }

  function ApplyDeleteEdge(db: DB, eid: EdgeID, source: NodeID, target: NodeID, name: Str): DB
    requires db.Valid()
  {
    var db1 := db.Commit(source, DropEdge(db.ShardOf(source), eid, source, name));
    db1.Commit(target, DropIncoming(db1.ShardOf(target), eid, target))
  }

  /** The stored edge is looked up in the source's shard only. */
  function ApplyUpdateEdge(db: DB, eid: EdgeID, source: NodeID, props: Props): Option<DB>
    requires db.Valid()
  {
    var sh := db.ShardOf(source);
    if eid !in sh.edges then None
    else
      var e := sh.edges[eid];
      Some(db.Commit(source, sh.(edges := sh.edges[eid := e.(props := e.props + props)])))
  }

  function ApplyAddNodeWithLabels(r: Render, db: DB, id: NodeID, names: seq<Str>, props: Props): DB
    requires db.Valid()
  {
    var sh := db.ShardOf(id);
    var sh1 := Index(r, db.reg, sh.(nodes := sh.nodes[id := props]), id, props);
    var sh2 := if names == [] then sh1
               else sh1.(labels := sh1.labels[id := names], labelIdx := sh1.labelIdx + LabelKeys(names, id));
    db.Commit(id, sh2.(nodeCount := sh2.nodeCount + 1))
  }

  function ApplyAddLabel(db: DB, id: NodeID, names: seq<Str>): Option<DB>
    requires db.Valid()
  {
    var sh := db.ShardOf(id);
    if id !in sh.nodes then None
    else
      var existing := Labels(sh, id);
      var added := NewLabels(existing, names);
      if added == [] then Some(db)
      else Some(db.Commit(id,
                          sh.(labels := sh.labels[id := existing + added], labelIdx :=
                              sh.labelIdx + LabelKeys(added, id))))
  }

  /** A missing node is tolerated. */
  function ApplyRemoveLabel(db: DB, id: NodeID, names: seq<Str>): DB
    requires db.Valid()
  {
    var sh := db.ShardOf(id);
    if id !in sh.nodes then db
    else
      var sh1 := StoreLabels(sh, id, KeptLabels(Labels(sh, id), names));
      db.Commit(id, sh1.(labelIdx := sh1.labelIdx - LabelKeys(names, id)))
  }

  /** No duplicate check: of nodes with one value the last one scanned gets the entry. */
  ghost function ApplyCreateUnique(r: Render, db: DB, c: Constraint): DB
    requires db.Valid()
  {
    if RegistryKey(c) in db.reg.unique then db
    else
      var n, seen := |db.shards|, U.LastSeen(r, c, db.shards, |db.shards|);
      DB(seq(n, i requires 0 <= i < n => U.WithEntries(db.shards[i], c, seen, n, i)), db.nextNode, db.nextEdge,
         db.reg.(unique := db.reg.unique[RegistryKey(c) := c]))
  }

  /** applyOp; None is an error, which leaves the buckets as they were. */
  ghost function ApplyOp(r: Render, db: DB, op: Op): Option<DB>
    requires db.Valid()
  {
    match op
    case OpAddNode(id, props) => Some(ApplyAddNode(r, db, id, props))
    case OpAddNodeBatch(nodes) => Some(PutNodeBatch(db, nodes))
    case OpUpdateNode(id, props) => ApplyUpdateNode(r, db, id, props)
    case OpSetNodeProps(id, props) => Some(ApplySetNodeProps(r, db, id, props))
    case OpDeleteNode(id) => Some(ApplyDeleteNode(r, db, id))
    case OpAddEdge(e) => Some(WriteEdge(db, e))
    case OpAddEdgeBatch(es) => Some(ApplyAddEdges(db, es))
    case OpDeleteEdge(eid, source, target, name) => Some(ApplyDeleteEdge(db, eid, source, target, name))
    case OpUpdateEdge(eid, source, props) => ApplyUpdateEdge(db, eid, source, props)
    case OpAddNodeWithLabels(id, names, props) => Some(ApplyAddNodeWithLabels(r, db, id, names, props))
    case OpAddLabel(id, names) => ApplyAddLabel(db, id, names)
    case OpRemoveLabel(id, names) => Some(ApplyRemoveLabel(db, id, names))
    case OpCreateIndex(p) => Some(CreateIndex(r, db, p).db)
    case OpDropIndex(p) => Some(DropIndex(db, p).db)
    case OpCreateComposite(names) =>
      var def := Definition(names);
      Some(AllShards(db, sh => BuildComp(r, def, sh)).(reg :=
                                                       db.reg.(composite := db.reg.composite[DefKey(def) := def])))
    case OpDropComposite(names) => Some(DropComposite(db, names).db)
    case OpCreateUnique(c) => Some(ApplyCreateUnique(r, db, c))
    case OpDropUnique(c) => Some(DropUnique(db, c).db)
  }

  /** The follower's database and its applied LSN. */
  datatype Follower = Follower(db: DB, lsn: nat)

  /** Apply: entries at or below the applied LSN are skipped, an error changes nothing. */
  ghost function Apply(r: Render, f: Follower, lsn: nat, op: Op): Follower
    requires f.db.Valid()
  {
    if lsn <= f.lsn then f
    else
      match ApplyOp(r, f.db, op)
      case None => f
      case Some(db) => Follower(db, lsn)
  }
}
