/**
 The write methods of the leader, each as the state it commits and the WAL
 entries it appends, with the state as it stands right after each append.
 */
module Leader {
  import opened Types
  import opened Values
  import opened Keys
  import opened Store

  /** A WAL entry and the database at the moment it is appended. */
  datatype Logged = Logged(op: Op, after: DB)

  datatype Outcome = Outcome(db: DB, log: seq<Logged>, ok: bool)

  function Failed(db: DB): Outcome {
    Outcome(db, [], false)
  }

  function Done(db: DB, op: Op): Outcome {
    Outcome(db, [Logged(op, db)], true)
  }

  // ---- nodes ------------------------------------------------------------------------------

  function AddNode(r: Render, db: DB, props: Props): Outcome
    requires db.Valid() && db.nextNode + 1 < TWO64
  {
    var id := db.nextNode + 1;
    var sh := db.ShardOf(id);
    var sh1 := Index(r, db.reg, sh.(nodes := sh.nodes[id := props]), id, props);
    Done(db.(nextNode := id).Commit(id, sh1.(nodeCount := sh1.nodeCount + 1)), OpAddNode(id, props))
  }

  /** The batch entries that shard `i` of `n` owns, written in order. */
  function PutOwnNodes(sh: Shard, nodes: seq<(NodeID, Props)>, n: nat, i: nat): Shard
    requires n > 0
  {
    if nodes == [] then sh
    else
      var last := nodes[|nodes| - 1];
      var sh1 := PutOwnNodes(sh, nodes[..|nodes| - 1], n, i);
      if last.0 % n == i then sh1.(nodes := sh1.nodes[last.0 := last.1], nodeCount := sh1.nodeCount + 1) else sh1
  }

  function PutNodeBatch(db: DB, nodes: seq<(NodeID, Props)>): DB
    requires db.Valid()
  {
    db.(shards := seq(|db.shards|, i requires 0 <= i < |db.shards| => PutOwnNodes(db.shards[i], nodes, |db.shards|, i)))
  }

  function Numbered(first: nat, list: seq<Props>): (nodes: seq<(NodeID, Props)>)
    requires first + |list| <= TWO64
    ensures |nodes| == |list|
  {
    seq(|list|, i requires 0 <= i < |list| => (first + i, list[i]))
  }

  /** AddNodeBatch writes nodes and counters only: no index entries. */
  function AddNodeBatch(db: DB, list: seq<Props>): Outcome
    requires db.Valid() && db.nextNode + |list| < TWO64
  {
    var nodes := Numbered(db.nextNode + 1, list);
    Done(PutNodeBatch(db.(nextNode := db.nextNode + |list|), nodes), OpAddNodeBatch(nodes))
  }

  function UpdateNode(r: Render, db: DB, id: NodeID, props: Props): Outcome
    requires db.Valid()
  {
    var sh := db.ShardOf(id);
    if id !in sh.nodes then Failed(db)
    else
      var sh1 := Unindex(r, db.reg, sh, id, sh.nodes[id]);
      var merged := sh.nodes[id] + props;
      var names := Labels(sh, id);
      var sh2 := UnindexUnique(r, db.reg, sh1, id, names, merged);
      if Violates(r, db.reg, sh2, names, merged, id) then Failed(db)
      else
        var sh3 := Index(r, db.reg, sh2.(nodes := sh2.nodes[id := merged]), id, merged);
        Done(db.Commit(id, IndexUnique(r, db.reg, sh3, id, names, merged)), OpUpdateNode(id, props))
  }

  function SetNodeProps(r: Render, db: DB, id: NodeID, props: Props): Outcome
    requires db.Valid()
  {
    var sh := db.ShardOf(id);
    if id !in sh.nodes then Failed(db)
    else
      var sh1 := Unindex(r, db.reg, sh, id, sh.nodes[id]);
      var names := Labels(sh, id);
      var sh2 := UnindexUnique(r, db.reg, sh1, id, names, sh.nodes[id]);
      if Violates(r, db.reg, sh2, names, props, id) then Failed(db)
      else
        var sh3 := Index(r, db.reg, sh2.(nodes := sh2.nodes[id := props]), id, props);
        Done(db.Commit(id, IndexUnique(r, db.reg, sh3, id, names, props)), OpSetNodeProps(id, props))
  }

  // ---- edges ------------------------------------------------------------------------------

  function WriteEdge(db: DB, e: Edge): DB
    requires db.Valid()
  {
    var db1 := db.Commit(e.from, PutEdge(db.ShardOf(e.from), e));
    db1.Commit(e.to, PutIncoming(db1.ShardOf(e.to), e))
  }

  function AddEdge(db: DB, source: NodeID, target: NodeID, name: Str, props: Props): Outcome
    requires db.Valid() && db.nextEdge + 1 < TWO64
  {
    if !db.HasNode(source) || !db.HasNode(target) then Failed(db)
    else
      var e := Edge(db.nextEdge + 1, source, target, name, props);
      Done(WriteEdge(db.(nextEdge := e.id), e), OpAddEdge(e))
  }

  /** The edges whose source shard `i` owns, then the incoming entries it owns. */
  function PutOwnEdges(sh: Shard, es: seq<Edge>, n: nat, i: nat): Shard
    requires n > 0
  {
    if es == [] then sh
    else
      var e := es[|es| - 1];
      var sh1 := PutOwnEdges(sh, es[..|es| - 1], n, i);
      if e.from % n == i then PutEdge(sh1, e) else sh1
  }

  function PutOwnIncoming(sh: Shard, es: seq<Edge>, n: nat, i: nat): Shard
    requires n > 0
  {
    if es == [] then sh
    else
      var e := es[|es| - 1];
      var sh1 := PutOwnIncoming(sh, es[..|es| - 1], n, i);
      if e.to % n == i then PutIncoming(sh1, e) else sh1
  }

  /** Grouped by shard: first all outgoing sides, then all incoming sides. */
  function PutEdgeBatch(db: DB, es: seq<Edge>): DB
    requires db.Valid()
  {
    var n := |db.shards|;
    db.(shards := seq(n, i requires 0 <= i < n => PutOwnIncoming(PutOwnEdges(db.shards[i], es, n, i), es, n, i)))
  }

  function NumberedEdges(first: nat, list: seq<Edge>): (es: seq<Edge>)
    requires first + |list| <= TWO64
    ensures |es| == |list|
  {
    seq(|list|, i requires 0 <= i < |list| => list[i].(id := first + i))
  }

  /** AddEdgeBatch assigns IDs and does not look at the endpoints. */
  function AddEdgeBatch(db: DB, list: seq<Edge>): Outcome
    requires db.Valid() && db.nextEdge + |list| < TWO64
  {
    var es := NumberedEdges(db.nextEdge + 1, list);
    Done(PutEdgeBatch(db.(nextEdge := db.nextEdge + |list|), es), OpAddEdgeBatch(es))
  }

  /** getEdge: the first shard that has the ID. */
  function GetEdge(db: DB, eid: EdgeID, i: nat): Option<Edge>
    requires i <= |db.shards|
    decreases |db.shards| - i
  {
    if i == |db.shards| then None
    else if eid in db.shards[i].edges then Some(db.shards[i].edges[eid])
    else GetEdge(db, eid, i + 1)
  }

  /** deleteEdgeInternal's two transactions. */
  function EraseEdge(db: DB, e: Edge): DB
    requires db.Valid()
  {
    var db1 := db.Commit(e.from, DropEdge(db.ShardOf(e.from), e.id, e.from, e.lbl));
    db1.Commit(e.to, DropIncoming(db1.ShardOf(e.to), e.id, e.to))
  }

  function DeletionOf(e: Edge): Op {
    OpDeleteEdge(e.id, e.from, e.to, e.lbl)
  }

  function DeleteEdge(db: DB, eid: EdgeID): Outcome
    requires db.Valid()
  {
    match GetEdge(db, eid, 0)
    case None => Failed(db)
    case Some(e) => Done(EraseEdge(db, e), DeletionOf(e))
  }

  function UpdateEdge(db: DB, eid: EdgeID, props: Props): Outcome
    requires db.Valid()
  {
    match GetEdge(db, eid, 0)
    case None => Failed(db)
    case Some(e) =>
      var sh := db.ShardOf(e.from);
      Done(db.Commit(e.from, sh.(edges := sh.edges[eid := e.(props := e.props + props)])),
           OpUpdateEdge(eid, e.from, props))
  }

  /** The cascade of DeleteNode: one logged deletion per listed edge. */
  function EraseEdges(db: DB, es: seq<Edge>): (o: Outcome)
    requires db.Valid()
    ensures o.db.Valid() && |o.db.shards| == |db.shards|
  {
    if es == [] then Outcome(db, [], true)
    else
      var o := EraseEdges(db, es[..|es| - 1]);
      var db1 := EraseEdge(o.db, es[|es| - 1]);
      Outcome(db1, o.log + [Logged(DeletionOf(es[|es| - 1]), db1)], true)
  }

  /** The node's own transaction in DeleteNode. */
  function EraseNode(r: Render, reg: Registry, sh: Shard, id: NodeID): Shard
    requires id in sh.nodes
  {
    var props, names := sh.nodes[id], Labels(sh, id);
    var sh1 := Unindex(r, reg, sh, id, props);
    var sh2 := UnindexUnique(r, reg, sh1, id, names, props);
    sh2.(labelIdx := sh2.labelIdx - LabelKeys(names, id),
         labels := if names == [] then sh2.labels else sh2.labels - {id},
         nodes := sh2.nodes - {id}, nodeCount := sh2.nodeCount - 1)
  }

  /** DeleteNode; `es` is the edge list it read for the node in both directions. */
  function DeleteNode(r: Render, db: DB, id: NodeID, es: seq<Edge>): Outcome
    requires db.Valid()
  {
    var o := EraseEdges(db, es);
    var sh := o.db.ShardOf(id);
    if id !in sh.nodes then Outcome(o.db, o.log, false)
    else
      var db1 := o.db.Commit(id, EraseNode(r, db.reg, sh, id));
      Outcome(db1, o.log + [Logged(OpDeleteNode(id), db1)], true)
  }

  // ---- labels -----------------------------------------------------------------------------

  function AddNodeWithLabels(r: Render, db: DB, names: seq<Str>, props: Props): Outcome
    requires db.Valid() && db.nextNode + 1 < TWO64
  {
    var id := db.nextNode + 1;
    var sh := db.ShardOf(id);
    if Violates(r, db.reg, sh, names, props, 0) then Failed(db.(nextNode := id))
    else
      var sh1 := Index(r, db.reg, sh.(nodes := sh.nodes[id := props]), id, props);
      var sh2 := if names == [] then sh1
                 else sh1.(labels := sh1.labels[id := names], labelIdx := sh1.labelIdx + LabelKeys(names, id));
      var sh3 := IndexUnique(r, db.reg, sh2, id, names, props);
      Done(db.(nextNode := id).Commit(id, sh3.(nodeCount := sh3.nodeCount + 1)), OpAddNodeWithLabels(id, names, props))
  }

  function AddLabel(r: Render, db: DB, id: NodeID, names: seq<Str>): Outcome
    requires db.Valid()
  {
    var sh := db.ShardOf(id);
    if names == [] then Outcome(db, [], true)
    else if id !in sh.nodes then Failed(db)
    else
      var existing := Labels(sh, id);
      var added := NewLabels(existing, names);
      if added == [] then Done(db, OpAddLabel(id, names))
      else if Violates(r, db.reg, sh, added, sh.nodes[id], id) then Failed(db)
      else
        var sh1 := sh.(labels := sh.labels[id := existing + added], labelIdx := sh.labelIdx + LabelKeys(added, id));
        Done(db.Commit(id, IndexUnique(r, db.reg, sh1, id, added, sh.nodes[id])), OpAddLabel(id, names))
  }

  /** RemoveLabel leaves the unique index alone. */
  function RemoveLabel(db: DB, id: NodeID, names: seq<Str>): Outcome
    requires db.Valid()
  {
    var sh := db.ShardOf(id);
    if names == [] then Outcome(db, [], true)
    else if id !in sh.nodes then Failed(db)
    else
      var sh1 := StoreLabels(sh, id, KeptLabels(Labels(sh, id), names));
      Done(db.Commit(id, sh1.(labelIdx := sh1.labelIdx - LabelKeys(names, id))), OpRemoveLabel(id, names))
  }

  // ---- indexes ------------------------------------------------------------------------------

  function CreateIndex(r: Render, db: DB, p: Str): Outcome {
    var db1 := AllShards(db, sh => BuildProp(r, p, sh));
    Done(db1.(reg := db.reg.(indexed := db.reg.indexed + {p})), OpCreateIndex(p))
  }

  function DropIndex(db: DB, p: Str): Outcome {
    var db1 := AllShards(db, sh => ClearProp(p, sh));
    Done(db1.(reg := db.reg.(indexed := db.reg.indexed - {p})), OpDropIndex(p))
  }

  function Insert(s: Str, sorted: seq<Str>): seq<Str> {
    if sorted == [] then [s]
    else if CompareStr(s, sorted[0]) <= 0 then [s] + sorted
    else [sorted[0]] + Insert(s, sorted[1..])
  }

  /** newCompositeIndexDef: the sorted names, and their NUL-joined key. */
  function Definition(names: seq<Str>): seq<Str> {
    if names == [] then [] else Insert(names[0], Definition(names[1..]))
  }

  function DefKey(def: seq<Str>): Str {
    if def == [] then [] else if |def| == 1 then def[0] else def[0] + [NUL] + DefKey(def[1..])
  }

  function CreateComposite(r: Render, db: DB, names: seq<Str>): Outcome {
    var def := Definition(names);
    if |names| < 2 then Failed(db)
    else
      var db1 := AllShards(db, sh => BuildComp(r, def, sh));
      Done(db1.(reg := db.reg.(composite := db.reg.composite[DefKey(def) := def])), OpCreateComposite(names))
  }

  function DropComposite(db: DB, names: seq<Str>): Outcome {
    var def := Definition(names);
    var db1 := AllShards(db, sh => ClearComp(def, sh));
    Done(db1.(reg := db.reg.(composite := db.reg.composite - {DefKey(def)})), OpDropComposite(names))
  }

  // ---- unique constraints ---------------------------------------------------------------------

  /**
   The prefix scan of shard `i` for the constraint's label meets key `k`, which names
   node `id`, whose constrained property renders as `text`.
   */
  predicate Contributes(r: Render, c: Constraint, db: DB, i: nat, k: Str, id: NodeID, text: Str) {
    && i < |db.shards| && k in db.shards[i].labelIdx
    && IndexPrefix(c.name) <= k && |k| >= |IndexPrefix(c.name)| + 8
    && FromBigEndian(k[|IndexPrefix(c.name)|..|IndexPrefix(c.name)| + 8]) == id
    && id in db.shards[i].nodes && c.prop in db.shards[i].nodes[id]
    && r(db.shards[i].nodes[id][c.prop]) == text
  }

  ghost predicate Repeats(r: Render, c: Constraint, db: DB, i: nat, k: Str, id: NodeID, j: nat, k': Str, id': NodeID,
      text: Str) {
    (i, k) != (j, k') && Contributes(r, c, db, i, k, id, text) && Contributes(r, c, db, j, k', id', text)
  }

  /** Two scanned keys with the same rendered value. */
  ghost predicate Duplicated(r: Render, c: Constraint, db: DB) {
    exists i: nat, k, id: NodeID, j: nat, k', id': NodeID, text :: Repeats(r, c, db, i, k, id, j, k', id', text)
  }

  /** `key` is the unique key of a scanned value of node `id`. */
  ghost predicate Seen(r: Render, c: Constraint, db: DB, key: Str, id: NodeID) {
    exists i: nat, k, text :: Contributes(r, c, db, i, k, id, text) && key == UniqueKey(c.name, c.prop, text)
  }

  /** The unique keys that building the index writes into shard `i`: those of its own nodes. */
  ghost function SeenKeys(r: Render, c: Constraint, db: DB, i: nat): set<Str>
    requires db.Valid()
  {
    set j, id | 0 <= j < |db.shards| && id in db.shards[j].nodes && db.Home(id) == i && c.prop in db.shards[j].nodes[id]
                && Seen(r, c, db, UniqueKey(c.name, c.prop, r(db.shards[j].nodes[id][c.prop])), id)
      :: UniqueKey(c.name, c.prop, r(db.shards[j].nodes[id][c.prop]))
  }

  ghost function Owner(r: Render, c: Constraint, db: DB, i: nat, key: Str): NodeID
    requires db.Valid()
  {
    if exists id: NodeID :: Seen(r, c, db, key, id) && db.Home(id) == i then
      var id: NodeID :| Seen(r, c, db, key, id) && db.Home(id) == i;
      id
    else 0
  }

  /** Every shard gets the entries of the nodes it owns. */
  ghost function BuildUnique(r: Render, c: Constraint, db: DB): DB
    requires db.Valid()
  {
    db.(shards := seq(|db.shards|, i requires 0 <= i < |db.shards| =>
      db.shards[i].(uniqIdx := db.shards[i].uniqIdx + map key | key in SeenKeys(r, c, db, i) ::
                    Owner(r, c, db, i, key))))
  }

  ghost function CreateUnique(r: Render, db: DB, c: Constraint): Outcome
    requires db.Valid()
  {
    if RegistryKey(c) in db.reg.unique then Outcome(db, [], true)
    else if Duplicated(r, c, db) then Failed(db)
    else Done(BuildUnique(r, c, db).(reg := db.reg.(unique := db.reg.unique[RegistryKey(c) := c])), OpCreateUnique(c))
  }

  function DropUnique(db: DB, c: Constraint): Outcome {
    if RegistryKey(c) !in db.reg.unique then Outcome(db, [], true)
    else
      var db1 := AllShards(db, sh => ClearUnique(c, sh));
      Done(db1.(reg := db.reg.(unique := db.reg.unique - {RegistryKey(c)})), OpDropUnique(c))
  }

  // ---- calls ------------------------------------------------------------------------------------

  datatype Call =
    | AddNodeCall(props: Props)
    | AddNodeBatchCall(list: seq<Props>)
    | UpdateNodeCall(id: NodeID, props: Props)
    | SetNodePropsCall(id: NodeID, props: Props)
    | DeleteNodeCall(id: NodeID, listed: seq<Edge>)
    | AddEdgeCall(source: NodeID, target: NodeID, name: Str, props: Props)
    | AddEdgeBatchCall(edges: seq<Edge>)
    | DeleteEdgeCall(eid: EdgeID)
    | UpdateEdgeCall(eid: EdgeID, props: Props)
    | AddNodeWithLabelsCall(names: seq<Str>, props: Props)
    | AddLabelCall(id: NodeID, names: seq<Str>)
    | RemoveLabelCall(id: NodeID, names: seq<Str>)
    | CreateIndexCall(prop: Str)
    | DropIndexCall(prop: Str)
    | CreateCompositeCall(names: seq<Str>)
    | DropCompositeCall(names: seq<Str>)
    | CreateUniqueCall(c: Constraint)
    | DropUniqueCall(c: Constraint)

  /** There are IDs left for the call. */
  predicate Room(db: DB, call: Call) {
    match call
    case AddNodeCall(_) => db.nextNode + 1 < TWO64
    case AddNodeWithLabelsCall(_, _) => db.nextNode + 1 < TWO64
    case AddNodeBatchCall(list) => db.nextNode + |list| < TWO64
    case AddEdgeCall(_, _, _, _) => db.nextEdge + 1 < TWO64
    case AddEdgeBatchCall(es) => db.nextEdge + |es| < TWO64
    case _ => true
  }

  ghost function Execute(r: Render, db: DB, call: Call): Outcome
    requires db.Valid() && Room(db, call)
  {
    match call
    case AddNodeCall(props) => AddNode(r, db, props)
    case AddNodeBatchCall(list) => AddNodeBatch(db, list)
    case UpdateNodeCall(id, props) => UpdateNode(r, db, id, props)
    case SetNodePropsCall(id, props) => SetNodeProps(r, db, id, props)
    case DeleteNodeCall(id, es) => DeleteNode(r, db, id, es)
    case AddEdgeCall(s, t, name, props) => AddEdge(db, s, t, name, props)
    case AddEdgeBatchCall(es) => AddEdgeBatch(db, es)
    case DeleteEdgeCall(eid) => DeleteEdge(db, eid)
    case UpdateEdgeCall(eid, props) => UpdateEdge(db, eid, props)
    case AddNodeWithLabelsCall(names, props) => AddNodeWithLabels(r, db, names, props)
    case AddLabelCall(id, names) => AddLabel(r, db, id, names)
    case RemoveLabelCall(id, names) => RemoveLabel(db, id, names)
    case CreateIndexCall(p) => CreateIndex(r, db, p)
    case DropIndexCall(p) => DropIndex(db, p)
    case CreateCompositeCall(names) => CreateComposite(r, db, names)
    case DropCompositeCall(names) => DropComposite(db, names)
    case CreateUniqueCall(c) => CreateUnique(r, db, c)
    case DropUniqueCall(c) => DropUnique(db, c)
  }
}
