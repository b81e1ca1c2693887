/**
 Replayed data entries that share no node record and no edge ID commute, so every
 reordering of a log that respects LSN order among conflicting entries ends in the
 same buckets. An entry acts on a shard as a patch of deletions and writes whose keys
 all belong to the records the entry names.
 */
module Commute {
  import opened Types
  import opened Values
  import opened Keys
  import opened Store
  import opened Leader
  import opened Applier
  import opened Replay

  /** Entries that are not index or constraint definitions. */
  predicate IsData(op: Op) {
    match op
    case OpCreateIndex(_) => false
    case OpDropIndex(_) => false
    case OpCreateComposite(_) => false
    case OpDropComposite(_) => false
    case OpCreateUnique(_) => false
    case OpDropUnique(_) => false
    case _ => true
  }

  /** The node records an entry reads or writes. */
  function NodesOf(op: Op): set<NodeID> {
    match op
    case OpAddNode(id, _) => {id}
    case OpAddNodeBatch(nodes) => set i | 0 <= i < |nodes| :: nodes[i].0
    case OpUpdateNode(id, _) => {id}
    case OpSetNodeProps(id, _) => {id}
    case OpDeleteNode(id) => {id}
    case OpAddNodeWithLabels(id, _, _) => {id}
    case OpAddLabel(id, _) => {id}
    case OpRemoveLabel(id, _) => {id}
    case _ => {}
  }

  /** The edge IDs an entry reads or writes. */
  function EdgesOf(op: Op): set<EdgeID> {
    match op
    case OpAddEdge(e) => {e.id}
    case OpAddEdgeBatch(es) => set i | 0 <= i < |es| :: es[i].id
    case OpDeleteEdge(eid, _, _, _) => {eid}
    case OpUpdateEdge(eid, _, _) => {eid}
    case _ => {}
  }

  predicate Independent(a: Op, b: Op) {
    NodesOf(a) !! NodesOf(b) && EdgesOf(a) !! EdgesOf(b)
  }

  // ---- patches ------------------------------------------------------------------------------

  datatype MapEdit<K, V> = MapEdit(del: set<K>, put: map<K, V>)

  datatype SetEdit = SetEdit(del: set<Str>, put: set<Str>)

  datatype Patch = Patch(
    nodes: MapEdit<NodeID, Props>,
    labels: MapEdit<NodeID, seq<Str>>,
    labelIdx: SetEdit,
    propIdx: SetEdit,
    compIdx: SetEdit,
    edges: MapEdit<EdgeID, Edge>,
    adjOut: MapEdit<AdjKey, AdjVal>,
    adjIn: MapEdit<AdjKey, AdjVal>,
    edgeType: SetEdit,
    dn: int,
    de: int)

  function NoMap<K, V>(): MapEdit<K, V> {
    MapEdit({}, map[])
  }

  const NoSet := SetEdit({}, {})

  function Nothing(): Patch {
    Patch(NoMap(), NoMap(), NoSet, NoSet, NoSet, NoMap(), NoMap(), NoMap(), NoSet, 0, 0)
  }

  /** Deletions first, then writes. */
  function EditMap<K, V>(m: map<K, V>, e: MapEdit<K, V>): map<K, V> {
    m - e.del + e.put
  }

  function EditSet(s: set<Str>, e: SetEdit): set<Str> {
    s - e.del + e.put
  }

  function Patched(sh: Shard, p: Patch): Shard {
    sh.(nodes := EditMap(sh.nodes, p.nodes), labels := EditMap(sh.labels, p.labels),
        labelIdx := EditSet(sh.labelIdx, p.labelIdx), propIdx := EditSet(sh.propIdx, p.propIdx), compIdx :=
          EditSet(sh.compIdx, p.compIdx),
        edges := EditMap(sh.edges, p.edges), adjOut := EditMap(sh.adjOut, p.adjOut), adjIn :=
          EditMap(sh.adjIn, p.adjIn),
        edgeType := EditSet(sh.edgeType, p.edgeType),
        nodeCount := sh.nodeCount + p.dn, edgeCount := sh.edgeCount + p.de)
  }

  function ThenMap<K, V>(a: MapEdit<K, V>, b: MapEdit<K, V>): MapEdit<K, V> {
    MapEdit(a.del + b.del, a.put - b.del + b.put)
  }

  function ThenSet(a: SetEdit, b: SetEdit): SetEdit {
    SetEdit(a.del + b.del, a.put - b.del + b.put)
  }

  function Then(p: Patch, q: Patch): Patch {
    Patch(ThenMap(p.nodes, q.nodes), ThenMap(p.labels, q.labels),
          ThenSet(p.labelIdx, q.labelIdx), ThenSet(p.propIdx, q.propIdx), ThenSet(p.compIdx, q.compIdx),
          ThenMap(p.edges, q.edges), ThenMap(p.adjOut, q.adjOut), ThenMap(p.adjIn, q.adjIn),
          ThenSet(p.edgeType, q.edgeType), p.dn + q.dn, p.de + q.de)
  }

  lemma ThenMapIsBoth<K, V>(m: map<K, V>, a: MapEdit<K, V>, b: MapEdit<K, V>)
    ensures EditMap(m, ThenMap(a, b)) == EditMap(EditMap(m, a), b)
  {
  }

  lemma ThenSetIsBoth(s: set<Str>, a: SetEdit, b: SetEdit)
    ensures EditSet(s, ThenSet(a, b)) == EditSet(EditSet(s, a), b)
  {
  }

  lemma ThenIsBoth(sh: Shard, p: Patch, q: Patch)
    ensures Patched(sh, Then(p, q)) == Patched(Patched(sh, p), q)
  {
    ThenMapIsBoth(sh.nodes, p.nodes, q.nodes);
    ThenMapIsBoth(sh.labels, p.labels, q.labels);
    ThenSetIsBoth(sh.labelIdx, p.labelIdx, q.labelIdx);
    ThenSetIsBoth(sh.propIdx, p.propIdx, q.propIdx);
    ThenSetIsBoth(sh.compIdx, p.compIdx, q.compIdx);
    ThenMapIsBoth(sh.edges, p.edges, q.edges);
    ThenMapIsBoth(sh.adjOut, p.adjOut, q.adjOut);
    ThenMapIsBoth(sh.adjIn, p.adjIn, q.adjIn);
    ThenSetIsBoth(sh.edgeType, p.edgeType, q.edgeType);
  }

  // ---- footprints ---------------------------------------------------------------------------

  /** The ID in the last eight bytes of an index key. */
  function KeyOwner(k: Str): int {
    if |k| < 8 then -1 else FromBigEndian(k[|k| - 8..])
  }

  ghost predicate MapWithin<K(!new), V>(e: MapEdit<K, V>, own: K -> int, ids: set<uint64>) {
    forall k {:trigger own(k)} :: k in e.del || k in e.put ==> own(k) in ids
  }

  ghost predicate SetWithin(e: SetEdit, ids: set<uint64>) {
    forall k {:trigger KeyOwner(k)} :: k in e.del || k in e.put ==> KeyOwner(k) in ids
  }

  function Itself(id: uint64): int {
    id
  }

  function EdgePart(k: AdjKey): int {
    k.1
  }

  /** Every key the patch touches belongs to one of the node records or edge IDs. */
  ghost predicate Within(p: Patch, ns: set<NodeID>, es: set<EdgeID>) {
    && MapWithin(p.nodes, Itself, ns) && MapWithin(p.labels, Itself, ns)
    && SetWithin(p.labelIdx, ns) && SetWithin(p.propIdx, ns) && SetWithin(p.compIdx, ns)
    && MapWithin(p.edges, Itself, es) && MapWithin(p.adjOut, EdgePart, es) && MapWithin(p.adjIn, EdgePart, es)
    && SetWithin(p.edgeType, es)
  }

  lemma MapsSwap<K(!new), V>(m: map<K, V>, a: MapEdit<K, V>, b: MapEdit<K, V>, own: K -> int, x: set<uint64>,
      y: set<uint64>)
    requires MapWithin(a, own, x) && MapWithin(b, own, y) && x !! y
    ensures EditMap(EditMap(m, a), b) == EditMap(EditMap(m, b), a)
  {
    var l, r := EditMap(EditMap(m, a), b), EditMap(EditMap(m, b), a);
    forall k: K
      ensures (k in l <==> k in r) && (k in l && k in r ==> l[k] == r[k])
    {
      assert own(k) in x ==> own(k) !in y;
    }
  }

  lemma SetsSwap(s: set<Str>, a: SetEdit, b: SetEdit, x: set<uint64>, y: set<uint64>)
    requires SetWithin(a, x) && SetWithin(b, y) && x !! y
    ensures EditSet(EditSet(s, a), b) == EditSet(EditSet(s, b), a)
  {
    var l, r := EditSet(EditSet(s, a), b), EditSet(EditSet(s, b), a);
    forall k: Str
      ensures k in l <==> k in r
    {
      assert KeyOwner(k) in x ==> KeyOwner(k) !in y;
    }
  }

  lemma PatchesSwap(sh: Shard, p: Patch, ns: set<NodeID>, es: set<EdgeID>, q: Patch, ns': set<NodeID>, es': set<EdgeID>)
    requires Within(p, ns, es) && Within(q, ns', es') && ns !! ns' && es !! es'
    ensures Patched(Patched(sh, p), q) == Patched(Patched(sh, q), p)
  {
    MapsSwap(sh.nodes, p.nodes, q.nodes, Itself, ns, ns');
    MapsSwap(sh.labels, p.labels, q.labels, Itself, ns, ns');
    SetsSwap(sh.labelIdx, p.labelIdx, q.labelIdx, ns, ns');
    SetsSwap(sh.propIdx, p.propIdx, q.propIdx, ns, ns');
    SetsSwap(sh.compIdx, p.compIdx, q.compIdx, ns, ns');
    MapsSwap(sh.edges, p.edges, q.edges, Itself, es, es');
    MapsSwap(sh.adjOut, p.adjOut, q.adjOut, EdgePart, es, es');
    MapsSwap(sh.adjIn, p.adjIn, q.adjIn, EdgePart, es, es');
    SetsSwap(sh.edgeType, p.edgeType, q.edgeType, es, es');
  }

  lemma ThenWithin(p: Patch, q: Patch, ns: set<NodeID>, es: set<EdgeID>)
    requires Within(p, ns, es) && Within(q, ns, es)
    ensures Within(Then(p, q), ns, es)
  {
  }

  lemma WithinMore(p: Patch, ns: set<NodeID>, es: set<EdgeID>, ns': set<NodeID>, es': set<EdgeID>)
    requires Within(p, ns, es) && ns <= ns' && es <= es'
    ensures Within(p, ns', es')
  {
  }

  /** Index keys carry their ID at the end. */
  lemma IndexKeyOwner(prefix: Str, id: uint64)
    ensures KeyOwner(IndexKey(prefix, id)) == id
  {
    IDRoundTrip(id);
    var k := IndexKey(prefix, id);
    assert k[|k| - 8..] == EncodeID(id);
  }

  lemma CompKeyOwner(r: Render, def: seq<Str>, props: Props, id: NodeID)
    requires HasAll(def, props)
    ensures KeyOwner(CompKey(r, def, props, id)) == id
  {
    IDRoundTrip(id);
    var k := CompKey(r, def, props, id);
    assert k[|k| - 8..] == EncodeID(id);
  }

  // ---- the patch of an entry ------------------------------------------------------------------

  function PropOf(r: Render, reg: Registry, id: NodeID, props: Props): set<Str> {
    if props == map[] then {} else PropKeys(r, reg.indexed, id, props)
  }

  function CompOf(r: Render, reg: Registry, id: NodeID, props: Props): set<Str> {
    if props == map[] then {} else CompKeys(r, reg.composite, id, props)
  }

  /** A node record rewritten from one property map to another. */
  function Rewrite(r: Render, reg: Registry, id: NodeID, was: Props, props: Props): Patch {
    Nothing().(nodes := MapEdit({}, map[id := props]),
               propIdx := SetEdit(PropOf(r, reg, id, was), PropOf(r, reg, id, props)),
               compIdx := SetEdit(CompOf(r, reg, id, was), CompOf(r, reg, id, props)))
  }

  function Relabel(id: NodeID, kept: seq<Str>, gone: set<Str>, added: set<Str>): Patch {
    Nothing().(labels := if kept == [] then MapEdit({id}, map[])
               else MapEdit({}, map[id := kept]), labelIdx := SetEdit(gone, added))
  }

  function Old(sh: Shard, id: NodeID): Props {
    if id in sh.nodes then sh.nodes[id] else map[]
  }

  /** What an entry about one node does to the shard that owns it. */
  function NodePatch(r: Render, reg: Registry, sh: Shard, op: Op): Patch {
    match op
    case OpAddNode(id, props) => Rewrite(r, reg, id, map[], props).(dn := 1)
    case OpUpdateNode(id, props) => if id in sh.nodes then Rewrite(r, reg, id, sh.nodes[id], sh.nodes[id] + props)
      else Nothing()
    case OpSetNodeProps(id, props) => Rewrite(r, reg, id, Old(sh, id), props)
    case OpDeleteNode(id) =>
      if id !in sh.nodes then Nothing().(dn := -1)
      else Nothing().(nodes := MapEdit({id}, map[]), dn := -1,
                      propIdx := SetEdit(PropOf(r, reg, id, sh.nodes[id]), {}), compIdx :=
                        SetEdit(CompOf(r, reg, id, sh.nodes[id]), {}),
                      labels := if Labels(sh, id) == [] then NoMap() else MapEdit({id}, map[]),
                      labelIdx := SetEdit(LabelKeys(Labels(sh, id), id), {}))
    case OpAddNodeWithLabels(id, names, props) =>
      var p := Rewrite(r, reg, id, map[], props).(dn := 1);
      if names == [] then p
        else p.(labels := MapEdit({}, map[id := names]), labelIdx := SetEdit({}, LabelKeys(names, id)))
    case OpAddLabel(id, names) =>
      var added := NewLabels(Labels(sh, id), names);
      if id !in sh.nodes ||
          added == [] then Nothing() else Relabel(id, Labels(sh, id) + added, {}, LabelKeys(added, id))
    case OpRemoveLabel(id, names) =>
      if id !in sh.nodes then Nothing() else Relabel(id, KeptLabels(Labels(sh, id), names), LabelKeys(names, id), {})
    case _ => Nothing()
  }

  predicate IsNodeOp(op: Op) {
    op.OpAddNode? || op.OpUpdateNode? || op.OpSetNodeProps? || op.OpDeleteNode? || op.OpAddNodeWithLabels? ||
        op.OpAddLabel? || op.OpRemoveLabel?
  }

  function OutPatch(e: Edge): Patch {
    Nothing().(edges := MapEdit({}, map[e.id := e]), adjOut := MapEdit({}, map[(e.from, e.id) := AdjVal(e.to, e.lbl)]),
               edgeType := SetEdit({}, {IndexKey(e.lbl, e.id)}), de := 1)
  }

  function InPatch(e: Edge): Patch {
    Nothing().(adjIn := MapEdit({}, map[(e.to, e.id) := AdjVal(e.from, e.lbl)]))
  }

  /** The source's shard gets the edge, the target's the incoming entry. */
  function EdgePatch(n: nat, i: nat, e: Edge): Patch
    requires n > 0
  {
    Then(if e.from % n == i then OutPatch(e) else Nothing(), if e.to % n == i then InPatch(e) else Nothing())
  }

  function EdgeBatchPatch(n: nat, i: nat, es: seq<Edge>): Patch
    requires n > 0
  {
    if es == [] then Nothing() else Then(EdgeBatchPatch(n, i, es[..|es| - 1]), EdgePatch(n, i, es[|es| - 1]))
  }

  function NodeBatchPatch(n: nat, i: nat, nodes: seq<(NodeID, Props)>): Patch
    requires n > 0
  {
    if nodes == [] then Nothing()
    else
      var last := nodes[|nodes| - 1];
      Then(NodeBatchPatch(n, i, nodes[..|nodes| - 1]),
           if last.0 % n == i then Nothing().(nodes := MapEdit({}, map[last.0 := last.1]), dn := 1) else Nothing())
  }

  function EraseOut(eid: EdgeID, source: NodeID, name: Str): Patch {
    Nothing().(edges := MapEdit({eid}, map[]), adjOut := MapEdit({(source, eid)}, map[]),
               edgeType := SetEdit({IndexKey(name, eid)}, {}), de := -1)
  }

  function EraseIn(eid: EdgeID, target: NodeID): Patch {
    Nothing().(adjIn := MapEdit({(target, eid)}, map[]))
  }

  function ErasePatch(n: nat, i: nat, eid: EdgeID, source: NodeID, target: NodeID, name: Str): Patch
    requires n > 0
  {
    Then(if source % n == i then EraseOut(eid, source, name) else Nothing(), if target % n == i then
         EraseIn(eid, target) else Nothing())
  }

  /** What a data entry does to shard `i` of `n`. */
  function PatchOf(r: Render, reg: Registry, n: nat, i: nat, sh: Shard, op: Op): Patch
    requires n > 0
  {
    match op
    case OpAddNodeBatch(nodes) => NodeBatchPatch(n, i, nodes)
    case OpAddEdge(e) => EdgePatch(n, i, e)
    case OpAddEdgeBatch(es) => EdgeBatchPatch(n, i, es)
    case OpDeleteEdge(eid, source, target, name) => ErasePatch(n, i, eid, source, target, name)
    case OpUpdateEdge(eid, source, props) =>
      if source % n == i && eid in sh.edges then
        Nothing().(edges := MapEdit({}, map[eid := sh.edges[eid].(props := sh.edges[eid].props + props)]))
      else Nothing()
    case _ => if IsNodeOp(op) && op.id % n == i then NodePatch(r, reg, sh, op) else Nothing()
  }

  /** The entries that can be refused need their record to exist. */
  predicate Applicable(db: DB, op: Op)
    requires db.Valid()
  {
    match op
    case OpUpdateNode(id, _) => db.HasNode(id)
    case OpAddLabel(id, _) => db.HasNode(id)
    case OpUpdateEdge(eid, source, _) => eid in db.ShardOf(source).edges
    case _ => true
  }

  /** A data entry applied shard by shard. */
  function Spread(r: Render, db: DB, op: Op): (db': DB)
    requires db.Valid()
    ensures db'.Valid() && |db'.shards| == |db.shards| && db'.reg == db.reg
  {
    db.(shards := seq(|db.shards|,
                      i requires 0 <= i < |db.shards| => Patched(db.shards[i],
                          PatchOf(r, db.reg, |db.shards|, i, db.shards[i], op))))
  }

  lemma KeepMap<K, V>(m: map<K, V>)
    ensures EditMap(m, NoMap()) == m
  {
  }

  lemma PutOne<K, V>(m: map<K, V>, k: K, v: V)
    ensures EditMap(m, MapEdit({}, map[k := v])) == m[k := v]
  {
  }

  lemma DropOne<K, V>(m: map<K, V>, k: K)
    ensures EditMap(m, MapEdit({k}, map[])) == m - {k}
  {
  }

  lemma Edits(s: set<Str>, d: set<Str>, p: set<Str>)
    ensures EditSet(s, NoSet) == s && EditSet(s, SetEdit({}, p)) == s + p && EditSet(s, SetEdit(d, {})) == s - d
  {
  }

  lemma KeepAll(sh: Shard)
    ensures EditMap(sh.nodes, NoMap()) == sh.nodes && EditMap(sh.labels, NoMap()) == sh.labels
    ensures EditMap(sh.edges, NoMap()) == sh.edges && EditMap(sh.adjOut, NoMap()) == sh.adjOut &&
            EditMap(sh.adjIn, NoMap()) == sh.adjIn
    ensures EditSet(sh.labelIdx, NoSet) == sh.labelIdx && EditSet(sh.propIdx, NoSet) == sh.propIdx &&
            EditSet(sh.compIdx, NoSet) == sh.compIdx
    ensures EditSet(sh.edgeType, NoSet) == sh.edgeType
  {
    KeepMap(sh.nodes);
    KeepMap(sh.labels);
    KeepMap(sh.edges);
    KeepMap(sh.adjOut);
    KeepMap(sh.adjIn);
  }

  lemma PatchNothing(sh: Shard)
    ensures Patched(sh, Nothing()) == sh
  {
    KeepAll(sh);
  }

  lemma PutEdgeIsPatch(sh: Shard, e: Edge)
    ensures PutEdge(sh, e) == Patched(sh, OutPatch(e)) && PutIncoming(sh, e) == Patched(sh, InPatch(e))
  {
    KeepAll(sh);
    PutOne(sh.edges, e.id, e);
    PutOne(sh.adjOut, (e.from, e.id), AdjVal(e.to, e.lbl));
    PutOne(sh.adjIn, (e.to, e.id), AdjVal(e.from, e.lbl));
    Edits(sh.edgeType, {}, {IndexKey(e.lbl, e.id)});
  }

  lemma DropEdgeIsPatch(sh: Shard, eid: EdgeID, source: NodeID, target: NodeID, name: Str)
    ensures DropEdge(sh, eid, source, name) == Patched(sh, EraseOut(eid, source, name)) &&
            DropIncoming(sh, eid, target) == Patched(sh, EraseIn(eid, target))
  {
    KeepAll(sh);
    DropOne(sh.edges, eid);
    DropOne(sh.adjOut, (source, eid));
    DropOne(sh.adjIn, (target, eid));
    Edits(sh.edgeType, {IndexKey(name, eid)}, {});
  }

  lemma WriteEdgeIsPatch(db: DB, e: Edge, i: nat)
    requires db.Valid() && i < |db.shards|
    ensures WriteEdge(db, e).shards[i] == Patched(db.shards[i], EdgePatch(|db.shards|, i, e))
  {
    var n, sh := |db.shards|, db.shards[i];
    var p := if e.from % n == i then OutPatch(e) else Nothing();
    var q := if e.to % n == i then InPatch(e) else Nothing();
    ThenIsBoth(sh, p, q);
    PatchNothing(sh);
    PatchNothing(Patched(sh, p));
    PutEdgeIsPatch(sh, e);
    PutEdgeIsPatch(Patched(sh, p), e);
  }

  lemma {:induction false} EdgeBatchIsPatch(db: DB, es: seq<Edge>, i: nat)
    requires db.Valid() && i < |db.shards|
    ensures ApplyAddEdges(db, es).shards[i] == Patched(db.shards[i], EdgeBatchPatch(|db.shards|, i, es))
  {
    if es == [] {
      PatchNothing(db.shards[i]);
    } else {
      EdgeBatchIsPatch(db, es[..|es| - 1], i);
      WriteEdgeIsPatch(ApplyAddEdges(db, es[..|es| - 1]), es[|es| - 1], i);
      ThenIsBoth(db.shards[i], EdgeBatchPatch(|db.shards|, i, es[..|es| - 1]), EdgePatch(|db.shards|, i, es[|es| - 1]));
    }
  }

  lemma {:induction false} NodeBatchIsPatch(sh: Shard, nodes: seq<(NodeID, Props)>, n: nat, i: nat)
    requires n > 0
    ensures PutOwnNodes(sh, nodes, n, i) == Patched(sh, NodeBatchPatch(n, i, nodes))
  {
    if nodes == [] {
      PatchNothing(sh);
    } else {
      var last := nodes[|nodes| - 1];
      NodeBatchIsPatch(sh, nodes[..|nodes| - 1], n, i);
      var q := if last.0 % n == i then Nothing().(nodes := MapEdit({}, map[last.0 := last.1]), dn := 1) else Nothing();
      ThenIsBoth(sh, NodeBatchPatch(n, i, nodes[..|nodes| - 1]), q);
      NodeIsPatch(PutOwnNodes(sh, nodes[..|nodes| - 1], n, i), last.0, last.1);
    }
  }

  lemma NodeIsPatch(sh: Shard, id: NodeID, props: Props)
    ensures Patched(sh, Nothing().(nodes := MapEdit({}, map[id := props]), dn := 1)) ==
              sh.(nodes := sh.nodes[id := props], nodeCount := sh.nodeCount + 1)
    ensures Patched(sh, Nothing()) == sh
  {
    KeepAll(sh);
    PutOne(sh.nodes, id, props);
  }

  /** Unindexing the old properties, writing the record and indexing the new ones. */
  lemma RewriteIsPatch(r: Render, reg: Registry, sh: Shard, id: NodeID, was: Props, props: Props)
    ensures var sh1 := Unindex(r, reg, sh, id, was);
            Index(r, reg, sh1.(nodes := sh1.nodes[id := props]), id, props) ==
                Patched(sh, Rewrite(r, reg, id, was, props))
  {
    KeepAll(sh);
    PutOne(sh.nodes, id, props);
  }

  lemma AddIsPatch(r: Render, reg: Registry, sh: Shard, id: NodeID, names: seq<Str>, props: Props)
    ensures var sh1 := Index(r, reg, sh.(nodes := sh.nodes[id := props]), id, props);
            && sh1.(nodeCount := sh1.nodeCount + 1) == Patched(sh, NodePatch(r, reg, sh, OpAddNode(id, props)))
            && (names != [] ==>
                sh1.(labels := sh1.labels[id := names], labelIdx := sh1.labelIdx + LabelKeys(names, id), nodeCount :=
                     sh1.nodeCount + 1)
                                == Patched(sh, NodePatch(r, reg, sh, OpAddNodeWithLabels(id, names, props))))
  {
    assert Unindex(r, reg, sh, id, map[]) == sh;
    RewriteIsPatch(r, reg, sh, id, map[], props);
    KeepAll(sh);
    PutOne(sh.labels, id, names);
    Edits(sh.labelIdx, {}, LabelKeys(names, id));
  }

  lemma DeleteIsPatch(r: Render, db: DB, id: NodeID)
    requires db.Valid()
    ensures ApplyDeleteNode(r, db, id).ShardOf(id) ==
              Patched(db.ShardOf(id), NodePatch(r, db.reg, db.ShardOf(id), OpDeleteNode(id)))
  {
    var sh := db.ShardOf(id);
    KeepAll(sh);
    DropOne(sh.nodes, id);
    DropOne(sh.labels, id);
    if id in sh.nodes {
      Edits(sh.propIdx, PropOf(r, db.reg, id, sh.nodes[id]), {});
      Edits(sh.compIdx, CompOf(r, db.reg, id, sh.nodes[id]), {});
      Edits(sh.labelIdx, LabelKeys(Labels(sh, id), id), {});
    }
  }

  lemma RelabelIsPatch(sh: Shard, id: NodeID, kept: seq<Str>, gone: set<Str>, added: set<Str>)
    ensures var sh1 := StoreLabels(sh, id, kept);
            sh1.(labelIdx := sh1.labelIdx - gone + added) == Patched(sh, Relabel(id, kept, gone, added))
  {
    KeepAll(sh);
    PutOne(sh.labels, id, kept);
    DropOne(sh.labels, id);
  }

  lemma AddLabelIsPatch(r: Render, db: DB, id: NodeID, names: seq<Str>)
    requires db.Valid() && db.HasNode(id)
    ensures ApplyAddLabel(db, id, names).value.ShardOf(id) ==
              Patched(db.ShardOf(id), NodePatch(r, db.reg, db.ShardOf(id), OpAddLabel(id, names)))
  {
    var sh := db.ShardOf(id);
    var added := NewLabels(Labels(sh, id), names);
    PatchNothing(sh);
    RelabelIsPatch(sh, id, Labels(sh, id) + added, {}, LabelKeys(added, id));
    assert sh.labelIdx - {} + LabelKeys(added, id) == sh.labelIdx + LabelKeys(added, id);
  }

  lemma RemoveLabelIsPatch(r: Render, db: DB, id: NodeID, names: seq<Str>)
    requires db.Valid()
    ensures ApplyRemoveLabel(db, id, names).ShardOf(id) ==
              Patched(db.ShardOf(id), NodePatch(r, db.reg, db.ShardOf(id), OpRemoveLabel(id, names)))
  {
    var sh := db.ShardOf(id);
    PatchNothing(sh);
    RelabelIsPatch(sh, id, KeptLabels(Labels(sh, id), names), LabelKeys(names, id), {});
    assert sh.labelIdx - LabelKeys(names, id) + {} == sh.labelIdx - LabelKeys(names, id);
  }

  /** A node entry replaces the owner's shard by its patched form and no other. */
  lemma NodeOpIsPatch(r: Render, db: DB, op: Op)
    requires db.Valid() && IsNodeOp(op) && Applicable(db, op)
    ensures ApplyOp(r, db, op).Some?
    ensures ApplyOp(r, db, op).value ==
              db.Commit(op.id, Patched(db.ShardOf(op.id), NodePatch(r, db.reg, db.ShardOf(op.id), op)))
  {
    var sh := db.ShardOf(op.id);
    match op
    case OpAddNode(id, props) => AddIsPatch(r, db.reg, sh, id, [], props);
    case OpUpdateNode(id, props) => RewriteIsPatch(r, db.reg, sh, id, sh.nodes[id], sh.nodes[id] + props);
    case OpSetNodeProps(id, props) => RewriteIsPatch(r, db.reg, sh, id, Old(sh, id), props);
    case OpDeleteNode(id) => DeleteIsPatch(r, db, id);
    case OpAddNodeWithLabels(id, names, props) => AddIsPatch(r, db.reg, sh, id, names, props);
    case OpAddLabel(id, names) =>
      AddLabelIsPatch(r, db, id, names);
      assert db.shards == db.shards[db.Home(id) := db.ShardOf(id)];
    case OpRemoveLabel(id, names) =>
      RemoveLabelIsPatch(r, db, id, names);
      assert db.shards == db.shards[db.Home(id) := db.ShardOf(id)];
  }

  lemma CommitIsSpread(r: Render, db: DB, op: Op)
    requires db.Valid() && IsNodeOp(op)
    ensures db.Commit(op.id, Patched(db.ShardOf(op.id), NodePatch(r, db.reg, db.ShardOf(op.id), op))) ==
              Spread(r, db, op)
  {
    var l := db.Commit(op.id, Patched(db.ShardOf(op.id), NodePatch(r, db.reg, db.ShardOf(op.id), op)));
    forall i | 0 <= i < |db.shards|
      ensures l.shards[i] == Spread(r, db, op).shards[i]
    {
      PatchNothing(db.shards[i]);
    }
    assert l.shards == Spread(r, db, op).shards;
  }

  lemma DeleteEdgeIsPatch(db: DB, eid: EdgeID, source: NodeID, target: NodeID, name: Str, i: nat)
    requires db.Valid() && i < |db.shards|
    ensures ApplyDeleteEdge(db, eid, source, target, name).shards[i] ==
              Patched(db.shards[i], ErasePatch(|db.shards|, i, eid, source, target, name))
  {
    var n, sh := |db.shards|, db.shards[i];
    var p := if source % n == i then EraseOut(eid, source, name) else Nothing();
    var q := if target % n == i then EraseIn(eid, target) else Nothing();
    ThenIsBoth(sh, p, q);
    PatchNothing(sh);
    PatchNothing(Patched(sh, p));
    DropEdgeIsPatch(sh, eid, source, target, name);
    DropEdgeIsPatch(Patched(sh, p), eid, source, target, name);
  }

  lemma DeleteEdgeIsSpread(r: Render, db: DB, op: Op)
    requires db.Valid() && op.OpDeleteEdge?
    ensures ApplyDeleteEdge(db, op.eid, op.from, op.to, op.lbl) == Spread(r, db, op)
  {
    var l, s := ApplyDeleteEdge(db, op.eid, op.from, op.to, op.lbl), Spread(r, db, op);
    forall i | 0 <= i < |db.shards|
      ensures l.shards[i] == s.shards[i]
    {
      DeleteEdgeIsPatch(db, op.eid, op.from, op.to, op.lbl, i);
    }
    assert l.shards == s.shards;
  }

  lemma UpdateEdgeIsSpread(r: Render, db: DB, eid: EdgeID, source: NodeID, props: Props)
    requires db.Valid() && eid in db.ShardOf(source).edges
    ensures ApplyUpdateEdge(db, eid, source, props) == Some(Spread(r, db, OpUpdateEdge(eid, source, props)))
  {
    var l, s := ApplyUpdateEdge(db, eid, source, props).value, Spread(r, db, OpUpdateEdge(eid, source, props));
    forall i | 0 <= i < |db.shards|
      ensures l.shards[i] == s.shards[i]
    {
      var sh := db.shards[i];
      KeepAll(sh);
      PatchNothing(sh);
      if source % |db.shards| == i {
        PutOne(sh.edges, eid, sh.edges[eid].(props := sh.edges[eid].props + props));
      }
    }
    assert l.shards == s.shards;
  }

  /** A data entry is refused exactly when its record is missing; else each shard gets its patch. */
  lemma ApplyIsSpread(r: Render, db: DB, op: Op)
    requires db.Valid() && IsData(op)
    ensures ApplyOp(r, db, op) == if Applicable(db, op) then Some(Spread(r, db, op)) else None
  {
    var s := Spread(r, db, op);
    if Applicable(db, op) {
      match op
      case OpAddNodeBatch(nodes) =>
        forall i | 0 <= i < |db.shards| ensures PutNodeBatch(db, nodes).shards[i] == s.shards[i] {
          NodeBatchIsPatch(db.shards[i], nodes, |db.shards|, i);
        }
        assert PutNodeBatch(db, nodes).shards == s.shards;
      case OpAddEdge(e) =>
        forall i | 0 <= i < |db.shards| ensures WriteEdge(db, e).shards[i] == s.shards[i] {
          WriteEdgeIsPatch(db, e, i);
        }
        assert WriteEdge(db, e).shards == s.shards;
      case OpAddEdgeBatch(es) =>
        EdgeBatchFrame(db, es);
        forall i | 0 <= i < |db.shards| ensures ApplyAddEdges(db, es).shards[i] == s.shards[i] {
          EdgeBatchIsPatch(db, es, i);
        }
        assert ApplyAddEdges(db, es).shards == s.shards;
      case OpDeleteEdge(eid, source, target, name) => DeleteEdgeIsSpread(r, db, op);
      case OpUpdateEdge(eid, source, props) => UpdateEdgeIsSpread(r, db, eid, source, props);
      case _ =>
        NodeOpIsPatch(r, db, op);
        CommitIsSpread(r, db, op);
    }
  }

  lemma {:induction false} EdgeBatchFrame(db: DB, es: seq<Edge>)
    requires db.Valid()
    ensures ApplyAddEdges(db, es) == db.(shards := ApplyAddEdges(db, es).shards)
  {
    if es != [] {
      EdgeBatchFrame(db, es[..|es| - 1]);
    }
  }

  // ---- patches stay within the entry's records --------------------------------------------------

  lemma NodeKeysOwned(r: Render, reg: Registry, id: NodeID, names: seq<Str>, props: Props)
    ensures forall k {:trigger KeyOwner(k)} ::
              k in PropOf(r, reg, id, props) + CompOf(r, reg, id, props) + LabelKeys(names, id) ==> KeyOwner(k) == id
  {
    forall k | k in PropOf(r, reg, id, props) ensures KeyOwner(k) == id {
      var p :| p in reg.indexed && p in props && k == PropKey(r, p, props[p], id);
      IndexKeyOwner(PropText(p, r(props[p])), id);
    }
    forall k | k in CompOf(r, reg, id, props) ensures KeyOwner(k) == id {
      var c :| c in reg.composite && HasAll(reg.composite[c], props) && k == CompKey(r, reg.composite[c], props, id);
      CompKeyOwner(r, reg.composite[c], props, id);
    }
    forall k | k in LabelKeys(names, id) ensures KeyOwner(k) == id {
      var l :| l in names && k == IndexKey(l, id);
      IndexKeyOwner(l, id);
    }
  }

  lemma NodePatchWithin(r: Render, reg: Registry, sh: Shard, op: Op)
    requires IsNodeOp(op)
    ensures Within(NodePatch(r, reg, sh, op), {op.id}, {})
  {
    var id := op.id;
    NodeKeysOwned(r, reg, id, Labels(sh, id), Old(sh, id));
    if op.OpAddNode? || op.OpUpdateNode? || op.OpSetNodeProps? {
      NodeKeysOwned(r, reg, id, [], op.props);
      NodeKeysOwned(r, reg, id, [], Old(sh, id) + op.props);
    } else if op.OpAddNodeWithLabels? {
      NodeKeysOwned(r, reg, id, op.names, op.props);
      NodeKeysOwned(r, reg, id, [], map[]);
    } else if op.OpAddLabel? || op.OpRemoveLabel? {
      NodeKeysOwned(r, reg, id, op.names, map[]);
      NodeKeysOwned(r, reg, id, NewLabels(Labels(sh, id), op.names), map[]);
    }
  }

  lemma EdgePatchWithin(n: nat, i: nat, e: Edge)
    requires n > 0
    ensures Within(EdgePatch(n, i, e), {}, {e.id})
  {
    IndexKeyOwner(e.lbl, e.id);
    ThenWithin(if e.from % n == i then OutPatch(e) else Nothing(), if e.to % n == i then InPatch(e)
               else Nothing(), {}, {e.id});
  }

  lemma {:induction false} EdgeBatchWithin(n: nat, i: nat, es: seq<Edge>, ids: set<EdgeID>)
    requires n > 0 && forall j :: 0 <= j < |es| ==> es[j].id in ids
    ensures Within(EdgeBatchPatch(n, i, es), {}, ids)
  {
    if es != [] {
      EdgeBatchWithin(n, i, es[..|es| - 1], ids);
      EdgePatchWithin(n, i, es[|es| - 1]);
      WithinMore(EdgePatch(n, i, es[|es| - 1]), {}, {es[|es| - 1].id}, {}, ids);
      ThenWithin(EdgeBatchPatch(n, i, es[..|es| - 1]), EdgePatch(n, i, es[|es| - 1]), {}, ids);
    }
  }

  lemma {:induction false} NodeBatchWithin(n: nat, i: nat, nodes: seq<(NodeID, Props)>, ids: set<NodeID>)
    requires n > 0 && forall j :: 0 <= j < |nodes| ==> nodes[j].0 in ids
    ensures Within(NodeBatchPatch(n, i, nodes), ids, {})
  {
    if nodes != [] {
      var last := nodes[|nodes| - 1];
      NodeBatchWithin(n, i, nodes[..|nodes| - 1], ids);
      ThenWithin(NodeBatchPatch(n, i, nodes[..|nodes| - 1]),
                 if last.0 % n == i then Nothing().(nodes := MapEdit({}, map[last.0 := last.1]), dn := 1)
                   else Nothing(), ids, {});
    }
  }

  lemma PatchWithin(r: Render, reg: Registry, n: nat, i: nat, sh: Shard, op: Op)
    requires n > 0 && IsData(op)
    ensures Within(PatchOf(r, reg, n, i, sh, op), NodesOf(op), EdgesOf(op))
  {
    match op
    case OpAddNodeBatch(nodes) => NodeBatchWithin(n, i, nodes, NodesOf(op));
    case OpAddEdge(e) => EdgePatchWithin(n, i, e);
    case OpAddEdgeBatch(es) => EdgeBatchWithin(n, i, es, EdgesOf(op));
    case OpDeleteEdge(eid, source, target, name) =>
      IndexKeyOwner(name, eid);
      ThenWithin(if source % n == i then EraseOut(eid, source, name) else Nothing(), if target % n == i then
                 EraseIn(eid, target) else Nothing(), {}, {eid});
    case OpUpdateEdge(eid, source, props) =>
    case _ => NodePatchWithin(r, reg, sh, op);
  }

  /** A patch elsewhere changes neither an entry's own patch nor whether it applies. */
  lemma PatchElsewhere(r: Render, reg: Registry, n: nat, i: nat, sh: Shard, op: Op, q: Patch, ns: set<NodeID>,
      es: set<EdgeID>)
    requires n > 0 && IsData(op) && Within(q, ns, es) && ns !! NodesOf(op) && es !! EdgesOf(op)
    ensures PatchOf(r, reg, n, i, Patched(sh, q), op) == PatchOf(r, reg, n, i, sh, op)
    ensures op.OpUpdateNode? || op.OpAddLabel? ==> (op.id in Patched(sh, q).nodes <==> op.id in sh.nodes)
    ensures op.OpUpdateEdge? ==> (op.eid in Patched(sh, q).edges <==> op.eid in sh.edges)
  {
    if IsNodeOp(op) {
      assert Itself(op.id) !in ns;
      assert op.id !in q.nodes.del && op.id !in q.nodes.put && op.id !in q.labels.del && op.id !in q.labels.put;
      assert Old(Patched(sh, q), op.id) == Old(sh, op.id) && (op.id in Patched(sh, q).nodes <==> op.id in sh.nodes);
      assert Labels(Patched(sh, q), op.id) == Labels(sh, op.id);
    } else if op.OpUpdateEdge? {
      assert Itself(op.eid) !in es;
    }
  }

  lemma ApplicableElsewhere(r: Render, db: DB, a: Op, b: Op)
    requires db.Valid() && IsData(a) && IsData(b) && Independent(a, b)
    ensures Applicable(Spread(r, db, a), b) <==> Applicable(db, b)
  {
    if b.OpUpdateNode? || b.OpAddLabel? || b.OpUpdateEdge? {
      var i := db.Home(if b.OpUpdateEdge? then b.from else b.id);
      PatchWithin(r, db.reg, |db.shards|, i, db.shards[i], a);
      PatchElsewhere(r, db.reg, |db.shards|, i, db.shards[i], b, PatchOf(r, db.reg, |db.shards|, i, db.shards[i], a),
                     NodesOf(a), EdgesOf(a));
    }
  }

  /** Two independent entries, in either order, on every state. */
  lemma SpreadsSwap(r: Render, db: DB, a: Op, b: Op)
    requires db.Valid() && IsData(a) && IsData(b) && Independent(a, b)
    ensures Spread(r, Spread(r, db, a), b) == Spread(r, Spread(r, db, b), a)
  {
    var ab, ba := Spread(r, Spread(r, db, a), b), Spread(r, Spread(r, db, b), a);
    forall i | 0 <= i < |db.shards|
      ensures ab.shards[i] == ba.shards[i]
    {
      ShardSwap(r, db.reg, |db.shards|, i, db.shards[i], a, b);
    }
    assert ab.shards == ba.shards;
  }

  lemma ShardSwap(r: Render, reg: Registry, n: nat, i: nat, sh: Shard, a: Op, b: Op)
    requires n > 0 && IsData(a) && IsData(b) && Independent(a, b)
    ensures var p, q := PatchOf(r, reg, n, i, sh, a), PatchOf(r, reg, n, i, sh, b);
            Patched(Patched(sh, p), PatchOf(r, reg, n, i, Patched(sh, p), b)) ==
                Patched(Patched(sh, q), PatchOf(r, reg, n, i, Patched(sh, q), a))
  {
    var p, q := PatchOf(r, reg, n, i, sh, a), PatchOf(r, reg, n, i, sh, b);
    PatchWithin(r, reg, n, i, sh, a);
    PatchWithin(r, reg, n, i, sh, b);
    PatchElsewhere(r, reg, n, i, sh, b, p, NodesOf(a), EdgesOf(a));
    PatchElsewhere(r, reg, n, i, sh, a, q, NodesOf(b), EdgesOf(b));
    PatchesSwap(sh, p, NodesOf(a), EdgesOf(a), q, NodesOf(b), EdgesOf(b));
  }

  /** If `a` then `b` is accepted, so is `b` then `a`, with the same buckets and counters at the end. */
  lemma EntriesCommute(r: Render, db: DB, a: Op, b: Op)
    requires db.Valid() && IsData(a) && IsData(b) && Independent(a, b)
    requires ApplyOp(r, db, a).Some? && ApplyOp(r, db, a).value.Valid() && ApplyOp(r, ApplyOp(r, db, a).value, b).Some?
    ensures ApplyOp(r, db, b).Some? && ApplyOp(r, db, b).value.Valid()
    ensures ApplyOp(r, ApplyOp(r, db, b).value, a) == ApplyOp(r, ApplyOp(r, db, a).value, b)
  {
    ApplyIsSpread(r, db, a);
    ApplyIsSpread(r, db, b);
    SpreadsSwap(r, db, a, b);
    ApplicableElsewhere(r, db, a, b);
    ApplicableElsewhere(r, db, b, a);
    ApplyIsSpread(r, Spread(r, db, a), b);
    ApplyIsSpread(r, Spread(r, db, b), a);
  }

  // ---- reordered logs ---------------------------------------------------------------------------

  datatype Entry = Entry(lsn: nat, op: Op)

  /** The entries one after the other; None once one is refused. */
  ghost function ApplyLog(r: Render, db: DB, log: seq<Entry>): Option<DB>
    requires db.Valid()
    decreases |log|
  {
    if log == [] then Some(db)
    else
      var next := ApplyOp(r, db, log[0].op);
      if next.Some? && next.value.Valid() then ApplyLog(r, next.value, log[1..]) else None
  }

  lemma ApplyFirst(r: Render, db: DB, e: Entry, rest: seq<Entry>)
    requires db.Valid() && ApplyOp(r, db, e.op).Some? && ApplyOp(r, db, e.op).value.Valid()
    ensures ApplyLog(r, db, [e] + rest) == ApplyLog(r, ApplyOp(r, db, e.op).value, rest)
  {
    assert ([e] + rest)[1..] == rest;
  }

  predicate AllData(log: seq<Entry>) {
    forall i :: 0 <= i < |log| ==> IsData(log[i].op)
  }

  predicate AllIndependent(log: seq<Entry>, op: Op) {
    forall i :: 0 <= i < |log| ==> Independent(log[i].op, op)
  }

  ghost predicate InLsnOrder(log: seq<Entry>) {
    forall i, j :: 0 <= i < j < |log| ==> log[i].lsn < log[j].lsn
  }

  /** Entries on the same record stand in LSN order. */
  ghost predicate OrderKept(log: seq<Entry>) {
    forall i, j :: 0 <= i < j < |log| && !Independent(log[i].op, log[j].op) ==> log[i].lsn < log[j].lsn
  }

  /** An entry independent of all before it may as well come first. */
  lemma {:induction false} BringForward(r: Render, db: DB, early: seq<Entry>, e: Entry, late: seq<Entry>)
    requires db.Valid() && AllData(early) && IsData(e.op) && AllIndependent(early, e.op)
    ensures ApplyLog(r, db, [e] + (early + late)) == ApplyLog(r, db, early + [e] + late)
    decreases |early|
  {
    if early == [] {
      assert [] + [e] + late == [e] + (early + late);
    } else {
      var x, more := early[0], early[1..];
      assert early + [e] + late == [x] + (more + [e] + late) && early + late == [x] + (more + late);
      ApplyIsSpread(r, db, x.op);
      SwapFirst(r, db, x, e, more + late);
      if Applicable(db, x.op) {
        ApplyFirst(r, db, x, more + [e] + late);
        BringForward(r, Spread(r, db, x.op), more, e, late);
        ApplyFirst(r, db, x, [e] + (more + late));
      }
    }
  }

  /** Two independent entries at the head of a log may be swapped, accepted or not. */
  lemma SwapFirst(r: Render, db: DB, x: Entry, e: Entry, rest: seq<Entry>)
    requires db.Valid() && IsData(x.op) && IsData(e.op) && Independent(x.op, e.op)
    ensures ApplyLog(r, db, [e] + ([x] + rest)) == ApplyLog(r, db, [x] + ([e] + rest))
  {
    FirstTwo(r, db, x, e, rest);
    FirstTwo(r, db, e, x, rest);
    SpreadsSwap(r, db, x.op, e.op);
  }

  lemma FirstTwo(r: Render, db: DB, x: Entry, e: Entry, rest: seq<Entry>)
    requires db.Valid() && IsData(x.op) && IsData(e.op) && Independent(x.op, e.op)
    ensures ApplyLog(r, db, [x] + ([e] + rest)) ==
              if Applicable(db, x.op) && Applicable(db, e.op) then
                ApplyLog(r, Spread(r, Spread(r, db, x.op), e.op), rest)
              else None
  {
    var db1 := Spread(r, db, x.op);
    ApplyIsSpread(r, db, x.op);
    ApplyIsSpread(r, db1, e.op);
    ApplicableElsewhere(r, db, x.op, e.op);
    if Applicable(db, x.op) {
      ApplyFirst(r, db, x, [e] + rest);
      if Applicable(db, e.op) {
        ApplyFirst(r, db1, e, rest);
      }
    }
  }

  lemma WithoutFirst(early: seq<Entry>, e: Entry, late: seq<Entry>, rest: seq<Entry>)
    requires multiset([e] + rest) == multiset(early + [e] + late)
    ensures multiset(rest) == multiset(early + late)
  {
    assert multiset([e] + rest) == multiset{e} + multiset(rest);
    assert multiset(early + [e] + late) == multiset{e} + multiset(early + late);
    assert multiset(rest) == multiset([e] + rest) - multiset{e};
  }

  lemma AscendingWithout(early: seq<Entry>, e: Entry, late: seq<Entry>)
    requires InLsnOrder(early + [e] + late) && AllData(early + [e] + late)
    ensures InLsnOrder(early + late) && AllData(early) && AllData(early + late) && IsData(e.op)
  {
    var log, less := early + [e] + late, early + late;
    assert log[|early|] == e;
    forall i | 0 <= i < |early| ensures IsData(early[i].op) { assert log[i] == early[i]; }
    forall i | 0 <= i < |less| ensures less[i] == log[if i < |early| then i else i + 1] && IsData(less[i].op) { }
  }

  /** Where the first entry of the reordered log stood, and what is left of both logs without it. */
  lemma TakeFirst(log: seq<Entry>, log': seq<Entry>) returns (early: seq<Entry>, late: seq<Entry>)
    requires multiset(log') == multiset(log) && InLsnOrder(log) && OrderKept(log') && log' != []
    ensures log == early + [log'[0]] + late && AllIndependent(early, log'[0].op)
  {
    var e := log'[0];
    assert e in multiset(log');
    var m :| 0 <= m < |log| && log[m] == e;
    early, late := log[..m], log[m + 1..];
    forall j | 0 <= j < |early|
      ensures Independent(early[j].op, e.op)
    {
      EarlierIsIndependent(log, log', j, m);
    }
  }

  lemma EarlierIsIndependent(log: seq<Entry>, log': seq<Entry>, j: nat, m: nat)
    requires multiset(log') == multiset(log) && InLsnOrder(log) && OrderKept(log') && log' != []
    requires j < m < |log| && log[m] == log'[0]
    ensures Independent(log[j].op, log[m].op)
  {
    assert log[j] in multiset(log');
    var i :| 0 <= i < |log'| && log'[i] == log[j];
    assert log[j].lsn < log[m].lsn;
    assert Independent(log'[0].op, log'[i].op);
  }

  /**
   Every permutation of a log that keeps LSN order among entries on the same record is
   accepted exactly when the log is, and ends in the sequential state.
   */
  lemma {:induction false} ReorderingIsHarmless(r: Render, db: DB, log: seq<Entry>, log': seq<Entry>)
    requires db.Valid() && AllData(log)
    requires multiset(log') == multiset(log) && InLsnOrder(log) && OrderKept(log')
    ensures ApplyLog(r, db, log') == ApplyLog(r, db, log)
    decreases |log'|
  {
    if log' == [] {
      assert |multiset(log)| == 0;
    } else {
      var e := log'[0];
      assert log' == [e] + log'[1..];
      var early, late := TakeFirst(log, log');
      AscendingWithout(early, e, late);
      WithoutFirst(early, e, late, log'[1..]);
      BringForward(r, db, early, e, late);
      ApplyIsSpread(r, db, e.op);
      if Applicable(db, e.op) {
        ApplyFirst(r, db, e, early + late);
        ReorderingIsHarmless(r, Spread(r, db, e.op), early + late, log'[1..]);
      }
    }
  }

  ghost predicate SameUnique(a: DB, b: DB) {
    |a.shards| == |b.shards| && forall i {:trigger b.shards[i]} :: 0 <= i < |a.shards| ==>
        b.shards[i].uniqIdx == a.shards[i].uniqIdx
  }

  /** Replaying data entries leaves the unique index alone, whatever the leader did to its own. */
  lemma {:induction false} LogKeepsUnique(r: Render, db: DB, log: seq<Entry>)
    requires db.Valid() && AllData(log) && ApplyLog(r, db, log).Some?
    ensures SameUnique(db, ApplyLog(r, db, log).value)
    decreases |log|
  {
    if log != [] {
      ApplyIsSpread(r, db, log[0].op);
      SpreadKeepsUnique(r, db, log[0].op);
      LogKeepsUnique(r, ApplyOp(r, db, log[0].op).value, log[1..]);
    }
  }

  lemma SpreadKeepsUnique(r: Render, db: DB, op: Op)
    requires db.Valid()
    ensures SameUnique(db, Spread(r, db, op))
  {
  }

  /** On the same record order matters: two full overwrites end alike exactly when they write the same. */
  lemma ConflictsDiverge(r: Render, db: DB, id: NodeID, p: Props, q: Props)
    requires db.Valid()
    ensures var a, b := Entry(1, OpSetNodeProps(id, p)), Entry(2, OpSetNodeProps(id, q));
            ApplyLog(r, db, [a] + [b]) == ApplyLog(r, db, [b] + [a]) <==> p == q
  {
    var a, b := Entry(1, OpSetNodeProps(id, p)), Entry(2, OpSetNodeProps(id, q));
    OverwriteTwice(r, db, id, p, q);
    OverwriteTwice(r, db, id, q, p);
    if p == q {
      assert ApplyLog(r, ApplySetNodeProps(r, db, id, p), [a]) == ApplyLog(r, ApplySetNodeProps(r, db, id, p), [b]);
    }
    ApplyFirst(r, db, a, [b]);
    ApplyFirst(r, db, b, [a]);
  }

  lemma OverwriteTwice(r: Render, db: DB, id: NodeID, p: Props, q: Props)
    requires db.Valid()
    ensures var db1 := ApplySetNodeProps(r, db, id, p);
            forall n: nat :: var o := ApplyLog(r, db1, [Entry(n, OpSetNodeProps(id, q))]);
              o == Some(ApplySetNodeProps(r, db1, id, q)) && id in o.value.ShardOf(id).nodes &&
                  o.value.ShardOf(id).nodes[id] == q
  {
    var db1 := ApplySetNodeProps(r, db, id, p);
    forall n: nat
      ensures ApplyLog(r, db1, [Entry(n, OpSetNodeProps(id, q))]) == Some(ApplySetNodeProps(r, db1, id, q))
    {
      ApplyFirst(r, db1, Entry(n, OpSetNodeProps(id, q)), []);
      assert [Entry(n, OpSetNodeProps(id, q))] + [] == [Entry(n, OpSetNodeProps(id, q))];
    }
  }

  // ---- the leader's log as entries -------------------------------------------------------------------------------

  /** The entries with their LSNs, the first one after `base`. */
  ghost function Entries(log: seq<Logged>, base: nat): (es: seq<Entry>)
    ensures |es| == |log|
  {
    seq(|log|, i requires 0 <= i < |log| => Entry(base + 1 + i, log[i].op))
  }

  /** Replaying the rest of a chain from a state that equals the leader's at that point. */
  lemma {:induction false} SequentialFrom(r: Render, start: DB, log: seq<Logged>, end: DB, base: nat, k: nat, f: DB)
    requires Chain(r, start, log, end) && k <= |log| && f.Valid() && Same(Before(start, log, k), f)
    ensures ApplyLog(r, f, Entries(log, base)[k..]).Some? && Same(end, ApplyLog(r, f, Entries(log, base)[k..]).value)
    decreases |log| - k
  {
    var es := Entries(log, base);
    if k == |log| {
      SameSymmetric(Before(start, log, k), end);
      SameTransitive(end, Before(start, log, k), f);
    } else {
      assert LinkAt(r, start, log, k);
      var f' := ApplyOp(r, f, log[k].op).value;
      SequentialFrom(r, start, log, end, base, k + 1, f');
      assert es[k..] == [es[k]] + es[k + 1..];
      ApplyFirst(r, f, es[k], es[k + 1..]);
    }
  }
}
