/**
 What a stretch of the log leaves when it is applied again on the state it leads to: every
 bucket as it was, but for the order inside label lists, and every counter moved again.
 The two passes are compared entry by entry; each cell of the second pass is that of the
 first pass or that of the final state, and in the end the two are the same.
 */
module Settling {
  import opened Types
  import opened Keys
  import opened Store
  import opened Leader
  import opened Applier
  import opened Commute
  import opened NodeState
  import opened Reapply
  import opened Redelivery

  // ---- one shard, entry by entry -------------------------------------------------------------------

  /** A shard's position among its peers and what it indexes. */
  datatype Place = Place(r: Render, reg: Registry, n: nat, i: nat) {
    predicate Valid() {
      i < n
    }
  }

  function Go(c: Place, sh: Shard, op: Op): Shard
    requires c.Valid()
  {
    Patched(sh, PatchOf(c.r, c.reg, c.n, c.i, sh, op))
  }

  predicate Here(c: Place, op: Op)
    requires c.Valid()
  {
    IsNodeOp(op) && op.id % c.n == c.i
  }

  /** What the entry needs in this shard is there. */
  predicate Ready(c: Place, sh: Shard, op: Op)
    requires c.Valid()
  {
    && (NeedsNode(op) && op.id % c.n == c.i ==> op.id in sh.nodes)
    && (op.OpUpdateEdge? && op.from % c.n == c.i ==> op.eid in sh.edges)
  }

  /** The nodes an adding entry brings. */
  function Created(op: Op): set<NodeID> {
    if op.OpAddNode? || op.OpAddNodeWithLabels? || op.OpAddNodeBatch? then NodesOf(op) else {}
  }

  /** None of them is in this shard yet. */
  ghost predicate Fresh(c: Place, sh: Shard, op: Op)
    requires c.Valid()
  {
    forall id :: id in Created(op) && id % c.n == c.i ==> id !in sh.nodes
  }

  // ---- cells ---------------------------------------------------------------------------------------

  ghost predicate Agree<K, V>(m: map<K, V>, m': map<K, V>, k: K) {
    (k in m <==> k in m') && (k in m && k in m' ==> m[k] == m'[k])
  }

  /** Key by key, `b` is like `a` or like `e`. */
  ghost predicate Mixed<K(!new), V(!new)>(a: map<K, V>, b: map<K, V>, e: map<K, V>) {
    forall k {:trigger Agree(b, a, k)} {:trigger Agree(b, e, k)} :: Agree(b, a, k) || Agree(b, e, k)
  }

  lemma MixedEdit<K(!new), V(!new)>(a: map<K, V>, b: map<K, V>, e: map<K, V>, x: MapEdit<K, V>)
    requires Mixed(a, b, e)
    ensures Mixed(EditMap(a, x), EditMap(b, x), e)
  {
    forall k ensures Agree(EditMap(b, x), EditMap(a, x), k) || Agree(EditMap(b, x), e, k) {
      assert Agree(b, a, k) || Agree(b, e, k);
    }
  }

  lemma MixedEnds<K(!new), V(!new)>(b: map<K, V>, e: map<K, V>)
    requires Mixed(e, b, e)
    ensures b == e
  {
    forall k ensures (k in b <==> k in e) && (k in b ==> b[k] == e[k]) {
      assert Agree(b, e, k);
    }
  }

  ghost predicate SetMixed(a: set<Str>, b: set<Str>, e: set<Str>) {
    forall k :: (k in b <==> k in a) || (k in b <==> k in e)
  }

  lemma SetMixedEdit(a: set<Str>, b: set<Str>, e: set<Str>, x: SetEdit)
    requires SetMixed(a, b, e)
    ensures SetMixed(EditSet(a, x), EditSet(b, x), e)
  {
    forall k ensures (k in EditSet(b, x) <==> k in EditSet(a, x)) || (k in EditSet(b, x) <==> k in e) {
      assert (k in b <==> k in a) || (k in b <==> k in e);
    }
  }

  /** One property of one record. */
  function Cell<K>(m: map<K, Props>, k: K, p: Str): Option<Value> {
    if k in m && p in m[k] then Some(m[k][p]) else None
  }

  ghost predicate Exists<K>(a: map<K, Props>, b: map<K, Props>, e: map<K, Props>, k: K) {
    (k in b <==> k in a) || (k in b <==> k in e)
  }

  ghost predicate CellMixed<K>(a: map<K, Props>, b: map<K, Props>, e: map<K, Props>, k: K, p: Str) {
    Cell(b, k, p) == Cell(a, k, p) || Cell(b, k, p) == Cell(e, k, p)
  }

  /** Records, compared by existence and property by property. */
  ghost predicate CellsMixed<K(!new)>(a: map<K, Props>, b: map<K, Props>, e: map<K, Props>) {
    && (forall k {:trigger Exists(a, b, e, k)} :: Exists(a, b, e, k))
    && (forall k, p {:trigger CellMixed(a, b, e, k, p)} :: CellMixed(a, b, e, k, p))
  }

  lemma CellsEdit<K(!new)>(a: map<K, Props>, b: map<K, Props>, e: map<K, Props>, x: MapEdit<K, Props>)
    requires CellsMixed(a, b, e)
    ensures CellsMixed(EditMap(a, x), EditMap(b, x), e)
  {
    forall k ensures Exists(EditMap(a, x), EditMap(b, x), e, k) {
      assert Exists(a, b, e, k);
    }
    forall k, p ensures CellMixed(EditMap(a, x), EditMap(b, x), e, k, p) {
      assert CellMixed(a, b, e, k, p);
    }
  }

  lemma CellsMerge<K(!new)>(a: map<K, Props>, b: map<K, Props>, e: map<K, Props>, key: K, props: Props)
    requires CellsMixed(a, b, e) && key in a && key in b
    ensures CellsMixed(a[key := a[key] + props], b[key := b[key] + props], e)
  {
    var a', b' := a[key := a[key] + props], b[key := b[key] + props];
    forall k ensures Exists(a', b', e, k) {
      assert Exists(a, b, e, k);
    }
    forall k, p ensures CellMixed(a', b', e, k, p) {
      assert CellMixed(a, b, e, k, p);
    }
  }

  lemma CellsEnd<K(!new)>(b: map<K, Props>, e: map<K, Props>)
    requires CellsMixed(e, b, e)
    ensures b == e
  {
    forall k ensures (k in b <==> k in e) && (k in b ==> b[k] == e[k]) {
      assert Exists(e, b, e, k);
      if k in b {
        forall p ensures (p in b[k] <==> p in e[k]) && (p in b[k] ==> b[k][p] == e[k][p]) {
          assert CellMixed(e, b, e, k, p);
        }
      }
    }
  }

  // ---- edges --------------------------------------------------------------------------------------

  function Bare(m: map<EdgeID, Edge>): map<EdgeID, Edge> {
    map k | k in m :: m[k].(props := map[])
  }

  function PropsIn(m: map<EdgeID, Edge>): map<EdgeID, Props> {
    map k | k in m :: m[k].props
  }

  ghost predicate EdgesMixed(a: map<EdgeID, Edge>, b: map<EdgeID, Edge>, e: map<EdgeID, Edge>) {
    Mixed(Bare(a), Bare(b), Bare(e)) && CellsMixed(PropsIn(a), PropsIn(b), PropsIn(e))
  }

  lemma EdgesEdit(a: map<EdgeID, Edge>, b: map<EdgeID, Edge>, e: map<EdgeID, Edge>, x: MapEdit<EdgeID, Edge>)
    requires EdgesMixed(a, b, e)
    ensures EdgesMixed(EditMap(a, x), EditMap(b, x), e)
  {
    MixedEdit(Bare(a), Bare(b), Bare(e), MapEdit(x.del, Bare(x.put)));
    CellsEdit(PropsIn(a), PropsIn(b), PropsIn(e), MapEdit(x.del, PropsIn(x.put)));
    Projected(a, x);
    Projected(b, x);
  }

  lemma Projected(m: map<EdgeID, Edge>, x: MapEdit<EdgeID, Edge>)
    ensures Bare(EditMap(m, x)) == EditMap(Bare(m), MapEdit(x.del, Bare(x.put)))
    ensures PropsIn(EditMap(m, x)) == EditMap(PropsIn(m), MapEdit(x.del, PropsIn(x.put)))
  {
  }

  function Merged(m: map<EdgeID, Edge>, eid: EdgeID, props: Props): map<EdgeID, Edge>
    requires eid in m
  {
    m[eid := m[eid].(props := m[eid].props + props)]
  }

  lemma MergedProjected(m: map<EdgeID, Edge>, eid: EdgeID, props: Props)
    requires eid in m
    ensures Bare(Merged(m, eid, props)) == Bare(m)
    ensures PropsIn(Merged(m, eid, props)) == PropsIn(m)[eid := PropsIn(m)[eid] + props]
  {
  }

  lemma EdgesMerge(a: map<EdgeID, Edge>, b: map<EdgeID, Edge>, e: map<EdgeID, Edge>, eid: EdgeID, props: Props)
    requires EdgesMixed(a, b, e) && eid in a && eid in b
    ensures EdgesMixed(Merged(a, eid, props), Merged(b, eid, props), e)
  {
    MergedProjected(a, eid, props);
    MergedProjected(b, eid, props);
    CellsMerge(PropsIn(a), PropsIn(b), PropsIn(e), eid, props);
  }

  lemma EdgesEnd(b: map<EdgeID, Edge>, e: map<EdgeID, Edge>)
    requires EdgesMixed(e, b, e)
    ensures b == e
  {
    MixedEnds(Bare(b), Bare(e));
    CellsEnd(PropsIn(b), PropsIn(e));
    assert b.Keys == Bare(b).Keys == Bare(e).Keys == e.Keys;
    forall k | k in b ensures b[k] == e[k] {
      assert Bare(b)[k] == Bare(e)[k] && PropsIn(b)[k] == PropsIn(e)[k];
    }
  }

  /** The edge side of a shard and its counters; the gap between the passes' counters stays. */
  ghost predicate EdgeSide(a: Shard, b: Shard, e: Shard, dn: int, de: int) {
    && EdgesMixed(a.edges, b.edges, e.edges) && Mixed(a.adjOut, b.adjOut, e.adjOut) && Mixed(a.adjIn, b.adjIn, e.adjIn)
    && SetMixed(a.edgeType, b.edgeType, e.edgeType)
    && b.nodeCount == a.nodeCount + dn && b.edgeCount == a.edgeCount + de && b.uniqIdx == e.uniqIdx
  }

  /** Of an entry's patch only the node side and a merged edge depend on the state. */
  lemma SameEdgeSide(c: Place, a: Shard, b: Shard, op: Op)
    requires c.Valid() && IsData(op)
    ensures var p, q := PatchOf(c.r, c.reg, c.n, c.i, a, op), PatchOf(c.r, c.reg, c.n, c.i, b, op);
            && p.adjOut == q.adjOut && p.adjIn == q.adjIn && p.edgeType == q.edgeType && p.dn == q.dn && p.de == q.de
            && (!op.OpUpdateEdge? ==> p.edges == q.edges)
  {
    if IsNodeOp(op) {
      NodeCounts(c.r, c.reg, a, op);
      NodeCounts(c.r, c.reg, b, op);
    }
  }

  lemma MergesEdge(c: Place, sh: Shard, op: Op)
    requires c.Valid() && op.OpUpdateEdge? && Ready(c, sh, op)
    ensures Go(c, sh, op).edges == if op.from % c.n == c.i then Merged(sh.edges, op.eid, op.props) else sh.edges
  {
    KeepMap(sh.edges);
    if op.from % c.n == c.i {
      PutOne(sh.edges, op.eid, sh.edges[op.eid].(props := sh.edges[op.eid].props + op.props));
    }
  }

  lemma EdgeSideKeeps(c: Place, a: Shard, b: Shard, e: Shard, op: Op, dn: int, de: int)
    requires c.Valid() && IsData(op) && Ready(c, a, op) && Ready(c, b, op) && EdgeSide(a, b, e, dn, de)
    ensures EdgeSide(Go(c, a, op), Go(c, b, op), e, dn, de)
  {
    var p := PatchOf(c.r, c.reg, c.n, c.i, a, op);
    SameEdgeSide(c, a, b, op);
    MixedEdit(a.adjOut, b.adjOut, e.adjOut, p.adjOut);
    MixedEdit(a.adjIn, b.adjIn, e.adjIn, p.adjIn);
    SetMixedEdit(a.edgeType, b.edgeType, e.edgeType, p.edgeType);
    if op.OpUpdateEdge? {
      MergesEdge(c, a, op);
      MergesEdge(c, b, op);
      if op.from % c.n == c.i {
        EdgesMerge(a.edges, b.edges, e.edges, op.eid, op.props);
      }
    } else {
      EdgesEdit(a.edges, b.edges, e.edges, p.edges);
    }
  }

  // ---- node records ---------------------------------------------------------------------------------

  /** What an entry other than an update does to the node bucket, whatever the state. */
  function NodesEdit(c: Place, op: Op): MapEdit<NodeID, Props>
    requires c.Valid()
  {
    if op.OpAddNodeBatch? then NodeBatchPatch(c.n, c.i, op.nodes).nodes
    else if Here(c, op) then RecordEdit(op)
    else NoMap()
  }

  function RecordEdit(op: Op): MapEdit<NodeID, Props> {
    if op.OpAddNode? || op.OpAddNodeWithLabels? || op.OpSetNodeProps? then MapEdit({}, map[op.id := op.props])
    else if op.OpDeleteNode? then MapEdit({op.id}, map[])
    else NoMap()
  }

  lemma ThenNothing()
    ensures ThenMap<NodeID, Props>(NoMap(), NoMap()) == NoMap() &&
            ThenMap<NodeID, seq<Str>>(NoMap(), NoMap()) == NoMap()
    ensures ThenSet(NoSet, NoSet) == NoSet
  {
  }

  /** No label and no index entry changes. */
  predicate PlainPatch(p: Patch) {
    p.labels == NoMap() && p.labelIdx == NoSet && p.propIdx == NoSet && p.compIdx == NoSet
  }

  lemma {:induction false} EdgeBatchNodes(n: nat, i: nat, es: seq<Edge>)
    requires n > 0
    ensures PlainPatch(EdgeBatchPatch(n, i, es)) && EdgeBatchPatch(n, i, es).nodes == NoMap()
  {
    ThenNothing();
    if es != [] {
      EdgeBatchNodes(n, i, es[..|es| - 1]);
    }
  }

  lemma {:induction false} BatchNodes(n: nat, i: nat, nodes: seq<(NodeID, Props)>)
    requires n > 0
    ensures PlainPatch(NodeBatchPatch(n, i, nodes))
  {
    ThenNothing();
    if nodes != [] {
      BatchNodes(n, i, nodes[..|nodes| - 1]);
    }
  }

  /** Entries that are about edges or other shards' nodes leave the node side alone. */
  lemma Elsewhere(c: Place, sh: Shard, op: Op)
    requires c.Valid() && IsData(op) && !Here(c, op)
    ensures var p := PatchOf(c.r, c.reg, c.n, c.i, sh, op);
            PlainPatch(p) && (!op.OpAddNodeBatch? ==> p.nodes == NoMap())
  {
    ThenNothing();
    if op.OpAddEdgeBatch? {
      EdgeBatchNodes(c.n, c.i, op.edges);
    } else if op.OpAddNodeBatch? {
      BatchNodes(c.n, c.i, op.nodes);
    }
  }

  lemma NodesStepHere(r: Render, reg: Registry, sh: Shard, op: Op)
    requires IsNodeOp(op) && (NeedsNode(op) ==> op.id in sh.nodes)
    ensures var nodes := Patched(sh, NodePatch(r, reg, sh, op)).nodes;
            nodes == if op.OpUpdateNode? then sh.nodes[op.id := sh.nodes[op.id] + op.props]
              else EditMap(sh.nodes, RecordEdit(op))
  {
    if op.OpUpdateNode? {
      PutOne(sh.nodes, op.id, sh.nodes[op.id] + op.props);
    } else if op.OpDeleteNode? && op.id !in sh.nodes {
      MissingErased(sh.nodes, op.id);
    } else {
      assert NodePatch(r, reg, sh, op).nodes == RecordEdit(op);
    }
  }

  lemma MissingErased(m: map<NodeID, Props>, id: NodeID)
    requires id !in m
    ensures EditMap(m, MapEdit({id}, map[])) == m && EditMap(m, NoMap()) == m
  {
  }

  lemma NodesElsewhere(c: Place, sh: Shard, op: Op)
    requires c.Valid() && IsData(op) && !Here(c, op)
    ensures Go(c, sh, op).nodes == EditMap(sh.nodes, NodesEdit(c, op))
  {
    if !op.OpAddNodeBatch? {
      Elsewhere(c, sh, op);
    }
  }

  lemma NodesStep(c: Place, sh: Shard, op: Op)
    requires c.Valid() && IsData(op) && Ready(c, sh, op)
    ensures !op.OpUpdateNode? ==> Go(c, sh, op).nodes == EditMap(sh.nodes, NodesEdit(c, op))
    ensures op.OpUpdateNode? ==>
              Go(c, sh, op).nodes == if Here(c, op) then sh.nodes[op.id := sh.nodes[op.id] + op.props] else sh.nodes
  {
    KeepMap(sh.nodes);
    if Here(c, op) {
      GoHere(c, sh, op);
      NodesStepHere(c.r, c.reg, sh, op);
    } else {
      NodesElsewhere(c, sh, op);
    }
  }

  lemma GoHere(c: Place, sh: Shard, op: Op)
    requires c.Valid() && Here(c, op)
    ensures Go(c, sh, op) == Patched(sh, NodePatch(c.r, c.reg, sh, op))
  {
  }

  lemma NodesKeep(c: Place, a: Shard, b: Shard, e: Shard, op: Op)
    requires c.Valid() && IsData(op) && Ready(c, a, op) && Ready(c, b, op) && CellsMixed(a.nodes, b.nodes, e.nodes)
    ensures CellsMixed(Go(c, a, op).nodes, Go(c, b, op).nodes, e.nodes)
  {
    NodesStep(c, a, op);
    NodesStep(c, b, op);
    if op.OpUpdateNode? {
      if Here(c, op) {
        CellsMerge(a.nodes, b.nodes, e.nodes, op.id, op.props);
      }
    } else {
      CellsEdit(a.nodes, b.nodes, e.nodes, NodesEdit(c, op));
    }
  }

  // ---- labels ----------------------------------------------------------------------------------------

  ghost predicate Held(sh: Shard, id: NodeID, l: Str) {
    l in LabelsIn(sh.labels, id)
  }

  ghost predicate Keyed(sh: Shard, id: NodeID, l: Str) {
    IndexKey(l, id) in sh.labelIdx
  }

  ghost predicate LabelsOn(sh: Shard) {
    sh.labels.Keys <= sh.nodes.Keys && forall id :: id in sh.labels ==> sh.labels[id] != []
  }

  /** Whether the node holds the label after the entry. */
  ghost predicate HeldAfter(c: Place, sh: Shard, op: Op, id: NodeID, l: Str)
    requires c.Valid()
  {
    if !Here(c, op) || op.id != id then Held(sh, id, l)
    else if op.OpAddLabel? then Held(sh, id, l) || l in op.names
    else if op.OpRemoveLabel? then Held(sh, id, l) && l !in op.names
    else if op.OpDeleteNode? then false
    else if op.OpAddNodeWithLabels? && op.names != [] then l in op.names
    else Held(sh, id, l)
  }

  /** The label list of a node that the entry is about. */
  ghost function ListAfter(sh: Shard, op: Op): seq<Str>
    requires IsNodeOp(op)
  {
    var list := LabelsIn(sh.labels, op.id);
    if op.OpAddLabel? then list + NewLabels(list, op.names)
    else if op.OpRemoveLabel? then KeptLabels(list, op.names)
    else if op.OpDeleteNode? then []
    else if op.OpAddNodeWithLabels? && op.names != [] then op.names
    else list
  }

  /** An entry changes the label list of its own node only. */
  lemma ListStep(c: Place, sh: Shard, op: Op, id: NodeID)
    requires c.Valid() && IsData(op) && Ready(c, sh, op) && LabelsOn(sh)
    ensures LabelsIn(Go(c, sh, op).labels, id) == if Here(c, op) &&
            op.id == id then ListAfter(sh, op) else LabelsIn(sh.labels, id)
  {
    if !Here(c, op) {
      LabelsElsewhere(c, sh, op);
    } else {
      GoHere(c, sh, op);
      if op.id == id {
        OwnList(c.r, c.reg, sh, op);
      } else {
        OtherList(c.r, c.reg, sh, op, id);
      }
    }
  }

  lemma LabelsElsewhere(c: Place, sh: Shard, op: Op)
    requires c.Valid() && IsData(op) && !Here(c, op)
    ensures var sh' := Go(c, sh, op);
            && sh'.labels == sh.labels && sh'.labelIdx == sh.labelIdx && sh'.propIdx == sh.propIdx
            && sh'.compIdx == sh.compIdx
  {
    Elsewhere(c, sh, op);
    KeepAll(sh);
  }

  lemma OtherList(r: Render, reg: Registry, sh: Shard, op: Op, id: NodeID)
    requires IsNodeOp(op) && op.id != id
    ensures LabelsIn(Patched(sh, NodePatch(r, reg, sh, op)).labels, id) == LabelsIn(sh.labels, id)
  {
    NodePatchWithin(r, reg, sh, op);
    assert Itself(id) !in {op.id};
  }

  lemma RelabelList(sh: Shard, id: NodeID, kept: seq<Str>, gone: set<Str>, added: set<Str>)
    ensures LabelsIn(Patched(sh, Relabel(id, kept, gone, added)).labels, id) == kept
  {
  }

  lemma OwnList(r: Render, reg: Registry, sh: Shard, op: Op)
    requires IsNodeOp(op) && (NeedsNode(op) ==> op.id in sh.nodes) && LabelsOn(sh)
    ensures LabelsIn(Patched(sh, NodePatch(r, reg, sh, op)).labels, op.id) == ListAfter(sh, op)
  {
    if op.OpAddLabel? {
      OwnListAdded(r, reg, sh, op);
    } else if op.OpRemoveLabel? {
      OwnListRemoved(r, reg, sh, op);
    } else {
      OwnListOther(r, reg, sh, op);
    }
  }

  lemma OwnListOther(r: Render, reg: Registry, sh: Shard, op: Op)
    requires IsNodeOp(op) && !op.OpAddLabel? && !op.OpRemoveLabel? && LabelsOn(sh) &&
             (NeedsNode(op) ==> op.id in sh.nodes)
    ensures LabelsIn(Patched(sh, NodePatch(r, reg, sh, op)).labels, op.id) == ListAfter(sh, op)
  {
    KeepMap(sh.labels);
    assert op.id !in sh.nodes ==> LabelsIn(sh.labels, op.id) == [];
  }

  lemma OwnListAdded(r: Render, reg: Registry, sh: Shard, op: Op)
    requires op.OpAddLabel? && op.id in sh.nodes
    ensures LabelsIn(Patched(sh, NodePatch(r, reg, sh, op)).labels, op.id) == ListAfter(sh, op)
  {
    var list := LabelsIn(sh.labels, op.id);
    var added := NewLabels(list, op.names);
    assert Labels(sh, op.id) == list;
    if added == [] {
      PatchNothing(sh);
      assert list + added == list;
    } else {
      RelabelList(sh, op.id, list + added, {}, LabelKeys(added, op.id));
    }
  }

  lemma OwnListRemoved(r: Render, reg: Registry, sh: Shard, op: Op)
    requires op.OpRemoveLabel? && LabelsOn(sh)
    ensures LabelsIn(Patched(sh, NodePatch(r, reg, sh, op)).labels, op.id) == ListAfter(sh, op)
  {
    var list := LabelsIn(sh.labels, op.id);
    assert Labels(sh, op.id) == list;
    if op.id in sh.nodes {
      RelabelList(sh, op.id, KeptLabels(list, op.names), LabelKeys(op.names, op.id), {});
    } else {
      PatchNothing(sh);
    }
  }

  lemma HeldStep(c: Place, sh: Shard, op: Op, id: NodeID, l: Str)
    requires c.Valid() && IsData(op) && Ready(c, sh, op) && LabelsOn(sh)
    ensures Held(Go(c, sh, op), id, l) <==> HeldAfter(c, sh, op, id, l)
  {
    ListStep(c, sh, op, id);
    HeldFrom(c, sh, Go(c, sh, op), op, id, l);
  }

  lemma HeldFrom(c: Place, sh: Shard, sh': Shard, op: Op, id: NodeID, l: Str)
    requires c.Valid() && LabelsIn(sh'.labels, id) == if Here(c, op) &&
             op.id == id then ListAfter(sh, op) else LabelsIn(sh.labels, id)
    ensures Held(sh', id, l) <==> HeldAfter(c, sh, op, id, l)
  {
    if Here(c, op) && op.id == id {
      if op.OpAddLabel? {
        NewLabelsAre(LabelsIn(sh.labels, id), op.names);
      } else if op.OpRemoveLabel? {
        KeptLabelsAre(LabelsIn(sh.labels, id), op.names);
      }
    }
  }

  lemma LabelsOnKept(c: Place, sh: Shard, op: Op)
    requires c.Valid() && IsData(op) && Ready(c, sh, op) && LabelsOn(sh)
    ensures LabelsOn(Go(c, sh, op))
  {
    var sh' := Go(c, sh, op);
    if Here(c, op) {
      GoHere(c, sh, op);
      NodesStepHere(c.r, c.reg, sh, op);
      OwnLabelsOn(c.r, c.reg, sh, op);
    } else {
      LabelsElsewhere(c, sh, op);
      NodesElsewhere(c, sh, op);
      NodesGrow(c, sh.nodes, op);
    }
  }

  lemma NodesGrow(c: Place, nodes: map<NodeID, Props>, op: Op)
    requires c.Valid() && IsData(op) && !Here(c, op)
    ensures nodes.Keys <= EditMap(nodes, NodesEdit(c, op)).Keys
  {
    if op.OpAddNodeBatch? {
      NodeBatchStores(c.n, c.i, op.nodes, 0);
    }
  }

  /** Only non-empty lists are stored, and only for nodes that are there or come with them. */
  lemma StoredLists(r: Render, reg: Registry, sh: Shard, op: Op)
    requires IsNodeOp(op) && (NeedsNode(op) ==> op.id in sh.nodes) && LabelsOn(sh)
    ensures var p := NodePatch(r, reg, sh, op).labels;
            && (op.id in p.put ==> p.put[op.id] != [] && !op.OpDeleteNode?)
            && (op.OpDeleteNode? && op.id in sh.labels ==> op.id in p.del)
            && (op.id in p.put && !op.OpAddNodeWithLabels? ==> op.id in sh.nodes)
  {
  }

  lemma OwnLabelsOn(r: Render, reg: Registry, sh: Shard, op: Op)
    requires IsNodeOp(op) && (NeedsNode(op) ==> op.id in sh.nodes) && LabelsOn(sh)
    ensures LabelsOn(Patched(sh, NodePatch(r, reg, sh, op)))
  {
    StoredLists(r, reg, sh, op);
    NodePatchStores(r, reg, sh, op);
    NodePatchWithin(r, reg, sh, op);
    LabelsOnFrom(sh, NodePatch(r, reg, sh, op), op.id);
  }

  lemma LabelsOnFrom(sh: Shard, p: Patch, own: NodeID)
    requires LabelsOn(sh) && MapWithin(p.nodes, Itself, {own}) && MapWithin(p.labels, Itself, {own})
    requires own in p.labels.put ==> p.labels.put[own] != []
    requires own in EditMap(sh.labels, p.labels) ==> own in EditMap(sh.nodes, p.nodes)
    ensures LabelsOn(Patched(sh, p))
  {
    var sh' := Patched(sh, p);
    forall id | id in sh'.labels ensures id in sh'.nodes && sh'.labels[id] != [] {
      assert id != own ==> Itself(id) !in {own};
    }
  }

  /** Whether the label index has the key after the entry. */
  ghost predicate KeyedAfter(c: Place, sh: Shard, op: Op, id: NodeID, l: Str)
    requires c.Valid()
  {
    if !Here(c, op) || op.id != id then Keyed(sh, id, l)
    else if op.OpAddLabel? then Keyed(sh, id, l) || (l in op.names && !Held(sh, id, l))
    else if op.OpRemoveLabel? then Keyed(sh, id, l) && (id in sh.nodes ==> l !in op.names)
    else if op.OpDeleteNode? then Keyed(sh, id, l) && !Held(sh, id, l)
    else if op.OpAddNodeWithLabels? then Keyed(sh, id, l) || l in op.names
    else Keyed(sh, id, l)
  }

  lemma KeyedStep(c: Place, sh: Shard, op: Op, id: NodeID, l: Str)
    requires c.Valid() && IsData(op) && Ready(c, sh, op) && LabelsOn(sh)
    ensures Keyed(Go(c, sh, op), id, l) <==> KeyedAfter(c, sh, op, id, l)
  {
    if Here(c, op) {
      GoHere(c, sh, op);
      OwnKeyed(c.r, c.reg, sh, op, id, l);
      NewLabelsAre(LabelsIn(sh.labels, op.id), if op.OpAddLabel? then op.names else []);
    } else {
      LabelsElsewhere(c, sh, op);
    }
  }

  /** The label keys an entry about a node drops and puts. */
  ghost function LabelEdit(sh: Shard, op: Op): (e: (seq<Str>, seq<Str>))
    requires IsNodeOp(op)
  {
    var list := LabelsIn(sh.labels, op.id);
    if op.OpAddLabel? then ([], NewLabels(list, op.names))
    else if op.OpRemoveLabel? && op.id in sh.nodes then (op.names, [])
    else if op.OpDeleteNode? then (list, [])
    else if op.OpAddNodeWithLabels? then ([], op.names)
    else ([], [])
  }

  lemma LabelEditIs(r: Render, reg: Registry, sh: Shard, op: Op)
    requires IsNodeOp(op) && (NeedsNode(op) ==> op.id in sh.nodes) && LabelsOn(sh)
    ensures NodePatch(r, reg, sh, op).labelIdx ==
              SetEdit(LabelKeys(LabelEdit(sh, op).0, op.id), LabelKeys(LabelEdit(sh, op).1, op.id))
  {
    assert LabelKeys([], op.id) == {} && Labels(sh, op.id) == LabelsIn(sh.labels, op.id);
    assert op.id !in sh.nodes ==> LabelsIn(sh.labels, op.id) == [];
  }

  lemma OwnKeyed(r: Render, reg: Registry, sh: Shard, op: Op, id: NodeID, l: Str)
    requires IsNodeOp(op) && (NeedsNode(op) ==> op.id in sh.nodes) && LabelsOn(sh)
    ensures Keyed(Patched(sh, NodePatch(r, reg, sh, op)), id, l) <==>
              (Keyed(sh, id, l) && !(op.id == id && l in LabelEdit(sh, op).0)) ||
                  (op.id == id && l in LabelEdit(sh, op).1)
  {
    LabelEditIs(r, reg, sh, op);
    LabelKeysIn(LabelEdit(sh, op).0, l, id, op.id);
    LabelKeysIn(LabelEdit(sh, op).1, l, id, op.id);
  }

  ghost predicate HeldMixed(a: Shard, b: Shard, e: Shard, id: NodeID, l: Str) {
    (Held(b, id, l) <==> Held(a, id, l)) || (Held(b, id, l) <==> Held(e, id, l))
  }

  /** In the second pass held labels have their keys, and any other key is one of the final state. */
  ghost predicate KeysBetween(b: Shard, e: Shard, id: NodeID, l: Str) {
    (Held(b, id, l) ==> Keyed(b, id, l)) && (Keyed(b, id, l) ==> Held(b, id, l) || Keyed(e, id, l))
  }

  ghost predicate IsLabelKey(k: Str) {
    exists id: NodeID, l :: k == IndexKey(l, id)
  }

  ghost predicate LabelSide(a: Shard, b: Shard, e: Shard) {
    && LabelsOn(a) && LabelsOn(b) && LabelsOk(e)
    && (forall id, l {:trigger HeldMixed(a, b, e, id, l)} :: HeldMixed(a, b, e, id, l))
    && (forall id, l {:trigger KeysBetween(b, e, id, l)} :: KeysBetween(b, e, id, l))
    && (forall k {:trigger IsLabelKey(k)} :: k in b.labelIdx ==> IsLabelKey(k))
  }

  lemma KeyedIsHeld(e: Shard, id: NodeID, l: Str)
    requires LabelsOk(e)
    ensures Keyed(e, id, l) <==> Held(e, id, l)
  {
    LabelKeyIn(e.labels, l, id);
  }

  lemma KeysStayBetween(c: Place, a: Shard, b: Shard, e: Shard, op: Op, id: NodeID, l: Str)
    requires c.Valid() && IsData(op) && Ready(c, b, op) && LabelSide(a, b, e) && Fresh(c, a, op)
    ensures KeysBetween(Go(c, b, op), e, id, l)
  {
    HeldStep(c, b, op, id, l);
    KeyedStep(c, b, op, id, l);
    KeyedIsHeld(e, id, l);
    assert HeldMixed(a, b, e, id, l) && KeysBetween(b, e, id, l);
    if Here(c, op) && op.id == id && op.OpAddNodeWithLabels? {
      assert id !in a.nodes && !Held(a, id, l);
    }
  }

  lemma HeldStaysMixed(c: Place, a: Shard, b: Shard, e: Shard, op: Op, id: NodeID, l: Str)
    requires c.Valid() && IsData(op) && Ready(c, a, op) && Ready(c, b, op) && LabelSide(a, b, e)
    ensures HeldMixed(Go(c, a, op), Go(c, b, op), e, id, l)
  {
    HeldStep(c, a, op, id, l);
    HeldStep(c, b, op, id, l);
    assert HeldMixed(a, b, e, id, l);
  }

  lemma KeysStayLabelKeys(c: Place, sh: Shard, op: Op, k: Str)
    requires c.Valid() && IsData(op) && Ready(c, sh, op) && LabelsOn(sh) && k in Go(c, sh, op).labelIdx
    ensures k in sh.labelIdx || IsLabelKey(k)
  {
    if Here(c, op) {
      GoHere(c, sh, op);
      LabelEditIs(c.r, c.reg, sh, op);
    } else {
      LabelsElsewhere(c, sh, op);
    }
  }

  lemma LabelSideKeeps(c: Place, a: Shard, b: Shard, e: Shard, op: Op)
    requires c.Valid() && IsData(op) && Ready(c, a, op) && Ready(c, b, op) && LabelSide(a, b, e) && Fresh(c, a, op)
    ensures LabelSide(Go(c, a, op), Go(c, b, op), e)
  {
    var a', b' := Go(c, a, op), Go(c, b, op);
    LabelsOnKept(c, a, op);
    LabelsOnKept(c, b, op);
    forall id, l ensures HeldMixed(a', b', e, id, l) { HeldStaysMixed(c, a, b, e, op, id, l); }
    forall id, l ensures KeysBetween(b', e, id, l) { KeysStayBetween(c, a, b, e, op, id, l); }
    forall k | k in b'.labelIdx ensures IsLabelKey(k) { KeysStayLabelKeys(c, b, op, k); }
  }

  ghost predicate SameLabels(m: map<NodeID, seq<Str>>, m': map<NodeID, seq<Str>>) {
    m.Keys == m'.Keys && forall id, l :: id in m ==> (l in m[id] <==> l in m'[id])
  }

  lemma LabelSideEnds(b: Shard, e: Shard)
    requires LabelSide(e, b, e)
    ensures SameLabels(e.labels, b.labels) && b.labelIdx == e.labelIdx
  {
    forall id, l ensures Held(b, id, l) <==> Held(e, id, l) {
      assert HeldMixed(e, b, e, id, l);
    }
    forall id ensures id in b.labels <==> id in e.labels {
      if id in b.labels {
        assert Held(b, id, b.labels[id][0]);
      }
      if id in e.labels {
        assert Held(e, id, e.labels[id][0]);
      }
    }
    forall id, l | id in e.labels ensures l in e.labels[id] <==> l in b.labels[id] {
      assert Held(b, id, l) <==> Held(e, id, l);
    }
    forall k ensures k in b.labelIdx <==> k in e.labelIdx {
      if k in b.labelIdx || k in e.labelIdx {
        assert IsLabelKey(k);
        var id: NodeID, l :| k == IndexKey(l, id);
        KeyedIsHeld(e, id, l);
        assert KeysBetween(b, e, id, l);
      }
    }
  }

  // ---- property and composite entries -----------------------------------------------------------------

  type Keyer = (NodeID, Props) -> set<Str>

  /** Every entry of a node ends in the node's ID. */
  ghost predicate Owning(key: Keyer) {
    forall id, props, k {:trigger k in key(id, props)} :: k in key(id, props) ==> KeyOwner(k) == id
  }

  ghost function KeysAt(key: Keyer, nodes: map<NodeID, Props>, id: NodeID): set<Str> {
    if id in nodes then key(id, nodes[id]) else {}
  }

  /** What an entry does to a node bucket and an index over it. */
  datatype Change = Put(id: NodeID, clear: bool, props: Props) | Erase(id: NodeID) | Fill(batch: map<NodeID,
      Props>) | Still

  ghost function NodesAfter(nodes: map<NodeID, Props>, ch: Change): map<NodeID, Props> {
    match ch
    case Put(id, _, props) => nodes[id := props]
    case Erase(id) => nodes - {id}
    case Fill(batch) => nodes + batch
    case Still => nodes
  }

  ghost function IndexAfter(key: Keyer, nodes: map<NodeID, Props>, idx: set<Str>, ch: Change): set<Str> {
    match ch
    case Put(id, clear, props) => idx - (if clear then KeysAt(key, nodes, id) else {}) + key(id, props)
    case Erase(id) => idx - KeysAt(key, nodes, id)
    case _ => idx
  }

  /** The same entry in both passes; what it adds is new in the first one. */
  ghost predicate Alike(nodes: map<NodeID, Props>, x: Change, y: Change) {
    match x
    case Put(id, clear, _) => y.Put? && y.id == id && y.clear == clear && (clear || id !in nodes)
    case Fill(batch) => x == y && batch.Keys !! nodes.Keys
    case _ => x == y
  }

  ghost predicate Of(k: Str, id: NodeID) {
    KeyOwner(k) == id
  }

  ghost predicate SoundAt(key: Keyer, nodes: map<NodeID, Props>, idx: set<Str>, id: NodeID) {
    forall k {:trigger Of(k, id)} :: Of(k, id) && k in idx ==> k in KeysAt(key, nodes, id)
  }

  ghost predicate ExtraAt(key: Keyer, nodes: map<NodeID, Props>, idx: set<Str>, ei: set<Str>, id: NodeID) {
    forall k {:trigger Of(k, id)} :: Of(k, id) && k in idx ==> k in KeysAt(key, nodes, id) || k in ei
  }

  ghost predicate InsideAt(bi: set<Str>, ei: set<Str>, id: NodeID) {
    forall k {:trigger Of(k, id)} :: Of(k, id) && k in bi ==> k in ei
  }

  ghost predicate EqualAt(bi: set<Str>, ei: set<Str>, id: NodeID) {
    forall k {:trigger Of(k, id)} :: Of(k, id) ==> (k in bi <==> k in ei)
  }

  ghost predicate NoneAt(ai: set<Str>, id: NodeID) {
    forall k {:trigger Of(k, id)} :: Of(k, id) ==> k !in ai
  }

  /**
   One node's entries in the two passes: as in the final state, or complete in both passes,
   or none in the first and only final ones in the second.
   */
  ghost predicate IndexAt(key: Keyer, an: map<NodeID, Props>, ai: set<Str>, bn: map<NodeID, Props>, bi: set<Str>,
      ei: set<Str>, id: NodeID) {
    && SoundAt(key, an, ai, id) && ExtraAt(key, bn, bi, ei, id) && (id !in an ==> InsideAt(bi, ei, id))
    && (|| EqualAt(bi, ei, id)
        || (id in an && id in bn && KeysAt(key, an, id) <= ai && KeysAt(key, bn, id) <= bi)
        || (NoneAt(ai, id) && InsideAt(bi, ei, id)))
  }

  ghost predicate Stray(k: Str) {
    forall id {:trigger Of(k, id)} :: !Of(k, id)
  }

  /** Keys that are nobody's entries are those of the final state. */
  ghost predicate StrayKeys(bi: set<Str>, ei: set<Str>) {
    forall k {:trigger Stray(k)} :: Stray(k) ==> (k in bi <==> k in ei)
  }

  ghost predicate IndexSide(key: Keyer, an: map<NodeID, Props>, ai: set<Str>, bn: map<NodeID, Props>, bi: set<Str>,
      ei: set<Str>) {
    StrayKeys(bi, ei) &&
        forall id {:trigger IndexAt(key, an, ai, bn, bi, ei, id)} :: IndexAt(key, an, ai, bn, bi, ei, id)
  }

  /** Entries of nodes the change is not about stay. */
  lemma ChangeElsewhere(key: Keyer, nodes: map<NodeID, Props>, idx: set<Str>, ch: Change, id: NodeID, k: Str)
    requires Owning(key) && Of(k, id) && (ch.Put? || ch.Erase? ==> ch.id != id)
    ensures k in IndexAfter(key, nodes, idx, ch) <==> k in idx
  {
  }

  lemma OtherAt(key: Keyer, an: map<NodeID, Props>, ai: set<Str>, bn: map<NodeID, Props>, bi: set<Str>, ei: set<Str>,
      x: Change, y: Change, id: NodeID)
    requires Owning(key) && IndexAt(key, an, ai, bn, bi, ei, id) && Alike(an, x, y)
    requires (x.Put? || x.Erase? ==> x.id != id) && (x.Fill? ==> id !in x.batch)
    ensures IndexAt(key, NodesAfter(an, x), IndexAfter(key, an, ai, x), NodesAfter(bn, y), IndexAfter(key, bn, bi, y),
                    ei, id)
  {
    var ai', bi' := IndexAfter(key, an, ai, x), IndexAfter(key, bn, bi, y);
    forall k | Of(k, id) ensures (k in ai' <==> k in ai) && (k in bi' <==> k in bi) {
      ChangeElsewhere(key, an, ai, x, id, k);
      ChangeElsewhere(key, bn, bi, y, id, k);
    }
    assert KeysAt(key, NodesAfter(an, x), id) == KeysAt(key, an, id) &&
           KeysAt(key, NodesAfter(bn, y), id) == KeysAt(key, bn, id);
    forall k | k in KeysAt(key, an, id) || k in KeysAt(key, bn, id) ensures Of(k, id) {
    }
  }

  lemma PutAt(key: Keyer, an: map<NodeID, Props>, ai: set<Str>, bn: map<NodeID, Props>, bi: set<Str>, ei: set<Str>,
      x: Change, y: Change)
    requires Owning(key) && x.Put? && Alike(an, x, y) && IndexAt(key, an, ai, bn, bi, ei, x.id)
    ensures IndexAt(key, NodesAfter(an, x), IndexAfter(key, an, ai, x), NodesAfter(bn, y), IndexAfter(key, bn, bi, y),
                    ei, x.id)
  {
    var id := x.id;
    var ai', bi' := IndexAfter(key, an, ai, x), IndexAfter(key, bn, bi, y);
    forall k | Of(k, id) && k in ai' ensures k in key(id, x.props) {
    }
    forall k | Of(k, id) && k in bi' ensures k in key(id, y.props) || k in ei {
    }
  }

  lemma EraseAt(key: Keyer, an: map<NodeID, Props>, ai: set<Str>, bn: map<NodeID, Props>, bi: set<Str>, ei: set<Str>,
      x: Change)
    requires Owning(key) && x.Erase? && IndexAt(key, an, ai, bn, bi, ei, x.id)
    ensures IndexAt(key, NodesAfter(an, x), IndexAfter(key, an, ai, x), NodesAfter(bn, x), IndexAfter(key, bn, bi, x),
                    ei, x.id)
  {
    var ai', bi' := IndexAfter(key, an, ai, x), IndexAfter(key, bn, bi, x);
    assert NoneAt(ai', x.id) && InsideAt(bi', ei, x.id);
  }

  lemma FillAt(key: Keyer, an: map<NodeID, Props>, ai: set<Str>, bn: map<NodeID, Props>, bi: set<Str>, ei: set<Str>,
      x: Change, id: NodeID)
    requires Owning(key) && x.Fill? && id in x.batch && id !in an && IndexAt(key, an, ai, bn, bi, ei, id)
    ensures IndexAt(key, NodesAfter(an, x), ai, NodesAfter(bn, x), bi, ei, id)
  {
    assert NoneAt(ai, id) && InsideAt(bi, ei, id);
  }

  lemma IndexSideKeeps(key: Keyer, an: map<NodeID, Props>, ai: set<Str>, bn: map<NodeID, Props>, bi: set<Str>,
      ei: set<Str>, x: Change, y: Change)
    requires Owning(key) && IndexSide(key, an, ai, bn, bi, ei) && Alike(an, x, y)
    ensures IndexSide(key, NodesAfter(an, x), IndexAfter(key, an, ai, x), NodesAfter(bn, y), IndexAfter(key, bn, bi, y),
                      ei)
  {
    var an', ai', bn', bi' :=
      NodesAfter(an, x), IndexAfter(key, an, ai, x), NodesAfter(bn, y), IndexAfter(key, bn, bi, y);
    forall id ensures IndexAt(key, an', ai', bn', bi', ei, id) {
      assert IndexAt(key, an, ai, bn, bi, ei, id);
      if x.Put? && x.id == id {
        PutAt(key, an, ai, bn, bi, ei, x, y);
      } else if x.Erase? && x.id == id {
        EraseAt(key, an, ai, bn, bi, ei, x);
      } else if x.Fill? && id in x.batch {
        FillAt(key, an, ai, bn, bi, ei, x, id);
      } else {
        OtherAt(key, an, ai, bn, bi, ei, x, y, id);
      }
    }
    forall k | Stray(k) ensures k in bi' <==> k in ei {
      StrayStays(key, bn, bi, y, k);
    }
  }

  lemma StrayStays(key: Keyer, nodes: map<NodeID, Props>, idx: set<Str>, ch: Change, k: Str)
    requires Owning(key) && Stray(k)
    ensures k in IndexAfter(key, nodes, idx, ch) <==> k in idx
  {
    if ch.Put? || ch.Erase? {
      assert !Of(k, ch.id);
    }
  }

  lemma IndexSideEnds(key: Keyer, nodes: map<NodeID, Props>, bi: set<Str>, ei: set<Str>)
    requires Owning(key) && IndexSide(key, nodes, ei, nodes, bi, ei)
    ensures bi == ei
  {
    forall k ensures k in bi <==> k in ei {
      if Stray(k) {
      } else {
        var id: NodeID :| Of(k, id);
        assert IndexAt(key, nodes, ei, nodes, bi, ei, id);
      }
    }
  }

  function PropKeyer(c: Place): Keyer {
    (id: NodeID, props: Props) => PropOf(c.r, c.reg, id, props)
  }

  function CompKeyer(c: Place): Keyer {
    (id: NodeID, props: Props) => CompOf(c.r, c.reg, id, props)
  }

  lemma KeyersOwn(c: Place)
    ensures Owning(PropKeyer(c)) && Owning(CompKeyer(c))
  {
    forall id: NodeID, props: Props, k | k in PropKeyer(c)(id, props) || k in CompKeyer(c)(id, props)
      ensures KeyOwner(k) == id
    {
      NodeKeysOwned(c.r, c.reg, id, [], props);
    }
  }

  ghost function ChangeOf(c: Place, sh: Shard, op: Op): Change
    requires c.Valid() && Ready(c, sh, op)
  {
    if op.OpAddNodeBatch? then Fill(NodeBatchPatch(c.n, c.i, op.nodes).nodes.put)
    else if !Here(c, op) then Still
    else if op.OpAddNode? || op.OpAddNodeWithLabels? then Put(op.id, false, op.props)
    else if op.OpSetNodeProps? then Put(op.id, true, op.props)
    else if op.OpUpdateNode? then Put(op.id, true, sh.nodes[op.id] + op.props)
    else if op.OpDeleteNode? then Erase(op.id)
    else Still
  }

  lemma RecordChange(nodes: map<NodeID, Props>, op: Op)
    requires IsNodeOp(op)
    ensures op.OpAddNode? || op.OpAddNodeWithLabels? || op.OpSetNodeProps? ==>
              EditMap(nodes, RecordEdit(op)) == nodes[op.id := op.props]
    ensures op.OpDeleteNode? ==> EditMap(nodes, RecordEdit(op)) == nodes - {op.id}
    ensures op.OpAddLabel? || op.OpRemoveLabel? ==> EditMap(nodes, RecordEdit(op)) == nodes
  {
    KeepMap(nodes);
    DropOne(nodes, op.id);
    if op.OpAddNode? || op.OpAddNodeWithLabels? || op.OpSetNodeProps? {
      PutOne(nodes, op.id, op.props);
    }
  }

  lemma FillMap(m: map<NodeID, Props>, x: MapEdit<NodeID, Props>)
    requires x.del == {}
    ensures EditMap(m, x) == m + x.put
  {
  }

  lemma NodesChangeHere(c: Place, sh: Shard, sh': Shard, op: Op)
    requires c.Valid() && Here(c, op) && Ready(c, sh, op)
    requires sh'.nodes == if op.OpUpdateNode? then sh.nodes[op.id := sh.nodes[op.id] + op.props]
               else EditMap(sh.nodes, RecordEdit(op))
    ensures sh'.nodes == NodesAfter(sh.nodes, ChangeOf(c, sh, op))
  {
    RecordChange(sh.nodes, op);
  }

  lemma NodesChangeElsewhere(c: Place, sh: Shard, sh': Shard, op: Op)
    requires c.Valid() && !Here(c, op) && Ready(c, sh, op) && sh'.nodes == EditMap(sh.nodes, NodesEdit(c, op))
    ensures sh'.nodes == NodesAfter(sh.nodes, ChangeOf(c, sh, op))
  {
    KeepMap(sh.nodes);
    if op.OpAddNodeBatch? {
      NodeBatchStores(c.n, c.i, op.nodes, 0);
      FillMap(sh.nodes, NodesEdit(c, op));
    }
  }

  lemma NodesChange(c: Place, sh: Shard, op: Op)
    requires c.Valid() && IsData(op) && Ready(c, sh, op)
    ensures Go(c, sh, op).nodes == NodesAfter(sh.nodes, ChangeOf(c, sh, op))
  {
    if Here(c, op) {
      GoHere(c, sh, op);
      NodesStepHere(c.r, c.reg, sh, op);
      NodesChangeHere(c, sh, Go(c, sh, op), op);
    } else {
      NodesElsewhere(c, sh, op);
      NodesChangeElsewhere(c, sh, Go(c, sh, op), op);
    }
  }

  lemma IndexChange(c: Place, sh: Shard, op: Op)
    requires c.Valid() && IsData(op) && Ready(c, sh, op)
    ensures Go(c, sh, op).propIdx == IndexAfter(PropKeyer(c), sh.nodes, sh.propIdx, ChangeOf(c, sh, op))
    ensures Go(c, sh, op).compIdx == IndexAfter(CompKeyer(c), sh.nodes, sh.compIdx, ChangeOf(c, sh, op))
  {
    if Here(c, op) {
      GoHere(c, sh, op);
      OwnIndexChange(c, sh, op);
    } else {
      LabelsElsewhere(c, sh, op);
    }
  }

  /** The index edits of an entry about a node, for either index. */
  ghost predicate EditsBy(key: Keyer, nodes: map<NodeID, Props>, ch: Change, edit: SetEdit) {
    match ch
    case Put(id, clear, props) => edit == SetEdit(if clear then KeysAt(key, nodes, id) else {}, key(id, props))
    case Erase(id) => edit == SetEdit(KeysAt(key, nodes, id), {})
    case _ => edit == NoSet
  }

  lemma OwnEdits(c: Place, sh: Shard, op: Op)
    requires c.Valid() && IsData(op) && Ready(c, sh, op) && Here(c, op)
    ensures var p := NodePatch(c.r, c.reg, sh, op); var ch := ChangeOf(c, sh, op);
            EditsBy(PropKeyer(c), sh.nodes, ch, p.propIdx) && EditsBy(CompKeyer(c), sh.nodes, ch, p.compIdx)
  {
    assert PropOf(c.r, c.reg, op.id, map[]) == {} && CompOf(c.r, c.reg, op.id, map[]) == {};
    assert PropOf(c.r, c.reg, op.id, Old(sh, op.id)) == KeysAt(PropKeyer(c), sh.nodes, op.id);
    assert CompOf(c.r, c.reg, op.id, Old(sh, op.id)) == KeysAt(CompKeyer(c), sh.nodes, op.id);
  }

  lemma EditIsChange(key: Keyer, nodes: map<NodeID, Props>, idx: set<Str>, ch: Change, edit: SetEdit)
    requires EditsBy(key, nodes, ch, edit)
    ensures EditSet(idx, edit) == IndexAfter(key, nodes, idx, ch)
  {
  }

  lemma OwnIndexChange(c: Place, sh: Shard, op: Op)
    requires c.Valid() && IsData(op) && Ready(c, sh, op) && Here(c, op)
    ensures var sh' := Patched(sh, NodePatch(c.r, c.reg, sh, op)); var ch := ChangeOf(c, sh, op);
            && sh'.propIdx == IndexAfter(PropKeyer(c), sh.nodes, sh.propIdx, ch)
            && sh'.compIdx == IndexAfter(CompKeyer(c), sh.nodes, sh.compIdx, ch)
  {
    var p, ch := NodePatch(c.r, c.reg, sh, op), ChangeOf(c, sh, op);
    OwnEdits(c, sh, op);
    EditIsChange(PropKeyer(c), sh.nodes, sh.propIdx, ch, p.propIdx);
    EditIsChange(CompKeyer(c), sh.nodes, sh.compIdx, ch, p.compIdx);
  }

  lemma ChangesAlike(c: Place, a: Shard, b: Shard, op: Op)
    requires c.Valid() && IsData(op) && Ready(c, a, op) && Ready(c, b, op) && Fresh(c, a, op)
    ensures Alike(a.nodes, ChangeOf(c, a, op), ChangeOf(c, b, op))
  {
    if op.OpAddNodeBatch? {
      forall id | id in NodeBatchPatch(c.n, c.i, op.nodes).nodes.put ensures id !in a.nodes {
        NodeBatchStores(c.n, c.i, op.nodes, id);
        assert Lists(op.nodes, id) && id in NodesOf(op);
      }
    }
  }

  ghost predicate Indexed(c: Place, a: Shard, b: Shard, e: Shard) {
    && IndexSide(PropKeyer(c), a.nodes, a.propIdx, b.nodes, b.propIdx, e.propIdx)
    && IndexSide(CompKeyer(c), a.nodes, a.compIdx, b.nodes, b.compIdx, e.compIdx)
  }

  lemma IndexedKeeps(c: Place, a: Shard, b: Shard, e: Shard, op: Op)
    requires c.Valid() && IsData(op) && Ready(c, a, op) && Ready(c, b, op) && Fresh(c, a, op) && Indexed(c, a, b, e)
    ensures Indexed(c, Go(c, a, op), Go(c, b, op), e)
  {
    var x, y := ChangeOf(c, a, op), ChangeOf(c, b, op);
    KeyersOwn(c);
    ChangesAlike(c, a, b, op);
    NodesChange(c, a, op);
    NodesChange(c, b, op);
    IndexChange(c, a, op);
    IndexChange(c, b, op);
    IndexSideKeeps(PropKeyer(c), a.nodes, a.propIdx, b.nodes, b.propIdx, e.propIdx, x, y);
    IndexSideKeeps(CompKeyer(c), a.nodes, a.compIdx, b.nodes, b.compIdx, e.compIdx, x, y);
  }

  // ---- the whole stretch ---------------------------------------------------------------------------

  /** The first pass in `a`, the second in `b`, the state between them `e`. */
  ghost predicate Passes(c: Place, a: Shard, b: Shard, e: Shard, dn: int, de: int) {
    && CellsMixed(a.nodes, b.nodes, e.nodes) && EdgeSide(a, b, e, dn, de) && LabelSide(a, b, e) && Indexed(c, a, b, e)
  }

  lemma PassesKeep(c: Place, a: Shard, b: Shard, e: Shard, op: Op, dn: int, de: int)
    requires c.Valid() && IsData(op) && Ready(c, a, op) && Ready(c, b, op) && Fresh(c, a, op) &&
             Passes(c, a, b, e, dn, de)
    ensures Passes(c, Go(c, a, op), Go(c, b, op), e, dn, de)
  {
    NodesKeep(c, a, b, e, op);
    EdgeSideKeeps(c, a, b, e, op, dn, de);
    LabelSideKeeps(c, a, b, e, op);
    IndexedKeeps(c, a, b, e, op);
  }

  /** The label index holds the keys of the labels, and every index entry is of a stored record. */
  ghost predicate Sound(c: Place, sh: Shard) {
    && LabelsOk(sh)
    && (forall id {:trigger SoundAt(PropKeyer(c), sh.nodes, sh.propIdx, id)} ::
        SoundAt(PropKeyer(c), sh.nodes, sh.propIdx, id))
    && (forall id {:trigger SoundAt(CompKeyer(c), sh.nodes, sh.compIdx, id)} ::
        SoundAt(CompKeyer(c), sh.nodes, sh.compIdx, id))
  }

  lemma PassesStart(c: Place, a: Shard, e: Shard)
    requires Sound(c, a) && LabelsOk(e) && a.uniqIdx == e.uniqIdx
    ensures Passes(c, a, e, e, e.nodeCount - a.nodeCount, e.edgeCount - a.edgeCount)
  {
    forall id, l ensures HeldMixed(a, e, e, id, l) && KeysBetween(e, e, id, l) {
      KeyedIsHeld(e, id, l);
    }
    assert forall k :: k in e.labelIdx ==> IsLabelKey(k);
    IndexSideStart(PropKeyer(c), a.nodes, a.propIdx, e.nodes, e.propIdx);
    IndexSideStart(CompKeyer(c), a.nodes, a.compIdx, e.nodes, e.compIdx);
    CellsStart(a.nodes, e.nodes);
    CellsStart(PropsIn(a.edges), PropsIn(e.edges));
  }

  lemma CellsStart<K(!new)>(a: map<K, Props>, e: map<K, Props>)
    ensures CellsMixed(a, e, e)
  {
  }

  lemma IndexSideStart(key: Keyer, an: map<NodeID, Props>, ai: set<Str>, en: map<NodeID, Props>, ei: set<Str>)
    requires forall id {:trigger SoundAt(key, an, ai, id)} :: SoundAt(key, an, ai, id)
    ensures IndexSide(key, an, ai, en, ei, ei)
  {
    forall id ensures IndexAt(key, an, ai, en, ei, ei, id) {
      assert SoundAt(key, an, ai, id);
    }
  }

  /** All buckets as in `e`, label lists up to order, and the counters moved again. */
  ghost predicate Settled(was: Shard, e: Shard, b: Shard) {
    b == Doubled(was, e).(labels := b.labels) && SameLabels(e.labels, b.labels)
  }

  lemma PassesEnd(c: Place, was: Shard, b: Shard, e: Shard)
    requires Passes(c, e, b, e, e.nodeCount - was.nodeCount, e.edgeCount - was.edgeCount)
    ensures Settled(was, e, b)
  {
    CellsEnd(b.nodes, e.nodes);
    EdgesEnd(b.edges, e.edges);
    MixedEnds(b.adjOut, e.adjOut);
    MixedEnds(b.adjIn, e.adjIn);
    assert b.edgeType == e.edgeType;
    LabelSideEnds(b, e);
    KeyersOwn(c);
    IndexSideEnds(PropKeyer(c), e.nodes, b.propIdx, e.propIdx);
    IndexSideEnds(CompKeyer(c), e.nodes, b.compIdx, e.compIdx);
  }

  /** The shard after all entries. */
  ghost function GoAll(c: Place, sh: Shard, log: seq<Entry>): Shard
    requires c.Valid()
    decreases |log|
  {
    if log == [] then sh else GoAll(c, Go(c, sh, log[0].op), log[1..])
  }

  ghost predicate ReadyAll(c: Place, sh: Shard, log: seq<Entry>)
    requires c.Valid()
    decreases |log|
  {
    log == [] || (Ready(c, sh, log[0].op) && ReadyAll(c, Go(c, sh, log[0].op), log[1..]))
  }

  ghost predicate FreshAll(c: Place, sh: Shard, log: seq<Entry>)
    requires c.Valid()
    decreases |log|
  {
    log == [] || (Fresh(c, sh, log[0].op) && FreshAll(c, Go(c, sh, log[0].op), log[1..]))
  }

  lemma {:induction false} PassesKeepAll(c: Place, a: Shard, b: Shard, e: Shard, log: seq<Entry>, dn: int, de: int)
    requires c.Valid() && AllData(log) && ReadyAll(c, a, log) && ReadyAll(c, b, log) && FreshAll(c, a, log)
    requires Passes(c, a, b, e, dn, de)
    ensures Passes(c, GoAll(c, a, log), GoAll(c, b, log), e, dn, de)
    decreases |log|
  {
    if log != [] {
      Head(c, a, log);
      Head(c, b, log);
      PassesKeep(c, a, b, e, log[0].op, dn, de);
      PassesKeepAll(c, Go(c, a, log[0].op), Go(c, b, log[0].op), e, log[1..], dn, de);
    }
  }

  lemma Head(c: Place, sh: Shard, log: seq<Entry>)
    requires c.Valid() && AllData(log) && ReadyAll(c, sh, log) && log != []
    ensures IsData(log[0].op) && AllData(log[1..]) && Ready(c, sh, log[0].op) &&
            ReadyAll(c, Go(c, sh, log[0].op), log[1..])
    ensures GoAll(c, sh, log) == GoAll(c, Go(c, sh, log[0].op), log[1..])
  {
  }

  lemma LabelsOkKept(c: Place, sh: Shard, op: Op)
    requires c.Valid() && IsData(op) && Ready(c, sh, op) && LabelsOk(sh) && Fresh(c, sh, op)
    ensures LabelsOk(Go(c, sh, op)) && Go(c, sh, op).uniqIdx == sh.uniqIdx
  {
    if Here(c, op) {
      GoHere(c, sh, op);
      OwnLabelsOk(c, sh, op);
    } else {
      LabelsElsewhere(c, sh, op);
      NodesElsewhere(c, sh, op);
      NodesGrow(c, sh.nodes, op);
    }
  }

  lemma OwnLabelsOk(c: Place, sh: Shard, op: Op)
    requires c.Valid() && IsData(op) && Here(c, op) && LabelsOk(sh) && Fresh(c, sh, op)
    ensures LabelsOk(Patched(sh, NodePatch(c.r, c.reg, sh, op)))
  {
    if op.OpDeleteNode? && op.id !in sh.nodes {
      MissingDeleted(c.r, c.reg, sh, op);
    } else {
      assert op.OpAddNode? || op.OpAddNodeWithLabels? ==> op.id in Created(op);
      StepKeepsLabels(c.r, c.reg, sh, op);
    }
  }

  lemma MissingDeleted(r: Render, reg: Registry, sh: Shard, op: Op)
    requires op.OpDeleteNode? && op.id !in sh.nodes
    ensures Patched(sh, NodePatch(r, reg, sh, op)) == sh.(nodeCount := sh.nodeCount - 1)
  {
    KeepAll(sh);
  }

  lemma {:induction false} LabelsOkAll(c: Place, sh: Shard, log: seq<Entry>)
    requires c.Valid() && AllData(log) && ReadyAll(c, sh, log) && LabelsOk(sh) && FreshAll(c, sh, log)
    ensures LabelsOk(GoAll(c, sh, log)) && GoAll(c, sh, log).uniqIdx == sh.uniqIdx
    decreases |log|
  {
    if log != [] {
      assert IsData(log[0].op);
      LabelsOkKept(c, sh, log[0].op);
      LabelsOkAll(c, Go(c, sh, log[0].op), log[1..]);
    }
  }

  /** One shard through both passes. */
  lemma ShardSettles(c: Place, sh: Shard, log: seq<Entry>)
    requires c.Valid() && AllData(log) && Sound(c, sh) && FreshAll(c, sh, log)
    requires ReadyAll(c, sh, log) && ReadyAll(c, GoAll(c, sh, log), log)
    ensures Settled(sh, GoAll(c, sh, log), GoAll(c, GoAll(c, sh, log), log))
  {
    var e := GoAll(c, sh, log);
    LabelsOkAll(c, sh, log);
    PassesStart(c, sh, e);
    PassesKeepAll(c, sh, e, e, log, e.nodeCount - sh.nodeCount, e.edgeCount - sh.edgeCount);
    PassesEnd(c, sh, GoAll(c, e, log), e);
  }

  // ---- states that differ in label order and counters only ----------------------------------------------

  /** `b` is `a` with label lists in another order, and with the counters of `e` minus those of `mid` on top. */
  ghost predicate Like(mid: Shard, e: Shard, a: Shard, b: Shard) {
    && b == a.(labels := b.labels, nodeCount := a.nodeCount + e.nodeCount - mid.nodeCount,
               edgeCount := a.edgeCount + e.edgeCount - mid.edgeCount)
    && SameLabels(a.labels, b.labels)
  }

  lemma LikeHeld(a: Shard, b: Shard, id: NodeID, l: Str)
    requires SameLabels(a.labels, b.labels)
    ensures Held(a, id, l) <==> Held(b, id, l)
  {
  }

  lemma LikeReady(c: Place, mid: Shard, e: Shard, a: Shard, b: Shard, op: Op)
    requires c.Valid() && Like(mid, e, a, b)
    ensures Ready(c, a, op) <==> Ready(c, b, op)
  {
  }

  lemma SameElements(a: seq<Str>, b: seq<Str>, id: NodeID)
    requires forall l :: l in a <==> l in b
    ensures LabelKeys(a, id) == LabelKeys(b, id)
  {
  }

  lemma LikeLabelIdx(c: Place, a: Shard, b: Shard, op: Op)
    requires c.Valid() && IsData(op) && Ready(c, a, op) && Ready(c, b, op) && LabelsOn(a) && LabelsOn(b)
    requires a.nodes == b.nodes && a.labelIdx == b.labelIdx && SameLabels(a.labels, b.labels)
    ensures Go(c, a, op).labelIdx == Go(c, b, op).labelIdx
  {
    if Here(c, op) {
      GoHere(c, a, op);
      GoHere(c, b, op);
      LabelEditIs(c.r, c.reg, a, op);
      LabelEditIs(c.r, c.reg, b, op);
      SameEdits(a, b, op);
    } else {
      LabelsElsewhere(c, a, op);
      LabelsElsewhere(c, b, op);
    }
  }

  lemma SameEdits(a: Shard, b: Shard, op: Op)
    requires IsNodeOp(op) && a.nodes == b.nodes && SameLabels(a.labels, b.labels)
    ensures LabelKeys(LabelEdit(a, op).0, op.id) == LabelKeys(LabelEdit(b, op).0, op.id)
    ensures LabelKeys(LabelEdit(a, op).1, op.id) == LabelKeys(LabelEdit(b, op).1, op.id)
  {
    var x, y := LabelsIn(a.labels, op.id), LabelsIn(b.labels, op.id);
    assert forall l :: l in x <==> l in y;
    SameElements(x, y, op.id);
    if op.OpAddLabel? {
      NewLabelsAre(x, op.names);
      NewLabelsAre(y, op.names);
      SameElements(NewLabels(x, op.names), NewLabels(y, op.names), op.id);
    }
  }

  lemma LikeLabels(c: Place, a: Shard, b: Shard, op: Op)
    requires c.Valid() && IsData(op) && Ready(c, a, op) && Ready(c, b, op) && LabelsOn(a) && LabelsOn(b)
    requires SameLabels(a.labels, b.labels)
    ensures SameLabels(Go(c, a, op).labels, Go(c, b, op).labels)
  {
    var a', b' := Go(c, a, op), Go(c, b, op);
    LabelsOnKept(c, a, op);
    LabelsOnKept(c, b, op);
    forall id, l ensures Held(a', id, l) <==> Held(b', id, l) {
      HeldStep(c, a, op, id, l);
      HeldStep(c, b, op, id, l);
      LikeHeld(a, b, id, l);
    }
    SameHeld(a', b');
  }

  lemma SameHeld(a: Shard, b: Shard)
    requires LabelsOn(a) && LabelsOn(b) && forall id, l :: Held(a, id, l) <==> Held(b, id, l)
    ensures SameLabels(a.labels, b.labels)
  {
    forall id ensures id in a.labels <==> id in b.labels {
      if id in a.labels {
        assert Held(a, id, a.labels[id][0]);
      }
      if id in b.labels {
        assert Held(b, id, b.labels[id][0]);
      }
    }
    forall id, l | id in a.labels ensures l in a.labels[id] <==> l in b.labels[id] {
      assert Held(a, id, l) <==> Held(b, id, l);
    }
  }

  lemma LikeEdges(c: Place, mid: Shard, e: Shard, a: Shard, b: Shard, op: Op)
    requires c.Valid() && IsData(op) && Ready(c, a, op) && Ready(c, b, op) && Like(mid, e, a, b)
    ensures var a', b' := Go(c, a, op), Go(c, b, op);
            && a'.edges == b'.edges && a'.adjOut == b'.adjOut && a'.adjIn == b'.adjIn && a'.edgeType == b'.edgeType
            && b'.nodeCount == a'.nodeCount + e.nodeCount - mid.nodeCount
            && b'.edgeCount == a'.edgeCount + e.edgeCount - mid.edgeCount && a'.uniqIdx == b'.uniqIdx
  {
    SameEdgeSide(c, a, b, op);
    if op.OpUpdateEdge? {
      MergesEdge(c, a, op);
      MergesEdge(c, b, op);
    }
  }

  lemma SameChange(c: Place, a: Shard, b: Shard, op: Op)
    requires c.Valid() && Ready(c, a, op) && Ready(c, b, op) && a.nodes == b.nodes
    ensures ChangeOf(c, a, op) == ChangeOf(c, b, op)
  {
  }

  lemma LikeNodes(c: Place, a: Shard, b: Shard, op: Op)
    requires c.Valid() && IsData(op) && Ready(c, a, op) && Ready(c, b, op) && a.nodes == b.nodes
    ensures Go(c, a, op).nodes == Go(c, b, op).nodes
  {
    SameChange(c, a, b, op);
    NodesChange(c, a, op);
    NodesChange(c, b, op);
  }

  lemma LikeIndexes(c: Place, a: Shard, b: Shard, op: Op)
    requires c.Valid() && IsData(op) && Ready(c, a, op) && Ready(c, b, op)
    requires a.nodes == b.nodes && a.propIdx == b.propIdx && a.compIdx == b.compIdx
    ensures Go(c, a, op).propIdx == Go(c, b, op).propIdx && Go(c, a, op).compIdx == Go(c, b, op).compIdx
  {
    SameChange(c, a, b, op);
    IndexChange(c, a, op);
    IndexChange(c, b, op);
  }

  /** An entry keeps two such states alike. */
  lemma LikeGo(c: Place, mid: Shard, e: Shard, a: Shard, b: Shard, op: Op)
    requires c.Valid() && IsData(op) && Ready(c, a, op) && LabelsOn(a) && LabelsOn(b) && Like(mid, e, a, b)
    ensures Like(mid, e, Go(c, a, op), Go(c, b, op)) && LabelsOn(Go(c, a, op)) && LabelsOn(Go(c, b, op))
  {
    LikeReady(c, mid, e, a, b, op);
    LikeNodes(c, a, b, op);
    LikeIndexes(c, a, b, op);
    LikeEdges(c, mid, e, a, b, op);
    LikeLabels(c, a, b, op);
    LikeLabelIdx(c, a, b, op);
    LabelsOnKept(c, a, op);
    LabelsOnKept(c, b, op);
  }
}
