/**
 What every leader call does to the node side of a shard (records, labels and their
 indexes), in patch form, and the invariants about records and labels that all calls keep.
 */
module NodeState {
  import opened Types
  import opened Values
  import opened Keys
  import opened Store
  import opened Leader
  import opened Applier
  import opened Replay
  import opened Commute

  function NodeSide(sh: Shard): (map<NodeID, Props>, map<NodeID, seq<Str>>, set<Str>, set<Str>, set<Str>, int) {
    (sh.nodes, sh.labels, sh.labelIdx, sh.propIdx, sh.compIdx, sh.nodeCount)
  }

  /** The single-node entry that a call amounts to, if it takes effect. */
  function NodeOp(r: Render, db: DB, call: Call): Option<Op>
    requires db.Valid() && Room(db, call)
  {
    match call
    case AddNodeCall(props) => Some(OpAddNode(db.nextNode + 1, props))
    case UpdateNodeCall(id, props) => if UpdateNode(r, db, id, props).ok then Some(OpUpdateNode(id, props)) else None
    case SetNodePropsCall(id, props) => if SetNodeProps(r, db, id, props).ok then Some(OpSetNodeProps(id, props))
      else None
    case DeleteNodeCall(id, _) => if db.HasNode(id) then Some(OpDeleteNode(id)) else None
    case AddNodeWithLabelsCall(names, props) =>
      if AddNodeWithLabels(r, db, names, props).ok then Some(OpAddNodeWithLabels(db.nextNode + 1, names, props))
        else None
    case AddLabelCall(id, names) => if AddLabel(r, db, id, names).log != [] then Some(OpAddLabel(id, names)) else None
    case RemoveLabelCall(id, names) => if RemoveLabel(db, id, names).log != [] then Some(OpRemoveLabel(id, names))
      else None
    case _ => None
  }

  predicate IsNodeCall(call: Call) {
    call.AddNodeCall? || call.UpdateNodeCall? || call.SetNodePropsCall? || call.DeleteNodeCall?
    || call.AddNodeWithLabelsCall? || call.AddLabelCall? || call.RemoveLabelCall?
  }

  predicate IsDefinition(call: Call) {
    call.CreateIndexCall? || call.DropIndexCall? || call.CreateCompositeCall? || call.DropCompositeCall?
    || call.CreateUniqueCall? || call.DropUniqueCall?
  }

  /** Only the owner's shard changes on the node side, and there as the entry's patch says. */
  ghost predicate StepsBy(r: Render, db: DB, db': DB, op: Op)
    requires db.Valid() && IsNodeOp(op)
  {
    && |db'.shards| == |db.shards| && db'.reg == db.reg
    && (forall i {:trigger NodeSide(db'.shards[i])} :: 0 <= i < |db.shards| && i != db.Home(op.id) ==>
        NodeSide(db'.shards[i]) == NodeSide(db.shards[i]))
    && NodeSide(db'.ShardOf(op.id)) == NodeSide(Patched(db.ShardOf(op.id), NodePatch(r, db.reg, db.ShardOf(op.id), op)))
  }

  ghost predicate NodeSideSame(db: DB, db': DB) {
    && |db'.shards| == |db.shards| && db'.reg == db.reg
    && forall i {:trigger NodeSide(db'.shards[i])} :: 0 <= i < |db.shards| ==>
         NodeSide(db'.shards[i]) == NodeSide(db.shards[i])
  }

  lemma SameNodeSide(l: DB, f: DB)
    requires Same(l, f)
    ensures NodeSideSame(f, l)
  {
    forall i | 0 <= i < |l.shards| ensures NodeSide(l.shards[i]) == NodeSide(f.shards[i]) {
      assert SameShard(l, f, i);
    }
  }

  lemma NodeOpSteps(r: Render, db: DB, op: Op, db': DB)
    requires db.Valid() && IsNodeOp(op) && Applicable(db, op) && Same(db', ApplyOp(r, db, op).value)
    ensures StepsBy(r, db, db', op)
  {
    NodeOpIsPatch(r, db, op);
    SameNodeSide(db', ApplyOp(r, db, op).value);
    forall i | 0 <= i < |db.shards| && i != db.Home(op.id) ensures NodeSide(db'.shards[i]) == NodeSide(db.shards[i]) {
      assert NodeSide(db'.shards[i]) == NodeSide(ApplyOp(r, db, op).value.shards[i]);
    }
    assert NodeSide(db'.ShardOf(op.id)) == NodeSide(ApplyOp(r, db, op).value.ShardOf(op.id));
  }

  lemma EraseEdgeKeepsNodeSide(db: DB, e: Edge)
    requires db.Valid()
    ensures NodeSideSame(db, EraseEdge(db, e))
  {
  }

  lemma {:induction false} EraseEdgesKeepNodeSide(db: DB, es: seq<Edge>)
    requires db.Valid()
    ensures NodeSideSame(db, EraseEdges(db, es).db) && EraseEdges(db, es).db.nextNode == db.nextNode
  {
    if es != [] {
      EraseEdgesKeepNodeSide(db, es[..|es| - 1]);
      var mid := EraseEdges(db, es[..|es| - 1]).db;
      EraseEdgeKeepsNodeSide(mid, es[|es| - 1]);
      forall i | 0 <= i < |db.shards| ensures NodeSide(EraseEdges(db, es).db.shards[i]) == NodeSide(db.shards[i]) {
        assert NodeSide(mid.shards[i]) == NodeSide(db.shards[i]);
      }
    }
  }

  /** Patches look at nothing but the node side. */
  lemma PatchOfSide(r: Render, reg: Registry, a: Shard, b: Shard, op: Op)
    requires NodeSide(a) == NodeSide(b) && IsNodeOp(op)
    ensures NodePatch(r, reg, a, op) == NodePatch(r, reg, b, op)
    ensures NodeSide(Patched(a, NodePatch(r, reg, a, op))) == NodeSide(Patched(b, NodePatch(r, reg, b, op)))
  {
    assert Labels(a, op.id) == Labels(b, op.id) && Old(a, op.id) == Old(b, op.id);
  }

  lemma DeleteNodeSteps(r: Render, db: DB, id: NodeID, es: seq<Edge>)
    requires db.Valid()
    ensures var o := DeleteNode(r, db, id, es);
            if db.HasNode(id) then StepsBy(r, db, o.db, OpDeleteNode(id)) else NodeSideSame(db, o.db)
  {
    EraseEdgesKeepNodeSide(db, es);
    EraseRegistry(db, es);
    var mid := EraseEdges(db, es).db;
    assert NodeSide(mid.ShardOf(id)) == NodeSide(db.ShardOf(id));
    if db.HasNode(id) {
      SelfSame(mid);
      EraseNodeReplays(r, mid, mid, id);
      var db' := DeleteNode(r, db, id, es).db;
      NodeOpSteps(r, mid, OpDeleteNode(id), db');
      PatchOfSide(r, db.reg, mid.ShardOf(id), db.ShardOf(id), OpDeleteNode(id));
      forall i | 0 <= i < |db.shards| && i != db.Home(id) ensures NodeSide(db'.shards[i]) == NodeSide(db.shards[i]) {
        assert NodeSide(mid.shards[i]) == NodeSide(db.shards[i]);
      }
    }
  }

  lemma {:induction false} EraseRegistry(db: DB, es: seq<Edge>)
    requires db.Valid()
    ensures EraseEdges(db, es).db.reg == db.reg
  {
    if es != [] {
      EraseRegistry(db, es[..|es| - 1]);
    }
  }

  lemma LoggedOp(r: Render, db: DB, call: Call)
    requires db.Valid() && Room(db, call) && IsNodeCall(call) && !call.DeleteNodeCall?
    ensures NodeOp(r, db, call).Some? ==>
              Execute(r, db, call).log != [] && Execute(r, db, call).log[0].op == NodeOp(r, db, call).value
    ensures NodeOp(r, db, call).Some? ==>
              IsNodeOp(NodeOp(r, db, call).value) && Applicable(db, NodeOp(r, db, call).value)
    ensures NodeOp(r, db, call).None? ==> Execute(r, db, call).log == []
  {
  }

  /** Every node call steps by its entry, or changes nothing on the node side. */
  lemma NodeCallSteps(r: Render, db: DB, call: Call)
    requires Placed(db) && Room(db, call) && IsNodeCall(call)
    ensures var o, op := Execute(r, db, call), NodeOp(r, db, call);
            match op
            case Some(a) => IsNodeOp(a) && StepsBy(r, db, o.db, a)
            case None => NodeSideSame(db, o.db)
  {
    if call.DeleteNodeCall? {
      DeleteNodeSteps(r, db, call.id, call.listed);
    } else {
      LoggedOp(r, db, call);
      var o := Execute(r, db, call);
      if o.log == [] {
        NoEntryNoChange(r, db, call);
      } else {
        SelfSame(db);
        CallReplays(r, db, db, call);
        NodeOpSteps(r, db, o.log[0].op, o.db);
      }
    }
  }

  // ---- records and labels ----------------------------------------------------------------------

  ghost function AllLabelKeys(labels: map<NodeID, seq<Str>>): set<Str> {
    set id, l | id in labels && l in labels[id] :: IndexKey(l, id)
  }

  /** Labels belong to existing nodes and the label index holds exactly their keys. */
  ghost predicate LabelsOk(sh: Shard) {
    && sh.labels.Keys <= sh.nodes.Keys && (forall id :: id in sh.labels ==> sh.labels[id] != [])
    && sh.labelIdx == AllLabelKeys(sh.labels)
  }

  ghost predicate HomedAt(sh: Shard, n: nat, i: nat, last: nat)
    requires n > 0
  {
    forall id :: id in sh.nodes ==> 1 <= id <= last && id % n == i
  }

  ghost predicate RecordsAt(db: DB, i: nat)
    requires db.Valid() && i < |db.shards|
  {
    HomedAt(db.shards[i], |db.shards|, i, db.nextNode) && LabelsOk(db.shards[i])
  }

  /** Every record lies in its own shard under an ID already handed out, with its labels indexed. */
  ghost predicate RecordsOk(db: DB) {
    db.Valid() && forall i {:trigger RecordsAt(db, i)} :: 0 <= i < |db.shards| ==> RecordsAt(db, i)
  }

  function LabelsIn(labels: map<NodeID, seq<Str>>, id: NodeID): seq<Str> {
    if id in labels then labels[id] else []
  }

  lemma LabelKeyIn(labels: map<NodeID, seq<Str>>, l: Str, id: NodeID)
    ensures IndexKey(l, id) in AllLabelKeys(labels) <==> l in LabelsIn(labels, id)
  {
    if IndexKey(l, id) in AllLabelKeys(labels) {
      var id', l' :| id' in labels && l' in labels[id'] && IndexKey(l', id') == IndexKey(l, id);
      IndexKeyInjective(l', id', l, id);
    }
  }

  lemma LabelKeysIn(names: seq<Str>, l: Str, id: NodeID, id': NodeID)
    ensures IndexKey(l, id) in LabelKeys(names, id') <==> id == id' && l in names
  {
    if IndexKey(l, id) in LabelKeys(names, id') {
      var l' :| l' in names && IndexKey(l', id') == IndexKey(l, id);
      IndexKeyInjective(l', id', l, id);
    }
  }

  lemma {:induction false} NewLabelsAre(existing: seq<Str>, names: seq<Str>)
    ensures forall l :: l in NewLabels(existing, names) <==> l in names && l !in existing
  {
    if names != [] {
      NewLabelsAre(existing, names[..|names| - 1]);
      assert names == names[..|names| - 1] + [names[|names| - 1]];
    }
  }

  lemma {:induction false} KeptLabelsAre(existing: seq<Str>, names: seq<Str>)
    ensures forall l :: l in KeptLabels(existing, names) <==> l in existing && l !in names
  {
    if existing != [] {
      KeptLabelsAre(existing[..|existing| - 1], names);
      assert existing == existing[..|existing| - 1] + [existing[|existing| - 1]];
    }
  }

  /** `t` is what stands in `s` at exactly those places that hold nothing of `out`, in the same order. */
  ghost predicate Filtered(s: seq<Str>, out: seq<Str>, t: seq<Str>) {
    exists at: seq<nat> :: Places(s, out, t, at)
  }

  ghost predicate Places(s: seq<Str>, out: seq<Str>, t: seq<Str>, at: seq<nat>) {
    && |at| == |t| && (forall k {:trigger at[k]} :: 0 <= k < |at| ==> at[k] < |s| && t[k] == s[at[k]])
    && (forall k, m {:trigger at[k], at[m]} :: 0 <= k < m < |at| ==> at[k] < at[m])
    && (forall j: nat {:trigger j in at} :: j in at <==> j < |s| && s[j] !in out)
  }

  lemma PlacesStay(s: seq<Str>, out: seq<Str>, t: seq<Str>, at: seq<nat>, x: Str)
    requires Places(s, out, t, at) && x in out
    ensures Places(s + [x], out, t, at)
  {
  }

  lemma PlacesGrow(s: seq<Str>, out: seq<Str>, t: seq<Str>, at: seq<nat>, x: Str)
    requires Places(s, out, t, at) && x !in out
    ensures Places(s + [x], out, t + [x], at + [|s|])
  {
    var s', t', at' := s + [x], t + [x], at + [|s|];
    forall k | 0 <= k < |at'| ensures at'[k] < |s'| && t'[k] == s'[at'[k]] {
      assert k < |at| ==> at'[k] == at[k];
    }
    forall k, m | 0 <= k < m < |at'| ensures at'[k] < at'[m] {
      assert at'[k] == at[k] && at[k] < |s|;
      assert m < |at| ==> at'[m] == at[m];
    }
    forall j: nat ensures j in at' <==> j < |s'| && s'[j] !in out {
      assert j in at' <==> j in at || j == |s|;
    }
  }

  lemma FilteredLast(s: seq<Str>, out: seq<Str>, t: seq<Str>, x: Str)
    requires Filtered(s, out, t)
    ensures Filtered(s + [x], out, t + if x in out then [] else [x])
  {
    var at: seq<nat> :| Places(s, out, t, at);
    if x in out {
      PlacesStay(s, out, t, at, x);
      assert t + [] == t;
    } else {
      PlacesGrow(s, out, t, at, x);
    }
  }

  /** The labels added are the requested ones not yet held, repeats included. */
  lemma {:induction false} NewLabelsFiltered(existing: seq<Str>, names: seq<Str>)
    ensures Filtered(names, existing, NewLabels(existing, names))
  {
    if names == [] {
      assert Places(names, existing, [], []);
    } else {
      var n := |names| - 1;
      NewLabelsFiltered(existing, names[..n]);
      FilteredLast(names[..n], existing, NewLabels(existing, names[..n]), names[n]);
      assert names == names[..n] + [names[n]];
    }
  }

  /** The labels kept are those not removed. */
  lemma {:induction false} KeptLabelsFiltered(existing: seq<Str>, names: seq<Str>)
    ensures Filtered(existing, names, KeptLabels(existing, names))
  {
    if existing == [] {
      assert Places(existing, names, [], []);
    } else {
      var n := |existing| - 1;
      KeptLabelsFiltered(existing[..n], names);
      FilteredLast(existing[..n], names, KeptLabels(existing[..n], names), existing[n]);
      assert existing == existing[..n] + [existing[n]];
    }
  }

  /** The label list of one node changes, and the index follows key by key. */
  lemma LabelStep(labels: map<NodeID, seq<Str>>, labels': map<NodeID, seq<Str>>, id: NodeID, e: SetEdit,
      dropped: seq<Str>, added: seq<Str>)
    requires forall j: NodeID :: j != id ==> LabelsIn(labels', j) == LabelsIn(labels, j)
    requires e == SetEdit(LabelKeys(dropped, id), LabelKeys(added, id))
    requires forall l :: l in LabelsIn(labels', id) <==> (l in LabelsIn(labels, id) && l !in dropped) || l in added
    ensures EditSet(AllLabelKeys(labels), e) == AllLabelKeys(labels')
  {
    forall k ensures k in EditSet(AllLabelKeys(labels), e) <==> k in AllLabelKeys(labels') {
      if k in EditSet(AllLabelKeys(labels), e) || k in AllLabelKeys(labels') {
        var j, l := LabelKeyShape(labels, labels', id, added, k);
        LabelKeyIn(labels, l, j);
        LabelKeyIn(labels', l, j);
        LabelKeysIn(dropped, l, j, id);
        LabelKeysIn(added, l, j, id);
      }
    }
  }

  lemma LabelKeyShape(labels: map<NodeID, seq<Str>>, labels': map<NodeID, seq<Str>>, id: NodeID, added: seq<Str>,
      k: Str) returns (j: NodeID, l: Str)
    requires k in AllLabelKeys(labels) || k in AllLabelKeys(labels') || k in LabelKeys(added, id)
    ensures k == IndexKey(l, j)
  {
    if k in AllLabelKeys(labels) {
      j, l :| j in labels && l in labels[j] && k == IndexKey(l, j);
    } else if k in AllLabelKeys(labels') {
      j, l :| j in labels' && l in labels'[j] && k == IndexKey(l, j);
    } else {
      j := id;
      l :| l in added && k == IndexKey(l, id);
    }
  }

  /** Adding entries name a node that does not exist yet. */
  predicate FreshFor(sh: Shard, op: Op) {
    op.OpAddNode? || op.OpAddNodeWithLabels? ==> op.id !in sh.nodes
  }

  /** Storing a label list and editing the index to match, with the node in place. */
  lemma RelabelKeeps(sh: Shard, sh': Shard, id: NodeID, names: seq<Str>, dropped: seq<Str>, added: seq<Str>)
    requires LabelsOk(sh) && id in sh'.nodes && sh.nodes.Keys - {id} <= sh'.nodes.Keys
    requires sh'.labels == if names == [] then sh.labels - {id} else sh.labels[id := names]
    requires sh'.labelIdx == EditSet(sh.labelIdx, SetEdit(LabelKeys(dropped, id), LabelKeys(added, id)))
    requires forall l :: l in names <==> (l in LabelsIn(sh.labels, id) && l !in dropped) || l in added
    ensures LabelsOk(sh')
  {
    LabelStep(sh.labels, sh'.labels, id, SetEdit(LabelKeys(dropped, id), LabelKeys(added, id)), dropped, added);
  }

  lemma AddLabelStep(sh: Shard, id: NodeID, names: seq<Str>)
    requires LabelsOk(sh) && id in sh.nodes
    ensures var added := NewLabels(Labels(sh, id), names);
            added != [] ==> LabelsOk(Patched(sh, Relabel(id, Labels(sh, id) + added, {}, LabelKeys(added, id))))
  {
    var added := NewLabels(Labels(sh, id), names);
    var p := Relabel(id, Labels(sh, id) + added, {}, LabelKeys(added, id));
    if added != [] {
      KeepMap(sh.nodes);
      PutOne(sh.labels, id, Labels(sh, id) + added);
      assert LabelKeys([], id) == {};
      RelabelKeeps(sh, Patched(sh, p), id, Labels(sh, id) + added, [], added);
    }
  }

  lemma RemoveLabelStep(sh: Shard, id: NodeID, names: seq<Str>)
    requires LabelsOk(sh) && id in sh.nodes
    ensures LabelsOk(Patched(sh, Relabel(id, KeptLabels(Labels(sh, id), names), LabelKeys(names, id), {})))
  {
    var kept := KeptLabels(Labels(sh, id), names);
    var p := Relabel(id, kept, LabelKeys(names, id), {});
    KeepMap(sh.nodes);
    PutOne(sh.labels, id, kept);
    DropOne(sh.labels, id);
    assert LabelKeys([], id) == {};
    KeptLabelsAre(Labels(sh, id), names);
    RelabelKeeps(sh, Patched(sh, p), id, kept, names, []);
  }

  lemma AddLabeledStep(r: Render, reg: Registry, sh: Shard, id: NodeID, names: seq<Str>, props: Props)
    requires LabelsOk(sh) && id !in sh.nodes
    ensures LabelsOk(Patched(sh, NodePatch(r, reg, sh, OpAddNodeWithLabels(id, names, props))))
  {
    var p := NodePatch(r, reg, sh, OpAddNodeWithLabels(id, names, props));
    PutOne(sh.nodes, id, props);
    PutOne(sh.labels, id, names);
    KeepMap(sh.labels);
    assert LabelKeys([], id) == {};
    if names != [] {
      RelabelKeeps(sh, Patched(sh, p), id, names, [], names);
    }
  }

  lemma DeleteStep(r: Render, reg: Registry, sh: Shard, id: NodeID)
    requires LabelsOk(sh) && id in sh.nodes
    ensures LabelsOk(Patched(sh, NodePatch(r, reg, sh, OpDeleteNode(id))))
  {
    var p := NodePatch(r, reg, sh, OpDeleteNode(id));
    var names := Labels(sh, id);
    DropOne(sh.nodes, id);
    DropOne(sh.labels, id);
    KeepMap(sh.labels);
    assert LabelKeys([], id) == {};
    LabelStep(sh.labels, sh.labels - {id}, id, p.labelIdx, names, []);
    assert id !in sh.labels ==> sh.labels - {id} == sh.labels;
  }

  lemma RewriteKeepsLabels(r: Render, reg: Registry, sh: Shard, id: NodeID, was: Props, props: Props)
    requires LabelsOk(sh)
    ensures LabelsOk(Patched(sh, Rewrite(r, reg, id, was, props)))
    ensures LabelsOk(Patched(sh, Rewrite(r, reg, id, was, props).(dn := 1)))
  {
    PutOne(sh.nodes, id, props);
    KeepMap(sh.labels);
  }

  predicate IsPropsOp(op: Op) {
    op.OpAddNode? || op.OpUpdateNode? || op.OpSetNodeProps?
  }

  lemma PropsStepKeepsLabels(r: Render, reg: Registry, sh: Shard, op: Op)
    requires IsPropsOp(op) && LabelsOk(sh)
    ensures LabelsOk(Patched(sh, NodePatch(r, reg, sh, op)))
  {
    match op
    case OpAddNode(id, props) => RewriteKeepsLabels(r, reg, sh, id, map[], props);
    case OpUpdateNode(id, props) =>
      PatchNothing(sh);
      RewriteKeepsLabels(r, reg, sh, id, Old(sh, id), Old(sh, id) + props);
    case OpSetNodeProps(id, props) => RewriteKeepsLabels(r, reg, sh, id, Old(sh, id), props);
  }

  lemma NoStepKeepsLabels(r: Render, reg: Registry, sh: Shard, op: Op)
    requires (op.OpAddLabel? || op.OpRemoveLabel?) && LabelsOk(sh) && op.id !in sh.nodes
    ensures LabelsOk(Patched(sh, NodePatch(r, reg, sh, op)))
  {
    PatchNothing(sh);
  }

  lemma AddedLabelsKept(r: Render, reg: Registry, sh: Shard, id: NodeID, names: seq<Str>)
    requires LabelsOk(sh) && id in sh.nodes
    ensures LabelsOk(Patched(sh, NodePatch(r, reg, sh, OpAddLabel(id, names))))
  {
    PatchNothing(sh);
    AddLabelStep(sh, id, names);
  }

  lemma RelabelStepKeepsLabels(r: Render, reg: Registry, sh: Shard, op: Op)
    requires (op.OpAddLabel? || op.OpRemoveLabel?) && LabelsOk(sh)
    ensures LabelsOk(Patched(sh, NodePatch(r, reg, sh, op)))
  {
    if op.id !in sh.nodes {
      NoStepKeepsLabels(r, reg, sh, op);
    } else if op.OpAddLabel? {
      AddedLabelsKept(r, reg, sh, op.id, op.names);
    } else {
      RemoveLabelStep(sh, op.id, op.names);
    }
  }

  lemma StepKeepsLabels(r: Render, reg: Registry, sh: Shard, op: Op)
    requires IsNodeOp(op) && LabelsOk(sh) && FreshFor(sh, op) && (op.OpDeleteNode? ==> op.id in sh.nodes)
    ensures LabelsOk(Patched(sh, NodePatch(r, reg, sh, op)))
  {
    if IsPropsOp(op) {
      PropsStepKeepsLabels(r, reg, sh, op);
    } else if op.OpDeleteNode? {
      DeleteStep(r, reg, sh, op.id);
    } else if op.OpAddNodeWithLabels? {
      AddLabeledStep(r, reg, sh, op.id, op.names, op.props);
    } else {
      RelabelStepKeepsLabels(r, reg, sh, op);
    }
  }

  /** The keys of the node bucket after an entry: one more for an addition, one less for a deletion. */
  lemma StepNodes(r: Render, reg: Registry, sh: Shard, op: Op)
    requires IsNodeOp(op) && (op.OpSetNodeProps? ==> op.id in sh.nodes)
    ensures var keys := Patched(sh, NodePatch(r, reg, sh, op)).nodes.Keys;
            keys == if op.OpAddNode? || op.OpAddNodeWithLabels? then sh.nodes.Keys + {op.id}
                    else if op.OpDeleteNode? then sh.nodes.Keys - {op.id} else sh.nodes.Keys
  {
    var p := NodePatch(r, reg, sh, op).nodes;
    assert EditMap(sh.nodes, p).Keys == sh.nodes.Keys - p.del + p.put.Keys;
  }

  /** Adding entries take the next ID; the others name an existing node. */
  ghost predicate Named(db: DB, db': DB, op: Op)
    requires db.Valid() && IsNodeOp(op)
  {
    && db.nextNode <= db'.nextNode
    && if op.OpAddNode? || op.OpAddNodeWithLabels? then op.id == db.nextNode + 1 == db'.nextNode else db.HasNode(op.id)
  }

  lemma StepKeepsRecords(r: Render, db: DB, db': DB, op: Op)
    requires RecordsOk(db) && IsNodeOp(op) && StepsBy(r, db, db', op) && Named(db, db', op)
    ensures RecordsOk(db')
  {
    forall i | 0 <= i < |db'.shards|
      ensures RecordsAt(db', i)
    {
      assert RecordsAt(db, i);
      if i == db.Home(op.id) {
        StepNodes(r, db.reg, db.shards[i], op);
        StepKeepsLabels(r, db.reg, db.shards[i], op);
      } else {
        assert NodeSide(db'.shards[i]) == NodeSide(db.shards[i]);
      }
    }
  }

  lemma SameSideRecords(db: DB, db': DB)
    requires RecordsOk(db) && db.nextNode <= db'.nextNode && |db'.shards| == |db.shards|
    requires forall i {:trigger db'.shards[i]} :: 0 <= i < |db.shards| ==>
               db'.shards[i].nodes == db.shards[i].nodes && db'.shards[i].labels == db.shards[i].labels &&
                   db'.shards[i].labelIdx == db.shards[i].labelIdx
    ensures RecordsOk(db')
  {
    forall i | 0 <= i < |db'.shards| ensures RecordsAt(db', i) {
      assert RecordsAt(db, i);
      assert db'.shards[i].nodes == db.shards[i].nodes;
    }
  }

  // ---- the remaining calls ------------------------------------------------------------------------

  lemma {:induction false} ApplyEdgesKeepNodeSide(db: DB, es: seq<Edge>)
    requires db.Valid()
    ensures NodeSideSame(db, ApplyAddEdges(db, es)) && ApplyAddEdges(db, es).nextNode == db.nextNode
  {
    if es != [] {
      ApplyEdgesKeepNodeSide(db, es[..|es| - 1]);
      var mid, db' := ApplyAddEdges(db, es[..|es| - 1]), ApplyAddEdges(db, es);
      forall i | 0 <= i < |db.shards| ensures NodeSide(db'.shards[i]) == NodeSide(db.shards[i]) {
        assert NodeSide(mid.shards[i]) == NodeSide(db.shards[i]);
      }
    }
  }

  lemma EdgeCallKeepsNodeSide(r: Render, db: DB, call: Call)
    requires db.Valid() && Room(db, call) && IsEdgeCall(call)
    ensures NodeSideSame(db, Execute(r, db, call).db) && Execute(r, db, call).db.nextNode == db.nextNode
  {
    match call
    case AddEdgeCall(s, t, name, props) =>
    case AddEdgeBatchCall(list) =>
      var db1, es := db.(nextEdge := db.nextEdge + |list|), NumberedEdges(db.nextEdge + 1, list);
      BatchIsOneByOne(db1, es);
      ApplyEdgesKeepNodeSide(db1, es);
    case DeleteEdgeCall(eid) =>
      if GetEdge(db, eid, 0).Some? {
        EraseEdgeKeepsNodeSide(db, GetEdge(db, eid, 0).value);
      }
    case UpdateEdgeCall(eid, props) =>
  }

  /** The batch puts new records into their shards and touches no index. */
  ghost predicate BatchAt(sh: Shard, sh': Shard, n: nat, i: nat, first: nat, count: nat)
    requires n > 0 && first > 0
  {
    && (sh'.labels, sh'.labelIdx, sh'.propIdx, sh'.compIdx, sh'.uniqIdx) ==
         (sh.labels, sh.labelIdx, sh.propIdx, sh.compIdx, sh.uniqIdx)
    && (HomedAt(sh, n, i, first - 1) ==> sh'.nodeCount - |sh'.nodes| == sh.nodeCount - |sh.nodes|)
    && (forall id {:trigger id in sh'.nodes} :: id in sh'.nodes ==>
        id in sh.nodes || (first <= id < first + count && id % n == i))
    && (forall id {:trigger id in sh.nodes} :: id in sh.nodes ==>
        id in sh'.nodes && (id < first ==> sh'.nodes[id] == sh.nodes[id]))
  }

  lemma {:induction false} OwnNodesAre(sh: Shard, nodes: seq<(NodeID, Props)>, n: nat, i: nat, first: nat)
    requires n > 0 && first > 0 && forall j :: 0 <= j < |nodes| ==> nodes[j].0 == first + j
    ensures BatchAt(sh, PutOwnNodes(sh, nodes, n, i), n, i, first, |nodes|)
  {
    if nodes != [] {
      OwnNodesAre(sh, nodes[..|nodes| - 1], n, i, first);
    }
  }

  lemma BatchCall(db: DB, list: seq<Props>, i: nat)
    requires db.Valid() && db.nextNode + |list| < TWO64 && i < |db.shards|
    ensures BatchAt(db.shards[i], AddNodeBatch(db, list).db.shards[i], |db.shards|, i, db.nextNode + 1, |list|)
  {
    OwnNodesAre(db.shards[i], Leader.Numbered(db.nextNode + 1, list), |db.shards|, i, db.nextNode + 1);
  }

  lemma {:induction false} OwnNodeAt(sh: Shard, nodes: seq<(NodeID, Props)>, n: nat, i: nat, first: nat, k: nat)
    requires n > 0 && k < |nodes| && nodes[k].0 % n == i && forall j :: 0 <= j < |nodes| ==> nodes[j].0 == first + j
    ensures var after := PutOwnNodes(sh, nodes, n, i).nodes;
            nodes[k].0 in after && after[nodes[k].0] == nodes[k].1
  {
    if k < |nodes| - 1 {
      OwnNodeAt(sh, nodes[..|nodes| - 1], n, i, first, k);
    }
  }

  /** Item `k` of a batch is stored under the `k`-th of the IDs handed out, without labels, and logged with it. */
  lemma BatchIsRead(db: DB, list: seq<Props>, k: nat)
    requires db.Valid() && db.nextNode + |list| < TWO64 && k < |list|
    ensures var o, id := AddNodeBatch(db, list), db.nextNode + 1 + k;
            && o.ok && o.db.Valid() && o.db.HasNode(id) && o.db.ShardOf(id).nodes[id] == list[k]
            && (RecordsOk(db) ==> Labels(o.db.ShardOf(id), id) == [])
            && |o.log| == 1 && o.log[0].op.OpAddNodeBatch? && |o.log[0].op.nodes| == |list|
            && o.log[0].op.nodes[k] == (id, list[k])
  {
    var nodes := Leader.Numbered(db.nextNode + 1, list);
    var i := db.Home(db.nextNode + 1 + k);
    OwnNodeAt(db.shards[i], nodes, |db.shards|, i, db.nextNode + 1, k);
    BatchCall(db, list, i);
    if RecordsOk(db) {
      assert RecordsAt(db, i);
    }
  }

  lemma BatchKeepsRecords(db: DB, list: seq<Props>)
    requires RecordsOk(db) && db.nextNode + |list| < TWO64
    ensures RecordsOk(AddNodeBatch(db, list).db)
  {
    var db' := AddNodeBatch(db, list).db;
    forall i | 0 <= i < |db'.shards| ensures RecordsAt(db', i) {
      assert RecordsAt(db, i);
      BatchCall(db, list, i);
    }
  }

  /** Definitions touch no record and no label. */
  ghost predicate RecordsSame(db: DB, db': DB) {
    && |db'.shards| == |db.shards| && db'.nextNode == db.nextNode
    && forall i {:trigger db'.shards[i]} :: 0 <= i < |db.shards| ==>
         db'.shards[i].nodes == db.shards[i].nodes && db'.shards[i].labels == db.shards[i].labels &&
             db'.shards[i].labelIdx == db.shards[i].labelIdx
         && db'.shards[i].nodeCount == db.shards[i].nodeCount
  }

  lemma IndexDefinitionsKeep(r: Render, db: DB, p: Str, names: seq<Str>)
    requires db.Valid()
    ensures RecordsSame(db, CreateIndex(r, db, p).db) && RecordsSame(db, DropIndex(db, p).db)
    ensures RecordsSame(db, CreateComposite(r, db, names).db) && RecordsSame(db, DropComposite(db, names).db)
  {
  }

  lemma ConstraintsKeep(r: Render, db: DB, c: Constraint)
    requires db.Valid()
    ensures RecordsSame(db, CreateUnique(r, db, c).db) && RecordsSame(db, DropUnique(db, c).db)
  {
  }

  lemma DefinitionsKeepRecords(r: Render, db: DB, call: Call)
    requires db.Valid() && IsDefinition(call)
    ensures RecordsSame(db, Execute(r, db, call).db)
  {
    match call
    case CreateIndexCall(p) => IndexDefinitionsKeep(r, db, p, []);
    case DropIndexCall(p) => IndexDefinitionsKeep(r, db, p, []);
    case CreateCompositeCall(names) => IndexDefinitionsKeep(r, db, [], names);
    case DropCompositeCall(names) => IndexDefinitionsKeep(r, db, [], names);
    case CreateUniqueCall(c) => ConstraintsKeep(r, db, c);
    case DropUniqueCall(c) => ConstraintsKeep(r, db, c);
  }

  lemma NodeCallNames(r: Render, db: DB, call: Call)
    requires RecordsOk(db) && Room(db, call) && IsNodeCall(call)
    ensures db.nextNode <= Execute(r, db, call).db.nextNode
    ensures NodeOp(r, db, call).Some? ==>
              IsNodeOp(NodeOp(r, db, call).value) && Named(db, Execute(r, db, call).db, NodeOp(r, db, call).value)
  {
    if call.DeleteNodeCall? {
      EraseEdgesKeepNodeSide(db, call.listed);
    }
  }

  /** Every call keeps every record in its shard and the label index exact. */
  lemma CallKeepsRecords(r: Render, db: DB, call: Call)
    requires Placed(db) && RecordsOk(db) && Room(db, call)
    ensures RecordsOk(Execute(r, db, call).db)
  {
    var db' := Execute(r, db, call).db;
    if IsNodeCall(call) {
      NodeCallSteps(r, db, call);
      NodeCallNames(r, db, call);
      if NodeOp(r, db, call).Some? {
        StepKeepsRecords(r, db, db', NodeOp(r, db, call).value);
      } else {
        SideIsRecords(db, db');
        SameSideRecords(db, db');
      }
    } else if IsEdgeCall(call) {
      EdgeCallKeepsNodeSide(r, db, call);
      SideIsRecords(db, db');
      SameSideRecords(db, db');
    } else if call.AddNodeBatchCall? {
      BatchKeepsRecords(db, call.list);
    } else {
      DefinitionsKeepRecords(r, db, call);
      SameSideRecords(db, db');
    }
  }

  lemma SideIsRecords(db: DB, db': DB)
    requires NodeSideSame(db, db')
    ensures forall i {:trigger db'.shards[i]} :: 0 <= i < |db.shards| ==>
              db'.shards[i].nodes == db.shards[i].nodes && db'.shards[i].labels == db.shards[i].labels &&
                  db'.shards[i].labelIdx == db.shards[i].labelIdx
  {
    forall i | 0 <= i < |db.shards|
      ensures db'.shards[i].nodes == db.shards[i].nodes && db'.shards[i].labels == db.shards[i].labels &&
              db'.shards[i].labelIdx == db.shards[i].labelIdx
    {
      assert NodeSide(db'.shards[i]) == NodeSide(db.shards[i]);
    }
  }

  // ---- the node counter -----------------------------------------------------------------------------

  /** What a shard's node counter is off by. */
  function CountOff(sh: Shard): int {
    sh.nodeCount - |sh.nodes|
  }

  lemma StepCounts(r: Render, reg: Registry, sh: Shard, op: Op)
    requires IsNodeOp(op) && (op.OpAddNode? || op.OpAddNodeWithLabels? <==> op.id !in sh.nodes)
    ensures CountOff(Patched(sh, NodePatch(r, reg, sh, op))) == CountOff(sh)
  {
    StepNodes(r, reg, sh, op);
    StepDelta(r, reg, sh, op);
    PatchCounts(sh, NodePatch(r, reg, sh, op), op.id);
  }

  /** A patch that counts the nodes it brings or takes. */
  lemma PatchCounts(sh: Shard, p: Patch, id: NodeID)
    requires
      var keys, keys' := sh.nodes.Keys, Patched(sh, p).nodes.Keys;
      || (p.dn == 0 && keys' == keys)
      || (p.dn == 1 && keys' == keys + {id} && id !in keys)
      || (p.dn == -1 && keys' == keys - {id} && id in keys)
    ensures CountOff(Patched(sh, p)) == CountOff(sh)
  {
    SizeByKeys(sh.nodes, Patched(sh, p).nodes, id);
  }

  lemma StepDelta(r: Render, reg: Registry, sh: Shard, op: Op)
    requires IsNodeOp(op)
    ensures NodePatch(r, reg, sh, op).dn == if op.OpAddNode? ||
            op.OpAddNodeWithLabels? then 1 else if op.OpDeleteNode? then -1 else 0
  {
  }

  lemma SizeByKeys(m: map<NodeID, Props>, m': map<NodeID, Props>, id: NodeID)
    ensures m'.Keys == m.Keys ==> |m'| == |m|
    ensures m'.Keys == m.Keys + {id} && id !in m ==> |m'| == |m| + 1
    ensures m'.Keys == m.Keys - {id} && id in m ==> |m'| == |m| - 1
  {
    assert |m| == |m.Keys| && |m'| == |m'.Keys|;
  }

  ghost predicate CountKept(db: DB, db': DB, i: nat)
    requires i < |db.shards|
  {
    i < |db'.shards| && CountOff(db'.shards[i]) == CountOff(db.shards[i])
  }

  lemma StepKeepsCount(r: Render, db: DB, db': DB, op: Op, i: nat)
    requires RecordsOk(db) && IsNodeOp(op) && StepsBy(r, db, db', op) && Named(db, db', op) && i < |db.shards|
    ensures CountKept(db, db', i)
  {
    assert RecordsAt(db, db.Home(op.id));
    if i == db.Home(op.id) {
      StepCounts(r, db.reg, db.shards[i], op);
    }
    assert i != db.Home(op.id) ==> NodeSide(db'.shards[i]) == NodeSide(db.shards[i]);
  }

  lemma NodeCallKeepsCount(r: Render, db: DB, call: Call, i: nat)
    requires Placed(db) && RecordsOk(db) && Room(db, call) && i < |db.shards| && IsNodeCall(call)
    ensures CountKept(db, Execute(r, db, call).db, i)
  {
    var db' := Execute(r, db, call).db;
    NodeCallSteps(r, db, call);
    NodeCallNames(r, db, call);
    if NodeOp(r, db, call).Some? {
      StepKeepsCount(r, db, db', NodeOp(r, db, call).value, i);
    } else {
      assert NodeSide(db'.shards[i]) == NodeSide(db.shards[i]);
    }
  }

  /** Every call changes each shard's node counter by as much as its number of records. */
  lemma CallKeepsCount(r: Render, db: DB, call: Call, i: nat)
    requires Placed(db) && RecordsOk(db) && Room(db, call) && i < |db.shards|
    ensures CountKept(db, Execute(r, db, call).db, i)
  {
    var db' := Execute(r, db, call).db;
    if IsNodeCall(call) {
      NodeCallKeepsCount(r, db, call, i);
    } else if IsEdgeCall(call) {
      EdgeCallKeepsNodeSide(r, db, call);
      assert NodeSide(db'.shards[i]) == NodeSide(db.shards[i]);
    } else if call.AddNodeBatchCall? {
      assert RecordsAt(db, i);
      BatchCall(db, call.list, i);
    } else {
      DefinitionsKeepRecords(r, db, call);
      assert db'.shards[i].nodes == db.shards[i].nodes;
    }
  }

  /** Over every run: records in place, labels indexed, and NodeCount exact if it was. */
  lemma {:induction false} RunKeepsRecords(r: Render, db: DB, calls: seq<Call>, i: nat)
    requires Placed(db) && RecordsOk(db) && RoomFor(r, db, calls) && i < |db.shards|
    ensures RecordsOk(Run(r, db, calls).0) && CountKept(db, Run(r, db, calls).0, i)
    decreases |calls|
  {
    if calls != [] {
      CallKeepsPlaced(r, db, calls[0]);
      CallKeepsRecords(r, db, calls[0]);
      CallKeepsCount(r, db, calls[0], i);
      RunKeepsRecords(r, Execute(r, db, calls[0]).db, calls[1..], i);
    }
  }
}
