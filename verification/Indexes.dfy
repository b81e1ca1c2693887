/**
 The property and composite indexes over runs. The entries are always those of stored
 records, and complete for every index that has been built since the last unindexed
 batch; a lookup then finds exactly what a scan would.
 */
module Indexes {
  import opened Types
  import opened Values
  import opened Keys
  import opened Store
  import opened Leader
  import opened Replay
  import opened Commute
  import opened NodeState

  // ---- what the buckets should hold -------------------------------------------------------------

  /** All entries for a set of indexed properties. */
  ghost function PropEntries(r: Render, indexed: set<Str>, nodes: map<NodeID, Props>): set<Str> {
    set id, p | id in nodes && p in indexed && p in nodes[id] :: PropKey(r, p, nodes[id][p], id)
  }

  ghost function CompEntries(r: Render, composite: map<Str, seq<Str>>, nodes: map<NodeID, Props>): set<Str> {
    set id, k | id in nodes && k in composite &&
        HasAll(composite[k], nodes[id]) :: CompKey(r, composite[k], nodes[id], id)
  }

  /** Sound: only entries of stored records. Complete: all of them, except for stale indexes. */
  ghost predicate PropsOk(r: Render, reg: Registry, sh: Shard, stale: set<Str>) {
    PropEntries(r, reg.indexed - stale, sh.nodes) <= sh.propIdx <= PropEntries(r, reg.indexed, sh.nodes)
  }

  ghost predicate CompsOk(r: Render, reg: Registry, sh: Shard, stale: set<Str>) {
    CompEntries(r, reg.composite - stale, sh.nodes) <= sh.compIdx <= CompEntries(r, reg.composite, sh.nodes)
  }

  // ---- the owner of an entry ----------------------------------------------------------------------

  lemma PropEntryOwner(r: Render, indexed: set<Str>, nodes: map<NodeID, Props>, k: Str) returns (id: NodeID, p: Str)
    requires k in PropEntries(r, indexed, nodes)
    ensures id in nodes && p in indexed && p in nodes[id] && k == PropKey(r, p, nodes[id][p], id) && KeyOwner(k) == id
  {
    id, p :| id in nodes && p in indexed && p in nodes[id] && k == PropKey(r, p, nodes[id][p], id);
    IndexKeyOwner(PropText(p, r(nodes[id][p])), id);
  }

  lemma CompEntryOwner(r: Render, composite: map<Str, seq<Str>>, nodes: map<NodeID, Props>, k: Str)
    returns (id: NodeID, c: Str)
    requires k in CompEntries(r, composite, nodes)
    ensures id in nodes && c in composite && HasAll(composite[c], nodes[id]) &&
            k == CompKey(r, composite[c], nodes[id], id) && KeyOwner(k) == id
  {
    id, c :| id in nodes && c in composite && HasAll(composite[c], nodes[id]) &&
        k == CompKey(r, composite[c], nodes[id], id);
    CompKeyOwner(r, composite[c], nodes[id], id);
  }

  lemma PropEntryIn(r: Render, indexed: set<Str>, nodes: map<NodeID, Props>, id: NodeID, p: Str)
    requires id in nodes && p in indexed && p in nodes[id]
    ensures PropKey(r, p, nodes[id][p], id) in PropEntries(r, indexed, nodes)
  {
  }

  lemma CompEntryIn(r: Render, composite: map<Str, seq<Str>>, nodes: map<NodeID, Props>, id: NodeID, c: Str)
    requires id in nodes && c in composite && HasAll(composite[c], nodes[id])
    ensures CompKey(r, composite[c], nodes[id], id) in CompEntries(r, composite, nodes)
  {
  }

  /** The records agree but for one node. */
  ghost predicate AgreeOff(nodes: map<NodeID, Props>, nodes': map<NodeID, Props>, id: NodeID) {
    forall j :: j != id ==> (j in nodes <==> j in nodes') && (j in nodes && j in nodes' ==> nodes[j] == nodes'[j])
  }

  function PropsAt(nodes: map<NodeID, Props>, id: NodeID): Props {
    if id in nodes then nodes[id] else map[]
  }

  /** The entries of all records are those of one node plus those with another owner. */
  lemma PropEntriesSplit(r: Render, indexed: set<Str>, nodes: map<NodeID, Props>, id: NodeID, k: Str)
    ensures k in PropEntries(r, indexed, nodes) && KeyOwner(k) == id <==>
              k in PropKeys(r, indexed, id, PropsAt(nodes, id))
  {
    if k in PropEntries(r, indexed, nodes) && KeyOwner(k) == id {
      var j, p := PropEntryOwner(r, indexed, nodes, k);
    }
    if k in PropKeys(r, indexed, id, PropsAt(nodes, id)) {
      var p :| p in indexed && p in PropsAt(nodes, id) && k == PropKey(r, p, PropsAt(nodes, id)[p], id);
      IndexKeyOwner(PropText(p, r(PropsAt(nodes, id)[p])), id);
    }
  }

  lemma CompEntriesSplit(r: Render, composite: map<Str, seq<Str>>, nodes: map<NodeID, Props>, id: NodeID, k: Str)
    requires forall c :: c in composite ==> composite[c] != []
    ensures k in CompEntries(r, composite, nodes) && KeyOwner(k) == id <==>
              k in CompKeys(r, composite, id, PropsAt(nodes, id))
  {
    if k in CompEntries(r, composite, nodes) && KeyOwner(k) == id {
      var j, c := CompEntryOwner(r, composite, nodes, k);
    }
    if k in CompKeys(r, composite, id, PropsAt(nodes, id)) {
      var c :| c in composite && HasAll(composite[c], PropsAt(nodes, id)) &&
          k == CompKey(r, composite[c], PropsAt(nodes, id), id);
      CompKeyOwner(r, composite[c], PropsAt(nodes, id), id);
      assert composite[c][0] in composite[c];
    }
  }

  /** Entries of other nodes do not depend on this one's record. */
  lemma PropEntriesOff(r: Render, indexed: set<Str>, nodes: map<NodeID, Props>, nodes': map<NodeID, Props>, id: NodeID,
      k: Str)
    requires AgreeOff(nodes, nodes', id) && KeyOwner(k) != id && k in PropEntries(r, indexed, nodes)
    ensures k in PropEntries(r, indexed, nodes')
  {
    var j, p := PropEntryOwner(r, indexed, nodes, k);
    assert j in nodes' && nodes'[j] == nodes[j];
  }

  lemma CompEntriesOff(r: Render, composite: map<Str, seq<Str>>, nodes: map<NodeID, Props>, nodes': map<NodeID, Props>,
      id: NodeID, k: Str)
    requires AgreeOff(nodes, nodes', id) && KeyOwner(k) != id && k in CompEntries(r, composite, nodes)
    ensures k in CompEntries(r, composite, nodes')
  {
    var j, c := CompEntryOwner(r, composite, nodes, k);
    assert j in nodes' && nodes'[j] == nodes[j];
  }

  // ---- one record rewritten -------------------------------------------------------------------------

  /** The index is edited by the old and the new entries of one record. */
  lemma ReindexProps(r: Render, reg: Registry, sh: Shard, sh': Shard, id: NodeID, stale: set<Str>)
    requires PropsOk(r, reg, sh, stale) && AgreeOff(sh.nodes, sh'.nodes, id)
    requires sh'.propIdx ==
               EditSet(sh.propIdx,
                       SetEdit(PropKeys(r, reg.indexed, id, PropsAt(sh.nodes, id)),
                               PropKeys(r, reg.indexed, id, PropsAt(sh'.nodes, id))))
    ensures PropsOk(r, reg, sh', stale)
  {
    forall k | k in sh'.propIdx ensures k in PropEntries(r, reg.indexed, sh'.nodes) {
      PropEntriesSplit(r, reg.indexed, sh.nodes, id, k);
      PropEntriesSplit(r, reg.indexed, sh'.nodes, id, k);
      if KeyOwner(k) != id {
        PropEntriesOff(r, reg.indexed, sh.nodes, sh'.nodes, id, k);
      }
    }
    forall k | k in PropEntries(r, reg.indexed - stale, sh'.nodes) ensures k in sh'.propIdx {
      PropEntriesSplit(r, reg.indexed - stale, sh'.nodes, id, k);
      PropEntriesSplit(r, reg.indexed, sh.nodes, id, k);
      if KeyOwner(k) == id {
        FewerPropKeys(r, reg.indexed - stale, reg.indexed, id, PropsAt(sh'.nodes, id));
      } else {
        PropEntriesOff(r, reg.indexed - stale, sh'.nodes, sh.nodes, id, k);
      }
    }
  }

  lemma FewerPropKeys(r: Render, a: set<Str>, b: set<Str>, id: NodeID, props: Props)
    requires a <= b
    ensures PropKeys(r, a, id, props) <= PropKeys(r, b, id, props)
  {
  }

  lemma ReindexComps(r: Render, reg: Registry, sh: Shard, sh': Shard, id: NodeID, stale: set<Str>)
    requires CompsOk(r, reg, sh, stale) && AgreeOff(sh.nodes, sh'.nodes, id) && DefsOk(reg)
    requires sh'.compIdx ==
               EditSet(sh.compIdx,
                       SetEdit(CompKeys(r, reg.composite, id, PropsAt(sh.nodes, id)),
                               CompKeys(r, reg.composite, id, PropsAt(sh'.nodes, id))))
    ensures CompsOk(r, reg, sh', stale)
  {
    forall k | k in sh'.compIdx ensures k in CompEntries(r, reg.composite, sh'.nodes) {
      CompEntriesSplit(r, reg.composite, sh.nodes, id, k);
      CompEntriesSplit(r, reg.composite, sh'.nodes, id, k);
      if KeyOwner(k) != id {
        CompEntriesOff(r, reg.composite, sh.nodes, sh'.nodes, id, k);
      }
    }
    forall k | k in CompEntries(r, reg.composite - stale, sh'.nodes) ensures k in sh'.compIdx {
      CompEntriesSplit(r, reg.composite - stale, sh'.nodes, id, k);
      CompEntriesSplit(r, reg.composite, sh.nodes, id, k);
      if KeyOwner(k) == id {
        FewerCompKeys(r, reg.composite - stale, reg.composite, id, PropsAt(sh'.nodes, id));
      } else {
        CompEntriesOff(r, reg.composite - stale, sh'.nodes, sh.nodes, id, k);
      }
    }
  }

  lemma FewerCompKeys(r: Render, a: map<Str, seq<Str>>, b: map<Str, seq<Str>>, id: NodeID, props: Props)
    requires forall c :: c in a ==> c in b && b[c] == a[c]
    ensures CompKeys(r, a, id, props) <= CompKeys(r, b, id, props)
  {
  }

  /**
   Composite definitions are non-empty lists of NUL-free names, registered under their own
   key, none a prefix of another.
   */
  ghost predicate DefsOk(reg: Registry) {
    && (forall c {:trigger c in reg.composite} :: c in reg.composite ==>
        reg.composite[c] != [] && AllNulFree(reg.composite[c]) && c == DefKey(reg.composite[c]))
    && (forall c, d :: c in reg.composite && d in reg.composite && reg.composite[c] <= reg.composite[d] ==> c == d)
  }

  // ---- entries of the log ------------------------------------------------------------------------

  lemma PropOfIs(r: Render, reg: Registry, id: NodeID, props: Props)
    requires DefsOk(reg)
    ensures PropOf(r, reg, id, props) == PropKeys(r, reg.indexed, id, props) &&
            CompOf(r, reg, id, props) == CompKeys(r, reg.composite, id, props)
  {
    if props == map[] {
      forall c | c in reg.composite ensures !HasAll(reg.composite[c], props) {
        assert reg.composite[c][0] in reg.composite[c];
      }
      assert CompKeys(r, reg.composite, id, props) == {};
    }
  }

  ghost predicate IndexesOk(r: Render, reg: Registry, sh: Shard, staleP: set<Str>, staleC: set<Str>) {
    PropsOk(r, reg, sh, staleP) && CompsOk(r, reg, sh, staleC)
  }

  lemma ReindexKeeps(r: Render, reg: Registry, sh: Shard, sh': Shard, id: NodeID, staleP: set<Str>, staleC: set<Str>)
    requires IndexesOk(r, reg, sh, staleP, staleC) && DefsOk(reg) && AgreeOff(sh.nodes, sh'.nodes, id)
    requires sh'.propIdx ==
               EditSet(sh.propIdx,
                       SetEdit(PropOf(r, reg, id, PropsAt(sh.nodes, id)), PropOf(r, reg, id, PropsAt(sh'.nodes, id))))
    requires sh'.compIdx ==
               EditSet(sh.compIdx,
                       SetEdit(CompOf(r, reg, id, PropsAt(sh.nodes, id)), CompOf(r, reg, id, PropsAt(sh'.nodes, id))))
    ensures IndexesOk(r, reg, sh', staleP, staleC)
  {
    PropOfIs(r, reg, id, PropsAt(sh.nodes, id));
    PropOfIs(r, reg, id, PropsAt(sh'.nodes, id));
    ReindexProps(r, reg, sh, sh', id, staleP);
    ReindexComps(r, reg, sh, sh', id, staleC);
  }

  lemma RewriteKeeps(r: Render, reg: Registry, sh: Shard, sh': Shard, id: NodeID, props: Props, staleP: set<Str>,
      staleC: set<Str>)
    requires IndexesOk(r, reg, sh, staleP, staleC) && DefsOk(reg)
    requires var p := Rewrite(r, reg, id, PropsAt(sh.nodes, id), props);
             sh'.nodes == EditMap(sh.nodes, p.nodes) && sh'.propIdx == EditSet(sh.propIdx, p.propIdx) &&
                 sh'.compIdx == EditSet(sh.compIdx, p.compIdx)
    ensures IndexesOk(r, reg, sh', staleP, staleC)
  {
    PutOne(sh.nodes, id, props);
    ReindexKeeps(r, reg, sh, sh', id, staleP, staleC);
  }

  lemma DeleteKeeps(r: Render, reg: Registry, sh: Shard, id: NodeID, staleP: set<Str>, staleC: set<Str>)
    requires IndexesOk(r, reg, sh, staleP, staleC) && DefsOk(reg) && id in sh.nodes
    ensures IndexesOk(r, reg, Patched(sh, NodePatch(r, reg, sh, OpDeleteNode(id))), staleP, staleC)
  {
    var sh' := Patched(sh, NodePatch(r, reg, sh, OpDeleteNode(id)));
    DropOne(sh.nodes, id);
    assert PropOf(r, reg, id, map[]) == {} && CompOf(r, reg, id, map[]) == {};
    ReindexKeeps(r, reg, sh, sh', id, staleP, staleC);
  }

  lemma RelabelKeepsIndexes(r: Render, reg: Registry, sh: Shard, op: Op, staleP: set<Str>, staleC: set<Str>)
    requires IndexesOk(r, reg, sh, staleP, staleC) && (op.OpAddLabel? || op.OpRemoveLabel?)
    ensures IndexesOk(r, reg, Patched(sh, NodePatch(r, reg, sh, op)), staleP, staleC)
  {
    KeepAll(sh);
    var sh' := Patched(sh, NodePatch(r, reg, sh, op));
    assert (sh'.nodes, sh'.propIdx, sh'.compIdx) == (sh.nodes, sh.propIdx, sh.compIdx);
  }

  lemma StepKeepsIndexes(r: Render, reg: Registry, sh: Shard, op: Op, staleP: set<Str>, staleC: set<Str>)
    requires IsNodeOp(op) && IndexesOk(r, reg, sh, staleP, staleC) && DefsOk(reg) && FreshFor(sh, op)
    requires op.OpUpdateNode? || op.OpDeleteNode? ==> op.id in sh.nodes
    ensures IndexesOk(r, reg, Patched(sh, NodePatch(r, reg, sh, op)), staleP, staleC)
  {
    var sh' := Patched(sh, NodePatch(r, reg, sh, op));
    match op
    case OpAddNode(id, props) => RewriteKeeps(r, reg, sh, sh', id, props, staleP, staleC);
    case OpAddNodeWithLabels(id, names, props) => RewriteKeeps(r, reg, sh, sh', id, props, staleP, staleC);
    case OpUpdateNode(id, props) => RewriteKeeps(r, reg, sh, sh', id, sh.nodes[id] + props, staleP, staleC);
    case OpSetNodeProps(id, props) => RewriteKeeps(r, reg, sh, sh', id, props, staleP, staleC);
    case OpDeleteNode(id) => DeleteKeeps(r, reg, sh, id, staleP, staleC);
    case _ => RelabelKeepsIndexes(r, reg, sh, op, staleP, staleC);
  }

  /** A batch adds records and no entries: what was sound stays sound. */
  lemma BatchKeepsSound(r: Render, db: DB, list: seq<Props>, i: nat, staleP: set<Str>, staleC: set<Str>)
    requires RecordsOk(db) && db.nextNode + |list| < TWO64 && i < |db.shards| &&
             IndexesOk(r, db.reg, db.shards[i], staleP, staleC)
    ensures IndexesOk(r, db.reg, AddNodeBatch(db, list).db.shards[i], db.reg.indexed, db.reg.composite.Keys)
  {
    var sh, sh' := db.shards[i], AddNodeBatch(db, list).db.shards[i];
    BatchCall(db, list, i);
    assert RecordsAt(db, i);
    assert forall id :: id in sh.nodes ==> id in sh'.nodes && sh'.nodes[id] == sh.nodes[id];
    forall k | k in sh.propIdx ensures k in PropEntries(r, db.reg.indexed, sh'.nodes) {
      var id, p := PropEntryOwner(r, db.reg.indexed, sh.nodes, k);
    }
    forall k | k in sh.compIdx ensures k in CompEntries(r, db.reg.composite, sh'.nodes) {
      var id, c := CompEntryOwner(r, db.reg.composite, sh.nodes, k);
    }
    assert PropEntries(r, db.reg.indexed - db.reg.indexed, sh'.nodes) == {};
    assert CompEntries(r, db.reg.composite - db.reg.composite.Keys, sh'.nodes) == {};
  }

  // ---- definitions ------------------------------------------------------------------------------

  lemma CreateIndexKeeps(r: Render, reg: Registry, sh: Shard, p: Str, stale: set<Str>)
    requires PropsOk(r, reg, sh, stale)
    ensures PropsOk(r, reg.(indexed := reg.indexed + {p}), BuildProp(r, p, sh), stale - {p})
  {
    var sh', all := BuildProp(r, p, sh), reg.indexed + {p};
    forall k | k in sh'.propIdx ensures k in PropEntries(r, all, sh.nodes) {
      if k in sh.propIdx {
        var id, q := PropEntryOwner(r, reg.indexed, sh.nodes, k);
        PropEntryIn(r, all, sh.nodes, id, q);
      }
    }
    forall k | k in PropEntries(r, all - (stale - {p}), sh.nodes) ensures k in sh'.propIdx {
      var id, q := PropEntryOwner(r, all - (stale - {p}), sh.nodes, k);
      if q != p {
        PropEntryIn(r, reg.indexed - stale, sh.nodes, id, q);
      }
    }
  }

  /** Indexed names hold neither NUL nor ':'. */
  ghost predicate NamesOk(reg: Registry) {
    forall p :: p in reg.indexed ==> PlainName(p)
  }

  lemma NamePrefix(p: Str, q: Str, text: Str, id: NodeID)
    requires PlainName(p) && PlainName(q)
    ensures p + [COLON] <= IndexKey(PropText(q, text), id) <==> p == q
  {
    SeparatorSplits(COLON, p, q, text + [NUL] + EncodeID(id));
    assert IndexKey(PropText(q, text), id) == q + [COLON] + (text + [NUL] + EncodeID(id));
  }

  lemma DropIndexKeeps(r: Render, reg: Registry, sh: Shard, p: Str, stale: set<Str>)
    requires PropsOk(r, reg, sh, stale) && NamesOk(reg) && PlainName(p)
    ensures PropsOk(r, reg.(indexed := reg.indexed - {p}), ClearProp(p, sh), stale)
  {
    var sh' := ClearProp(p, sh);
    forall k | k in sh'.propIdx ensures k in PropEntries(r, reg.indexed - {p}, sh.nodes) {
      var id, q := PropEntryOwner(r, reg.indexed, sh.nodes, k);
      NamePrefix(p, q, r(sh.nodes[id][q]), id);
      PropEntryIn(r, reg.indexed - {p}, sh.nodes, id, q);
    }
    forall k | k in PropEntries(r, reg.indexed - {p} - stale, sh.nodes) ensures k in sh'.propIdx {
      var id, q := PropEntryOwner(r, reg.indexed - {p} - stale, sh.nodes, k);
      PropEntryIn(r, reg.indexed - stale, sh.nodes, id, q);
      NamePrefix(p, q, r(sh.nodes[id][q]), id);
    }
  }

  // ---- composite definitions ------------------------------------------------------------------------

  lemma {:induction false} DefKeyFields(def: seq<Str>)
    requires def != []
    ensures DefKey(def) + [NUL] == Fields(def)
  {
    if |def| > 1 {
      DefKeyFields(def[1..]);
      assert def[0] + [NUL] + DefKey(def[1..]) + [NUL] == def[0] + [NUL] + (DefKey(def[1..]) + [NUL]);
    } else {
      assert def[1..] == [];
    }
  }

  lemma {:induction false} FieldsInjective(a: seq<Str>, b: seq<Str>)
    requires AllNulFree(a) && AllNulFree(b) && Fields(a) == Fields(b)
    ensures a == b
  {
    if a != [] && b != [] {
      assert NulFree(a[0]) && NulFree(b[0]);
      SeparatorSplits(NUL, a[0], b[0], Fields(b[1..]));
      assert a[0] + [NUL] <= Fields(a);
      var n := |a[0]| + 1;
      assert Fields(a)[n..] == Fields(a[1..]) && Fields(b)[n..] == Fields(b[1..]);
      FieldsInjective(a[1..], b[1..]);
      assert a == [a[0]] + a[1..] && b == [b[0]] + b[1..];
    }
  }

  lemma DefKeyInjective(a: seq<Str>, b: seq<Str>)
    requires a != [] && b != [] && AllNulFree(a) && AllNulFree(b) && DefKey(a) == DefKey(b)
    ensures a == b
  {
    DefKeyFields(a);
    DefKeyFields(b);
    FieldsInjective(a, b);
  }

  /** A name list is apart from another if neither is a prefix of the other. */
  predicate Apart(a: seq<Str>, b: seq<Str>) {
    !(a <= b) && !(b <= a)
  }

  /** The entries of one definition never start like another's. */
  lemma ApartKeys(def: seq<Str>, other: seq<Str>, rest: Str)
    requires AllNulFree(def) && AllNulFree(other) && Apart(def, other)
    ensures !(Fields(def) <= Fields(other) + rest)
  {
    if |def| <= |other| {
      FieldsPrefix(def, other, rest);
    } else {
      var start := def[..|other|];
      assert def == start + def[|other|..];
      FieldsConcat(start, def[|other|..]);
      assert forall f :: f in start ==> f in def;
      FieldsPrefix(start, other, rest);
      assert start <= other ==> start == other;
      assert Fields(start) <= Fields(def);
    }
  }

  /** The definition is new or registered, and apart from all others. */
  ghost predicate Fits(reg: Registry, def: seq<Str>) {
    && def != [] && AllNulFree(def)
    && forall c {:trigger c in reg.composite} :: c in reg.composite && reg.composite[c] != def ==>
         Apart(def, reg.composite[c])
  }

  lemma OtherDefStays(reg: Registry, def: seq<Str>, c: Str)
    requires DefsOk(reg) && Fits(reg, def) && c in reg.composite
    ensures c == DefKey(def) <==> reg.composite[c] == def
  {
    if c == DefKey(def) {
      DefKeyInjective(def, reg.composite[c]);
    }
  }

  lemma CreateCompositeSound(r: Render, reg: Registry, sh: Shard, def: seq<Str>, k: Str)
    requires sh.compIdx <= CompEntries(r, reg.composite, sh.nodes) && DefsOk(reg) && Fits(reg, def) &&
             k in BuildComp(r, def, sh).compIdx
    ensures k in CompEntries(r, reg.composite[DefKey(def) := def], sh.nodes)
  {
    var all := reg.composite[DefKey(def) := def];
    if k in sh.compIdx {
      var id, c := CompEntryOwner(r, reg.composite, sh.nodes, k);
      OtherDefStays(reg, def, c);
      CompEntryIn(r, all, sh.nodes, id, c);
    } else {
      var id :| id in sh.nodes && HasAll(def, sh.nodes[id]) && k == CompKey(r, def, sh.nodes[id], id);
      CompEntryIn(r, all, sh.nodes, id, DefKey(def));
    }
  }

  lemma CreateCompositeComplete(r: Render, reg: Registry, sh: Shard, def: seq<Str>, stale: set<Str>, k: Str)
    requires CompEntries(r, reg.composite - stale, sh.nodes) <= sh.compIdx
    requires k in CompEntries(r, reg.composite[DefKey(def) := def] - (stale - {DefKey(def)}), sh.nodes)
    ensures k in BuildComp(r, def, sh).compIdx
  {
    var id, c := CompEntryOwner(r, reg.composite[DefKey(def) := def] - (stale - {DefKey(def)}), sh.nodes, k);
    if c != DefKey(def) {
      CompEntryIn(r, reg.composite - stale, sh.nodes, id, c);
    }
  }

  lemma CreateCompositeKeeps(r: Render, reg: Registry, sh: Shard, def: seq<Str>, stale: set<Str>)
    requires CompsOk(r, reg, sh, stale) && DefsOk(reg) && Fits(reg, def)
    ensures CompsOk(r, reg.(composite := reg.composite[DefKey(def) := def]), BuildComp(r, def, sh),
                    stale - {DefKey(def)})
  {
    forall k | k in BuildComp(r, def, sh).compIdx
      ensures k in CompEntries(r, reg.composite[DefKey(def) := def], sh.nodes)
    {
      CreateCompositeSound(r, reg, sh, def, k);
    }
    forall k | k in CompEntries(r, reg.composite[DefKey(def) := def] - (stale - {DefKey(def)}), sh.nodes)
      ensures k in BuildComp(r, def, sh).compIdx
    {
      CreateCompositeComplete(r, reg, sh, def, stale, k);
    }
  }

  lemma CreateDefsOk(reg: Registry, def: seq<Str>)
    requires DefsOk(reg) && Fits(reg, def)
    ensures DefsOk(reg.(composite := reg.composite[DefKey(def) := def]))
  {
    var all := reg.composite[DefKey(def) := def];
    forall c, d | c in all && d in all && all[c] <= all[d] ensures c == d {
      if c != DefKey(def) && d != DefKey(def) {
        assert reg.composite[c] <= reg.composite[d];
      }
    }
  }

  /** Exactly the dropped definition's entries start with its names. */
  lemma CompEntryStart(r: Render, reg: Registry, def: seq<Str>, c: Str, props: Props, id: NodeID)
    requires DefsOk(reg) && Fits(reg, def) && c in reg.composite && HasAll(reg.composite[c], props)
    ensures Fields(def) <= CompKey(r, reg.composite[c], props, id) <==> c == DefKey(def)
  {
    var other := reg.composite[c];
    var rest := Fields(Rendered(r, other, props)) + EncodeID(id);
    assert CompKey(r, other, props, id) == Fields(other) + rest;
    OtherDefStays(reg, def, c);
    if other != def {
      ApartKeys(def, other, rest);
    }
  }

  lemma DropCompositeSound(r: Render, reg: Registry, sh: Shard, def: seq<Str>, k: Str)
    requires sh.compIdx <= CompEntries(r, reg.composite, sh.nodes) && DefsOk(reg) && Fits(reg, def) &&
             k in ClearComp(def, sh).compIdx
    ensures k in CompEntries(r, reg.composite - {DefKey(def)}, sh.nodes)
  {
    var id, c := CompEntryOwner(r, reg.composite, sh.nodes, k);
    CompEntryStart(r, reg, def, c, sh.nodes[id], id);
    CompEntryIn(r, reg.composite - {DefKey(def)}, sh.nodes, id, c);
  }

  lemma DropCompositeComplete(r: Render, reg: Registry, sh: Shard, def: seq<Str>, stale: set<Str>, k: Str)
    requires CompEntries(r, reg.composite - stale, sh.nodes) <= sh.compIdx && DefsOk(reg) && Fits(reg, def)
    requires k in CompEntries(r, reg.composite - {DefKey(def)} - stale, sh.nodes)
    ensures k in ClearComp(def, sh).compIdx
  {
    var id, c := CompEntryOwner(r, reg.composite - {DefKey(def)} - stale, sh.nodes, k);
    CompEntryStart(r, reg, def, c, sh.nodes[id], id);
    CompEntryIn(r, reg.composite - stale, sh.nodes, id, c);
  }

  lemma DropCompositeKeeps(r: Render, reg: Registry, sh: Shard, def: seq<Str>, stale: set<Str>)
    requires CompsOk(r, reg, sh, stale) && DefsOk(reg) && Fits(reg, def)
    ensures CompsOk(r, reg.(composite := reg.composite - {DefKey(def)}), ClearComp(def, sh), stale)
  {
    forall k | k in ClearComp(def, sh).compIdx ensures k in CompEntries(r, reg.composite - {DefKey(def)}, sh.nodes) {
      DropCompositeSound(r, reg, sh, def, k);
    }
    forall k | k in CompEntries(r, reg.composite - {DefKey(def)} - stale, sh.nodes)
      ensures k in ClearComp(def, sh).compIdx
    {
      DropCompositeComplete(r, reg, sh, def, stale, k);
    }
  }

  // ---- calls --------------------------------------------------------------------------------------

  ghost predicate IndexesAt(r: Render, db: DB, i: nat, staleP: set<Str>, staleC: set<Str>)
    requires i < |db.shards|
  {
    IndexesOk(r, db.reg, db.shards[i], staleP, staleC)
  }

  ghost predicate AllIndexed(r: Render, db: DB, staleP: set<Str>, staleC: set<Str>) {
    && NamesOk(db.reg) && DefsOk(db.reg)
    && forall i {:trigger IndexesAt(r, db, i, staleP, staleC)} :: 0 <= i < |db.shards| ==>
         IndexesAt(r, db, i, staleP, staleC)
  }

  /** In every shard the indexes are sound, and complete but for the stale ones. */
  ghost predicate IndexInv(r: Render, db: DB, staleP: set<Str>, staleC: set<Str>) {
    RecordsOk(db) && AllIndexed(r, db, staleP, staleC)
  }

  /** Index names are plain; composite definitions are NUL-free and apart from the registered ones. */
  ghost predicate TidyCall(reg: Registry, call: Call) {
    match call
    case CreateIndexCall(p) => PlainName(p)
    case DropIndexCall(p) => PlainName(p)
    case CreateCompositeCall(names) => |names| < 2 || Fits(reg, Definition(names))
    case DropCompositeCall(names) => Fits(reg, Definition(names))
    case _ => true
  }

  /** A batch makes every index stale; building one makes it complete again. */
  ghost function StaleProps(reg: Registry, stale: set<Str>, call: Call): set<Str> {
    match call
    case AddNodeBatchCall(_) => reg.indexed
    case CreateIndexCall(p) => stale - {p}
    case _ => stale
  }

  ghost function StaleComps(reg: Registry, stale: set<Str>, call: Call): set<Str> {
    match call
    case AddNodeBatchCall(_) => reg.composite.Keys
    case CreateCompositeCall(names) => if |names| < 2 then stale else stale - {DefKey(Definition(names))}
    case _ => stale
  }

  lemma SideKeepsIndexes(r: Render, reg: Registry, a: Shard, b: Shard, staleP: set<Str>, staleC: set<Str>)
    requires NodeSide(a) == NodeSide(b) && IndexesOk(r, reg, a, staleP, staleC)
    ensures IndexesOk(r, reg, b, staleP, staleC)
  {
  }

  lemma NodeStepIndexes(r: Render, db: DB, db': DB, op: Op, staleP: set<Str>, staleC: set<Str>)
    requires IndexInv(r, db, staleP, staleC) && IsNodeOp(op) && StepsBy(r, db, db', op) && Named(db, db', op)
    ensures AllIndexed(r, db', staleP, staleC)
  {
    forall i | 0 <= i < |db'.shards|
      ensures IndexesAt(r, db', i, staleP, staleC)
    {
      assert IndexesAt(r, db, i, staleP, staleC) && RecordsAt(db, i);
      if i == db.Home(op.id) {
        StepKeepsIndexes(r, db.reg, db.shards[i], op, staleP, staleC);
        SideKeepsIndexes(r, db.reg, Patched(db.shards[i], NodePatch(r, db.reg, db.shards[i], op)), db'.shards[i],
                         staleP, staleC);
      } else {
        assert NodeSide(db'.shards[i]) == NodeSide(db.shards[i]);
        SideKeepsIndexes(r, db.reg, db.shards[i], db'.shards[i], staleP, staleC);
      }
    }
  }

  lemma SameSideIndexes(r: Render, db: DB, db': DB, staleP: set<Str>, staleC: set<Str>)
    requires IndexInv(r, db, staleP, staleC) && NodeSideSame(db, db')
    ensures AllIndexed(r, db', staleP, staleC)
  {
    forall i | 0 <= i < |db'.shards| ensures IndexesAt(r, db', i, staleP, staleC) {
      assert IndexesAt(r, db, i, staleP, staleC);
      assert NodeSide(db'.shards[i]) == NodeSide(db.shards[i]);
      SideKeepsIndexes(r, db.reg, db.shards[i], db'.shards[i], staleP, staleC);
    }
  }

  lemma CreateIndexCallIndexes(r: Render, db: DB, p: Str, staleP: set<Str>, staleC: set<Str>)
    requires IndexInv(r, db, staleP, staleC) && PlainName(p)
    ensures AllIndexed(r, CreateIndex(r, db, p).db, staleP - {p}, staleC)
  {
    var db' := CreateIndex(r, db, p).db;
    forall i | 0 <= i < |db'.shards| ensures IndexesAt(r, db', i, staleP - {p}, staleC) {
      assert IndexesAt(r, db, i, staleP, staleC);
      CreateIndexKeeps(r, db.reg, db.shards[i], p, staleP);
    }
  }

  lemma DropIndexCallIndexes(r: Render, db: DB, p: Str, staleP: set<Str>, staleC: set<Str>)
    requires IndexInv(r, db, staleP, staleC) && PlainName(p)
    ensures AllIndexed(r, DropIndex(db, p).db, staleP, staleC)
  {
    var db' := DropIndex(db, p).db;
    forall i | 0 <= i < |db'.shards| ensures IndexesAt(r, db', i, staleP, staleC) {
      assert IndexesAt(r, db, i, staleP, staleC);
      DropIndexKeeps(r, db.reg, db.shards[i], p, staleP);
    }
  }

  lemma CreateCompositeCallIndexes(r: Render, db: DB, names: seq<Str>, staleP: set<Str>, staleC: set<Str>)
    requires IndexInv(r, db, staleP, staleC) && |names| >= 2 && Fits(db.reg, Definition(names))
    ensures AllIndexed(r, CreateComposite(r, db, names).db, staleP, staleC - {DefKey(Definition(names))})
  {
    var db', def := CreateComposite(r, db, names).db, Definition(names);
    CreateDefsOk(db.reg, def);
    forall i | 0 <= i < |db'.shards| ensures IndexesAt(r, db', i, staleP, staleC - {DefKey(def)}) {
      assert IndexesAt(r, db, i, staleP, staleC);
      CreateCompositeKeeps(r, db.reg, db.shards[i], def, staleC);
    }
  }

  lemma DropCompositeCallIndexes(r: Render, db: DB, names: seq<Str>, staleP: set<Str>, staleC: set<Str>)
    requires IndexInv(r, db, staleP, staleC) && Fits(db.reg, Definition(names))
    ensures AllIndexed(r, DropComposite(db, names).db, staleP, staleC)
  {
    var db', def := DropComposite(db, names).db, Definition(names);
    forall i | 0 <= i < |db'.shards| ensures IndexesAt(r, db', i, staleP, staleC) {
      assert IndexesAt(r, db, i, staleP, staleC);
      DropCompositeKeeps(r, db.reg, db.shards[i], def, staleC);
    }
  }

  lemma ConstraintCallIndexes(r: Render, db: DB, c: Constraint, staleP: set<Str>, staleC: set<Str>)
    requires IndexInv(r, db, staleP, staleC)
    ensures forall db' :: db' == CreateUnique(r, db, c).db || db' == DropUnique(db, c).db ==>
              AllIndexed(r, db', staleP, staleC)
  {
    forall db' | db' == CreateUnique(r, db, c).db || db' == DropUnique(db, c).db
      ensures AllIndexed(r, db', staleP, staleC)
    {
      forall i | 0 <= i < |db'.shards| ensures IndexesAt(r, db', i, staleP, staleC) {
        assert IndexesAt(r, db, i, staleP, staleC);
        assert NodeSide(db'.shards[i]) == NodeSide(db.shards[i]);
        SideKeepsIndexes(r, db.reg, db.shards[i], db'.shards[i], staleP, staleC);
        SameDefs(r, db.reg, db'.reg, db'.shards[i], staleP, staleC);
      }
    }
  }

  lemma SameDefs(r: Render, reg: Registry, reg': Registry, sh: Shard, staleP: set<Str>, staleC: set<Str>)
    requires reg.indexed == reg'.indexed && reg.composite == reg'.composite && IndexesOk(r, reg, sh, staleP, staleC)
    ensures IndexesOk(r, reg', sh, staleP, staleC)
  {
  }

  lemma DefinitionCallIndexes(r: Render, db: DB, call: Call, staleP: set<Str>, staleC: set<Str>)
    requires IndexInv(r, db, staleP, staleC) && IsDefinition(call) && TidyCall(db.reg, call)
    ensures AllIndexed(r, Execute(r, db, call).db, StaleProps(db.reg, staleP, call), StaleComps(db.reg, staleC, call))
  {
    match call
    case CreateIndexCall(p) => CreateIndexCallIndexes(r, db, p, staleP, staleC);
    case DropIndexCall(p) => DropIndexCallIndexes(r, db, p, staleP, staleC);
    case CreateCompositeCall(names) =>
      if |names| >= 2 {
        CreateCompositeCallIndexes(r, db, names, staleP, staleC);
      }
    case DropCompositeCall(names) => DropCompositeCallIndexes(r, db, names, staleP, staleC);
    case CreateUniqueCall(c) => ConstraintCallIndexes(r, db, c, staleP, staleC);
    case DropUniqueCall(c) => ConstraintCallIndexes(r, db, c, staleP, staleC);
  }

  lemma BatchCallIndexes(r: Render, db: DB, list: seq<Props>, staleP: set<Str>, staleC: set<Str>)
    requires IndexInv(r, db, staleP, staleC) && db.nextNode + |list| < TWO64
    ensures AllIndexed(r, AddNodeBatch(db, list).db, db.reg.indexed, db.reg.composite.Keys)
  {
    var db' := AddNodeBatch(db, list).db;
    forall i | 0 <= i < |db'.shards| ensures IndexesAt(r, db', i, db.reg.indexed, db.reg.composite.Keys) {
      assert IndexesAt(r, db, i, staleP, staleC);
      BatchKeepsSound(r, db, list, i, staleP, staleC);
    }
  }

  /** Every call keeps the indexes sound, and complete but for the stale ones. */
  lemma CallKeepsIndexes(r: Render, db: DB, call: Call, staleP: set<Str>, staleC: set<Str>)
    requires Placed(db) && IndexInv(r, db, staleP, staleC) && Room(db, call) && TidyCall(db.reg, call)
    ensures IndexInv(r, Execute(r, db, call).db, StaleProps(db.reg, staleP, call), StaleComps(db.reg, staleC, call))
  {
    CallKeepsRecords(r, db, call);
    var db' := Execute(r, db, call).db;
    if IsNodeCall(call) {
      NodeCallSteps(r, db, call);
      NodeCallNames(r, db, call);
      if NodeOp(r, db, call).Some? {
        NodeStepIndexes(r, db, db', NodeOp(r, db, call).value, staleP, staleC);
      } else {
        SameSideIndexes(r, db, db', staleP, staleC);
      }
    } else if IsEdgeCall(call) {
      EdgeCallKeepsNodeSide(r, db, call);
      SameSideIndexes(r, db, db', staleP, staleC);
    } else if call.AddNodeBatchCall? {
      BatchCallIndexes(r, db, call.list, staleP, staleC);
    } else {
      DefinitionCallIndexes(r, db, call, staleP, staleC);
    }
  }

  // ---- runs -----------------------------------------------------------------------------------------

  /** Every call of the run is tidy when it is made. */
  ghost predicate TidyRun(r: Render, db: DB, calls: seq<Call>)
    requires db.Valid() && RoomFor(r, db, calls)
    decreases |calls|
  {
    calls == [] || (TidyCall(db.reg, calls[0]) && TidyRun(r, Execute(r, db, calls[0]).db, calls[1..]))
  }

  ghost predicate NoBatch(calls: seq<Call>) {
    forall c :: c in calls ==> !c.AddNodeBatchCall?
  }

  /**
   After any tidy run the indexes are sound and, for some set of stale ones, complete.
   Without AddNodeBatch nothing that was complete becomes stale.
   */
  lemma {:induction false} RunKeepsIndexes(r: Render, db: DB, calls: seq<Call>, staleP: set<Str>, staleC: set<Str>)
    returns (staleP': set<Str>, staleC': set<Str>)
    requires Placed(db) && IndexInv(r, db, staleP, staleC) && RoomFor(r, db, calls) && TidyRun(r, db, calls)
    ensures IndexInv(r, Run(r, db, calls).0, staleP', staleC')
    ensures NoBatch(calls) ==> staleP' <= staleP && staleC' <= staleC
    decreases |calls|
  {
    if calls == [] {
      return staleP, staleC;
    }
    CallKeepsPlaced(r, db, calls[0]);
    CallKeepsIndexes(r, db, calls[0], staleP, staleC);
    staleP', staleC' := RunKeepsIndexes(r, Execute(r, db, calls[0]).db, calls[1..],
      StaleProps(db.reg, staleP, calls[0]), StaleComps(db.reg, staleC, calls[0]));
  }

  /** Rebuilding an index after a batch makes it complete, whatever was stale before. */
  lemma RebuildCompletes(r: Render, db: DB, p: Str, staleP: set<Str>, staleC: set<Str>)
    requires IndexInv(r, db, staleP, staleC) && Placed(db) && PlainName(p)
    ensures IndexInv(r, CreateIndex(r, db, p).db, staleP - {p}, staleC) && p in CreateIndex(r, db, p).db.reg.indexed
  {
    CallKeepsIndexes(r, db, CreateIndexCall(p), staleP, staleC);
  }
}
