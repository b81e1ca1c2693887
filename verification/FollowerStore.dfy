/**
 The follower as it runs: an entry decoded, a transaction changed by loops and committed,
 the applied LSN advanced. Each method ends in the state the functions of Applier give.
 */
module FollowerStore {
  import opened Types
  import opened Keys
  import opened Store
  import L = Leader
  import A = Applier
  import opened Transaction
  import Batches
  import D = Definitions
  import U = UniqueBuild

  class Follower {
    const r: Render
    var shards: seq<Shard>
    var reg: Registry
    var appliedLSN: nat

    ghost predicate Valid()
      reads this
    {
      |shards| > 0
    }

    /** The follower hands out no IDs. */
    ghost function View(): DB
      reads this
    {
      DB(shards, 0, 0, reg)
    }

    constructor (r: Render, shards: seq<Shard>, reg: Registry, lsn: nat)
      requires |shards| > 0
      ensures Valid() && this.r == r && this.shards == shards && this.reg == reg && appliedLSN == lsn
    {
      this.r, this.shards, this.reg, this.appliedLSN := r, shards, reg, lsn;
    }

    // ---- nodes ----------------------------------------------------------------------------------------

    method ApplyAddNode(id: NodeID, props: Props)
      requires Valid()
      modifies this`shards
      ensures Valid() && View() == A.ApplyAddNode(r, old(View()), id, props)
    {
      var i := id % |shards|;
      var tx := new Tx(shards[i]);
      tx.sh := tx.sh.(nodes := tx.sh.nodes[id := props]);
      tx.IndexNodeProps(r, reg, id, props);
      shards := shards[i := tx.sh.(nodeCount := tx.sh.nodeCount + 1)];
    }

    method ApplyAddNodeBatch(nodes: seq<(NodeID, Props)>)
      requires Valid()
      modifies this`shards
      ensures Valid() && View() == L.PutNodeBatch(old(View()), nodes)
    {
      shards := Batches.WriteNodeBatch(shards, nodes);
      Batches.NodeBatchWritten(old(View()), nodes, shards);
    }

    method ApplyUpdateNode(id: NodeID, props: Props) returns (ok: bool)
      requires Valid()
      modifies this`shards
      ensures Valid() && ok == A.ApplyUpdateNode(r, old(View()), id, props).Some?
      ensures View() == if ok then A.ApplyUpdateNode(r, old(View()), id, props).value else old(View())
    {
      var i := id % |shards|;
      var tx := new Tx(shards[i]);
      if id !in tx.sh.nodes {
        return false;
      }
      var was := tx.sh.nodes[id];
      tx.UnindexNodeProps(r, reg, id, was);
      tx.sh := tx.sh.(nodes := tx.sh.nodes[id := was + props]);
      tx.IndexNodeProps(r, reg, id, was + props);
      shards := shards[i := tx.sh];
      return true;
    }

    method ApplySetNodeProps(id: NodeID, props: Props)
      requires Valid()
      modifies this`shards
      ensures Valid() && View() == A.ApplySetNodeProps(r, old(View()), id, props)
    {
      var i := id % |shards|;
      var tx := new Tx(shards[i]);
      if id in tx.sh.nodes {
        tx.UnindexNodeProps(r, reg, id, tx.sh.nodes[id]);
      }
      tx.sh := tx.sh.(nodes := tx.sh.nodes[id := props]);
      tx.IndexNodeProps(r, reg, id, props);
      shards := shards[i := tx.sh];
    }

    /** A missing node leaves the buckets alone, but the counter still goes down. */
    method ApplyDeleteNode(id: NodeID)
      requires Valid()
      modifies this`shards
      ensures Valid() && View() == A.ApplyDeleteNode(r, old(View()), id)
    {
      var i := id % |shards|;
      var tx := new Tx(shards[i]);
      if id in tx.sh.nodes {
        tx.UnindexNodeProps(r, reg, id, tx.sh.nodes[id]);
        var names := Labels(tx.sh, id);
        tx.UnindexLabels(names, id);
        if names != [] {
          tx.sh := tx.sh.(labels := tx.sh.labels - {id});
        }
        tx.sh := tx.sh.(nodes := tx.sh.nodes - {id});
      }
      shards := shards[i := tx.sh.(nodeCount := tx.sh.nodeCount - 1)];
    }

    // ---- labels -----------------------------------------------------------------------------------------

    method ApplyAddNodeWithLabels(id: NodeID, names: seq<Str>, props: Props)
      requires Valid()
      modifies this`shards
      ensures Valid() && View() == A.ApplyAddNodeWithLabels(r, old(View()), id, names, props)
    {
      var i := id % |shards|;
      var tx := new Tx(shards[i]);
      tx.sh := tx.sh.(nodes := tx.sh.nodes[id := props]);
      tx.IndexNodeProps(r, reg, id, props);
      if names != [] {
        tx.sh := tx.sh.(labels := tx.sh.labels[id := names]);
        tx.IndexLabels(names, id);
      }
      shards := shards[i := tx.sh.(nodeCount := tx.sh.nodeCount + 1)];
    }

    method ApplyAddLabel(id: NodeID, names: seq<Str>) returns (ok: bool)
      requires Valid()
      modifies this`shards
      ensures Valid() && ok == A.ApplyAddLabel(old(View()), id, names).Some?
      ensures View() == if ok then A.ApplyAddLabel(old(View()), id, names).value else old(View())
    {
      var i := id % |shards|;
      var tx := new Tx(shards[i]);
      if id !in tx.sh.nodes {
        return false;
      }
      var existing := Labels(tx.sh, id);
      var added := MissingLabels(existing, names);
      if added != [] {
        tx.sh := tx.sh.(labels := tx.sh.labels[id := existing + added]);
        tx.IndexLabels(added, id);
        shards := shards[i := tx.sh];
      }
      return true;
    }

    method ApplyRemoveLabel(id: NodeID, names: seq<Str>)
      requires Valid()
      modifies this`shards
      ensures Valid() && View() == A.ApplyRemoveLabel(old(View()), id, names)
    {
      var i := id % |shards|;
      var tx := new Tx(shards[i]);
      if id in tx.sh.nodes {
        var kept := RemainingLabels(Labels(tx.sh, id), names);
        if kept == [] {
          tx.sh := tx.sh.(labels := tx.sh.labels - {id});
        } else {
          tx.sh := tx.sh.(labels := tx.sh.labels[id := kept]);
        }
        tx.UnindexLabels(names, id);
        shards := shards[i := tx.sh];
      }
    }

    // ---- edges ------------------------------------------------------------------------------------------

    method ApplyAddEdge(e: Edge)
      requires Valid()
      modifies this`shards
      ensures Valid() && |shards| == old(|shards|) && View() == L.WriteEdge(old(View()), e)
    {
      var i, j := e.from % |shards|, e.to % |shards|;
      var tx := new Tx(shards[i]);
      tx.PutOutgoing(e);
      if i == j {
        tx.PutIncomingEntry(e);
        shards := shards[i := tx.sh.(edgeCount := tx.sh.edgeCount + 1)];
      } else {
        shards := shards[i := tx.sh.(edgeCount := tx.sh.edgeCount + 1)];
        var tx2 := new Tx(shards[j]);
        tx2.PutIncomingEntry(e);
        shards := shards[j := tx2.sh];
      }
    }

    /** Edge by edge. */
    method ApplyAddEdgeBatch(es: seq<Edge>)
      requires Valid()
      modifies this`shards
      ensures Valid() && View() == A.ApplyAddEdges(old(View()), es)
    {
      for k := 0 to |es|
        invariant Valid() && View() == A.ApplyAddEdges(old(View()), es[..k])
      {
        assert es[..k + 1][..k] == es[..k];
        ApplyAddEdge(es[k]);
      }
      assert es[..|es|] == es;
    }

    method ApplyDeleteEdge(eid: EdgeID, source: NodeID, target: NodeID, name: Str)
      requires Valid()
      modifies this`shards
      ensures Valid() && View() == A.ApplyDeleteEdge(old(View()), eid, source, target, name)
    {
      var e := Edge(eid, source, target, name, map[]);
      var i, j := source % |shards|, target % |shards|;
      var tx := new Tx(shards[i]);
      tx.DeleteOutgoing(e);
      shards := shards[i := tx.sh.(edgeCount := tx.sh.edgeCount - 1)];
      var tx2 := new Tx(shards[j]);
      tx2.DeleteIncomingEntry(e);
      shards := shards[j := tx2.sh];
    }

    method ApplyUpdateEdge(eid: EdgeID, source: NodeID, props: Props) returns (ok: bool)
      requires Valid()
      modifies this`shards
      ensures Valid() && ok == A.ApplyUpdateEdge(old(View()), eid, source, props).Some?
      ensures View() == if ok then A.ApplyUpdateEdge(old(View()), eid, source, props).value else old(View())
    {
      var i := source % |shards|;
      var tx := new Tx(shards[i]);
      if eid !in tx.sh.edges {
        return false;
      }
      var e := tx.sh.edges[eid];
      tx.sh := tx.sh.(edges := tx.sh.edges[eid := e.(props := e.props + props)]);
      shards := shards[i := tx.sh];
      return true;
    }

    // ---- definitions ------------------------------------------------------------------------------------

    method ApplyDefinition(op: Op)
      requires Valid() &&
               (op.OpCreateIndex? || op.OpDropIndex? || op.OpCreateComposite? || op.OpDropComposite? ||
                op.OpDropUnique?)
      modifies this`shards, this`reg
      ensures Valid() && A.ApplyOp(r, old(View()), op) == Some(View())
    {
      match op
      case OpCreateIndex(p) =>
        shards := D.CreateIndexAll(r, p, shards);
        D.UpToAll(old(View()), shards, sh => BuildProp(r, p, sh));
        reg := reg.(indexed := reg.indexed + {p});
      case OpDropIndex(p) =>
        shards := D.DropIndexAll(p, shards);
        D.UpToAll(old(View()), shards, sh => ClearProp(p, sh));
        reg := reg.(indexed := reg.indexed - {p});
      case OpCreateComposite(names) =>
        var def := L.Definition(names);
        shards := D.CreateCompositeAll(r, def, shards);
        D.UpToAll(old(View()), shards, sh => BuildComp(r, def, sh));
        reg := reg.(composite := reg.composite[L.DefKey(def) := def]);
      case OpDropComposite(names) =>
        var def := L.Definition(names);
        shards := D.DropCompositeAll(def, shards);
        D.UpToAll(old(View()), shards, sh => ClearComp(def, sh));
        reg := reg.(composite := reg.composite - {L.DefKey(def)});
      case OpDropUnique(c) =>
        if RegistryKey(c) in reg.unique {
          shards := D.DropUniqueAll(c, shards);
          D.UpToAll(old(View()), shards, sh => ClearUnique(c, sh));
          reg := reg.(unique := reg.unique - {RegistryKey(c)});
        }
    }

    /** The unique index is rebuilt from the follower's own records, a later value overwriting an earlier one. */
    method ApplyCreateUnique(c: Constraint)
      requires Valid()
      modifies this`shards, this`reg
      ensures Valid() && View() == A.ApplyCreateUnique(r, old(View()), c)
    {
      if RegistryKey(c) in reg.unique {
        return;
      }
      ghost var db := View();
      var seen := U.ScanOverwriting(r, c, shards);
      shards := U.WriteEntries(c, shards, seen);
      reg := reg.(unique := reg.unique[RegistryKey(c) := c]);
      ghost var spec := A.ApplyCreateUnique(r, db, c);
      forall i | 0 <= i < |shards| ensures shards[i] == spec.shards[i] {
        U.EntriesAre(shards[i], db.shards[i], c, seen, |db.shards|, i);
      }
      assert shards == spec.shards;
    }

    // ---- dispatch ---------------------------------------------------------------------------------------

    /** applyOp. */
    method ApplyOp(op: Op) returns (ok: bool)
      requires Valid()
      modifies this`shards, this`reg
      ensures Valid() && ok == A.ApplyOp(r, old(View()), op).Some?
      ensures View() == if ok then A.ApplyOp(r, old(View()), op).value else old(View())
    {
      if op.OpCreateUnique? {
        ApplyCreateUnique(op.constraint);
        return true;
      }
      ok := ApplyOther(op);
    }

    method ApplyOther(op: Op) returns (ok: bool)
      requires Valid() && !op.OpCreateUnique?
      modifies this`shards, this`reg
      ensures Valid() && ok == A.ApplyOp(r, old(View()), op).Some?
      ensures View() == if ok then A.ApplyOp(r, old(View()), op).value else old(View())
    {
      ok := true;
      match op
      case OpAddNode(id, props) => ApplyAddNode(id, props);
      case OpAddNodeBatch(nodes) => ApplyAddNodeBatch(nodes);
      case OpUpdateNode(id, props) => ok := ApplyUpdateNode(id, props);
      case OpSetNodeProps(id, props) => ApplySetNodeProps(id, props);
      case OpDeleteNode(id) => ApplyDeleteNode(id);
      case OpAddEdge(e) => ApplyAddEdge(e);
      case OpAddEdgeBatch(es) => ApplyAddEdgeBatch(es);
      case OpDeleteEdge(eid, source, target, name) => ApplyDeleteEdge(eid, source, target, name);
      case OpUpdateEdge(eid, source, props) => ok := ApplyUpdateEdge(eid, source, props);
      case OpAddNodeWithLabels(id, names, props) => ApplyAddNodeWithLabels(id, names, props);
      case OpAddLabel(id, names) => ok := ApplyAddLabel(id, names);
      case OpRemoveLabel(id, names) => ApplyRemoveLabel(id, names);
      case OpCreateIndex(_) => ApplyDefinition(op);
      case OpDropIndex(_) => ApplyDefinition(op);
      case OpCreateComposite(_) => ApplyDefinition(op);
      case OpDropComposite(_) => ApplyDefinition(op);
      case OpDropUnique(_) => ApplyDefinition(op);
    }

    /** Apply: old entries are skipped; an error leaves buckets and LSN; success advances the LSN. */
    method Apply(lsn: nat, op: Op) returns (ok: bool)
      requires Valid()
      modifies this
      ensures Valid() && A.Follower(View(), appliedLSN) == A.Apply(r, A.Follower(old(View()), old(appliedLSN)), lsn, op)
      ensures ok <==> lsn <= old(appliedLSN) || A.ApplyOp(r, old(View()), op).Some?
    {
      if lsn <= appliedLSN {
        return true;
      }
      ok := ApplyOp(op);
      if ok {
        appliedLSN := lsn;
      }
    }
  }
}
