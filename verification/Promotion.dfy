/**
 A follower that starts taking writes. Replay maintains neither its ID counters nor its
 unique index, so its first write may overwrite a record, and it may accept a value that its
 own nodes carry.
 */
module Promotion {
  import opened Types
  import opened Store
  import opened Leader
  import opened Applier
  import Replay
  import opened Commute
  import opened NodeState
  import opened Unique
  import opened UniqueExact
  import Redelivery
  import opened Settling
  import opened Reconnect

  // ---- ID counters -------------------------------------------------------------------------------------

  /** Replayed data entries leave the ID counters where they were. */
  lemma ReplayKeepsCounters(r: Render, db: DB, log: seq<Entry>)
    requires db.Valid() && AllData(log) && ApplyLog(r, db, log).Some?
    ensures ApplyLog(r, db, log).value.nextNode == db.nextNode && ApplyLog(r, db, log).value.nextEdge == db.nextEdge
  {
    ByShard(r, db, log, 0);
  }

  /** Every stored record is still stored, with its properties. */
  ghost predicate RecordsStay(f: DB, f': DB)
    requires f.Valid() && f'.Valid()
  {
    forall id: NodeID {:trigger f.HasNode(id)} :: f.HasNode(id) ==>
      f'.HasNode(id) && f'.ShardOf(id).nodes[id] == f.ShardOf(id).nodes[id]
  }

  /**
   AddNode overwrites a record if and only if the next ID is stored (and the properties
   differ); the node counter goes up all the same.
   */
  lemma OverwritesExactly(r: Render, f: DB, props: Props)
    requires f.Valid() && f.nextNode + 1 < TWO64
    ensures var id, f' := f.nextNode + 1, AddNode(r, f, props).db;
            && f'.Valid() && f'.ShardOf(id).nodeCount == f.ShardOf(id).nodeCount + 1
            && (RecordsStay(f, f') <==> !f.HasNode(id) || f.ShardOf(id).nodes[id] == props)
            && (f'.ShardOf(id).nodes.Keys == f.ShardOf(id).nodes.Keys <==> f.HasNode(id))
  {
    var id, f' := f.nextNode + 1, AddNode(r, f, props).db;
    assert f'.ShardOf(id).nodes == f.ShardOf(id).nodes[id := props];
    assert id in f'.ShardOf(id).nodes.Keys;
    forall j: NodeID | f.HasNode(j) && j != id
      ensures f'.HasNode(j) && f'.ShardOf(j).nodes[j] == f.ShardOf(j).nodes[j]
    {
      assert f.Home(j) != f.Home(id) ==> f'.ShardOf(j) == f.ShardOf(j);
    }
  }

  /** A follower that has replayed node 1 and is then promoted writes its first node over it. */
  lemma PromotedOverwrites(r: Render, p: Props, q: Props)
    requires p != q
    ensures var f := ApplyAddNode(r, NewDB(1), 1, p);
            && f.Valid() && f.nextNode == 0 && f.HasNode(1)
            && !RecordsStay(f, AddNode(r, f, q).db) && AddNode(r, f, q).db.shards[0].nodes == map[1 := q]
            && AddNode(r, f, q).db.shards[0].nodeCount == 2
  {
    var f := ApplyAddNode(r, NewDB(1), 1, p);
    assert f.shards[0].nodes == map[1 := p];
    OverwritesExactly(r, f, q);
    assert AddNode(r, f, q).db.shards[0].nodes == map[1 := p][1 := q];
  }

  /** The node counter as opening a shard recovers it: past the highest stored ID. */
  ghost predicate Recovered(sh: Shard, next: nat, next': nat) {
    if sh.nodes == map[] then next' == next
    else exists top: NodeID :: top in sh.nodes && (forall id :: id in sh.nodes ==> id <= top) &&
           next' == if top >= next then top + 1 else next
  }

  /** With one shard no write after a reopen overwrites a record. */
  lemma ReopenedOverwritesNothing(r: Render, f: DB, next: nat, props: Props)
    requires f.Valid() && |f.shards| == 1 && next + 1 < TWO64 && Recovered(f.shards[0], f.nextNode, next)
    ensures var f1 := f.(nextNode := next); f1.Valid() && RecordsStay(f1, AddNode(r, f1, props).db)
  {
    OverwritesExactly(r, f.(nextNode := next), props);
  }

  // ---- the unique index --------------------------------------------------------------------------------

  /**
   The leader creates a constraint and adds a labelled node with a value. The follower
   replays both and is reopened; the leader then refuses the value to another node, the
   follower takes it, under the new ID 3.
   */
  lemma PromotedAccepts(r: Render, c: Constraint, v: Value)
    ensures
      var props := map[c.prop := v];
      var l := AddNodeWithLabels(r, Start(1, c), [c.name], props).db;
      var f := ApplyAddNodeWithLabels(r, ApplyCreateUnique(r, NewDB(1), c), 1, [c.name], props);
      var f1 := f.(nextNode := 2);
      && l.Valid() && l.nextNode == 1 && Carries(r, c, l.shards[0], 1, r(v))
      && !AddNodeWithLabels(r, l, [c.name], props).ok
      && f.Valid() && f.nextNode == 0 && Recovered(f.shards[0], 0, 2)
      && var o := AddNodeWithLabels(r, f1, [c.name], props);
         o.ok && o.db.Valid() && Carries(r, c, o.db.shards[0], 1, r(v)) && Carries(r, c, o.db.shards[0], 3, r(v))
  {
    var props := map[c.prop := v];
    var l := CarrierAdded(r, c, v);
    AddRefusedExactly(r, l, [c.name], props);
    assert Carries(r, l.reg.unique[RegistryKey(c)], l.ShardOf(2), 1, r(v));
    assert Taken(r, l.reg, l.ShardOf(2), [c.name], props, 0);
    ReplayedStart(r, c);
    ReplayedCarrier(r, c, props);
    SecondCarrier(r, c, v);
  }

  lemma ReplayedCarrier(r: Render, c: Constraint, props: Props)
    ensures var f := ApplyAddNodeWithLabels(r, Start(1, c), 1, [c.name], props);
            && f.Valid() && f.nextNode == 0 && f.shards[0].nodes == map[1 := props]
            && f.shards[0].labels == map[1 := [c.name]]
            && f.shards[0].uniqIdx == map[] && |f.shards| == 1 && Recovered(f.shards[0], 0, 2)
  {
    var f := ApplyAddNodeWithLabels(r, Start(1, c), 1, [c.name], props);
    assert f.shards[0].nodes == map[1 := props] && 1 in f.shards[0].nodes;
    assert f.shards[0].labels == map[1 := [c.name]];
  }

  lemma SecondCarrier(r: Render, c: Constraint, v: Value)
    ensures var props := map[c.prop := v];
            var f := ApplyAddNodeWithLabels(r, Start(1, c), 1, [c.name], props).(nextNode := 2);
            && f.Valid()
            && var o := AddNodeWithLabels(r, f, [c.name], props);
               o.ok && o.db.Valid() && Carries(r, c, o.db.shards[0], 1, r(v)) && Carries(r, c, o.db.shards[0], 3, r(v))
  {
    ReplayedCarrier(r, c, map[c.prop := v]);
  }

  lemma ReplayedStart(r: Render, c: Constraint)
    ensures ApplyCreateUnique(r, NewDB(1), c) == Start(1, c)
  {
    var db := NewDB(1);
    StartIsReached(r, 1, c);
    assert db.shards[0] == EMPTY && !Duplicated(r, c, db);
    Replay.UniqueRebuilt(r, db, c);
  }

  // ---- when the replayed index is enough -----------------------------------------------------------------

  /** The entry gives no node a constrained value. */
  predicate GivesNothing(reg: Registry, op: Op) {
    match op
    case OpAddNodeWithLabels(_, names, props) => forall k :: k in reg.unique ==>
        reg.unique[k].name !in names || reg.unique[k].prop !in props
    case OpAddLabel(_, names) => forall k :: k in reg.unique ==> reg.unique[k].name !in names
    case OpUpdateNode(_, props) => forall k :: k in reg.unique ==> reg.unique[k].prop !in props
    case OpSetNodeProps(_, props) => forall k :: k in reg.unique ==> reg.unique[k].prop !in props
    case _ => true
  }

  ghost predicate Bears(sh: Shard, id: NodeID, d: Constraint, v: Value) {
    Held(sh, id, d.name) && id in sh.nodes && d.prop in sh.nodes[id] && sh.nodes[id][d.prop] == v
  }

  /** A node's stored property after an entry that gives nothing is the one before. */
  lemma ValueBack(c: Place, sh: Shard, op: Op, id: NodeID, p: Str)
    requires c.Valid() && IsData(op) && Ready(c, sh, op) && id in sh.nodes && id in Go(c, sh, op).nodes &&
             p in Go(c, sh, op).nodes[id]
    requires Fresh(c, sh, op) && (op.OpUpdateNode? || op.OpSetNodeProps? ==> p !in op.props) && id % c.n == c.i
    ensures p in sh.nodes[id] && sh.nodes[id][p] == Go(c, sh, op).nodes[id][p]
  {
    NodesStep(c, sh, op);
    if !op.OpUpdateNode? {
      ValueUntouched(c, sh, op, id);
    }
  }

  lemma ValueUntouched(c: Place, sh: Shard, op: Op, id: NodeID)
    requires c.Valid() && id in sh.nodes && Fresh(c, sh, op) && !op.OpUpdateNode? && id % c.n == c.i
    ensures id in NodesEdit(c, op).put ==> op.OpSetNodeProps? && id == op.id && NodesEdit(c, op).put[id] == op.props
  {
    if op.OpAddNodeBatch? {
      Redelivery.NodeBatchStores(c.n, c.i, op.nodes, id);
      assert Redelivery.Lists(op.nodes, id) ==> id in NodesOf(op);
    }
  }

  lemma BearsBack(c: Place, sh: Shard, op: Op, id: NodeID, k: Str, v: Value)
    requires c.Valid() && IsData(op) && Ready(c, sh, op) && Fresh(c, sh, op) && LabelsOn(sh) && GivesNothing(c.reg, op)
    requires k in c.reg.unique && Bears(Go(c, sh, op), id, c.reg.unique[k], v) && id % c.n == c.i
    ensures Bears(sh, id, c.reg.unique[k], v)
  {
    var d := c.reg.unique[k];
    HeldStep(c, sh, op, id, d.name);
    assert Held(sh, id, d.name) by {
      if Here(c, op) && op.id == id && op.OpAddNodeWithLabels? && op.names != [] {
        NodesStep(c, sh, op);
      }
    }
    ValueBack(c, sh, op, id, d.prop);
  }

  ghost predicate AtHome(sh: Shard, c: Place)
    requires c.Valid()
  {
    forall id :: id in sh.nodes ==> id % c.n == c.i
  }

  lemma StaysHome(c: Place, sh: Shard, op: Op)
    requires c.Valid() && IsData(op) && Ready(c, sh, op) && AtHome(sh, c)
    ensures AtHome(Go(c, sh, op), c)
  {
    NodesStep(c, sh, op);
    PutsAtHome(c, op);
  }

  lemma PutsAtHome(c: Place, op: Op)
    requires c.Valid()
    ensures forall id :: id in NodesEdit(c, op).put ==> id % c.n == c.i
  {
    forall id | id in NodesEdit(c, op).put ensures id % c.n == c.i {
      if op.OpAddNodeBatch? {
        Redelivery.NodeBatchStores(c.n, c.i, op.nodes, id);
      }
    }
  }

  lemma CoveredStays(c: Place, sh: Shard, op: Op)
    requires c.Valid() && IsData(op) && Ready(c, sh, op) && Fresh(c, sh, op) && LabelsOn(sh) && AtHome(sh, c)
    requires GivesNothing(c.reg, op) && Covered(c.r, c.reg, sh)
    ensures Covered(c.r, c.reg, Go(c, sh, op))
  {
    var sh' := Go(c, sh, op);
    StaysHome(c, sh, op);
    forall id | id in sh'.nodes ensures OwnsAll(c.r, c.reg, sh', id) {
      forall key | key in UniqueKeys(c.r, c.reg, Labels(sh', id), sh'.nodes[id])
        ensures key in sh'.uniqIdx && sh'.uniqIdx[key] == id
      {
        var k := KeyFrom(c.r, c.reg, key, Labels(sh', id), sh'.nodes[id]);
        var d := c.reg.unique[k];
        BearsBack(c, sh, op, id, k, sh'.nodes[id][d.prop]);
        assert OwnsAll(c.r, c.reg, sh, id);
        KeyIn(c.r, c.reg, k, Labels(sh, id), sh.nodes[id]);
      }
    }
  }

  ghost predicate Guarded(c: Place, sh: Shard)
    requires c.Valid()
  {
    LabelsOn(sh) && AtHome(sh, c) && Covered(c.r, c.reg, sh)
  }

  /**
   A follower whose unique index covers its carriers keeps it covering them through every
   accepted log of entries that give no node a constrained value.
   */
  lemma {:induction false} StaysGuarded(r: Render, db: DB, log: seq<Entry>, i: nat)
    requires db.Valid() && AllData(log) && NewNodes(r, db, log) && ApplyLog(r, db, log).Some? && i < |db.shards|
    requires (forall j {:trigger log[j]} :: 0 <= j < |log| ==> GivesNothing(db.reg, log[j].op)) &&
             Guarded(PlaceAt(r, db, i), db.shards[i])
    ensures var e := ApplyLog(r, db, log).value;
            e.Valid() && |e.shards| == |db.shards| && e.reg == db.reg && Guarded(PlaceAt(r, e, i), e.shards[i])
    decreases |log|
  {
    if log != [] {
      var c, op, rest := PlaceAt(r, db, i), log[0].op, log[1..];
      assert IsData(op);
      ApplyIsSpread(r, db, op);
      ReadyAt(r, db, op, i);
      FreshHere(r, db, op, i);
      LabelsOnKept(c, db.shards[i], op);
      StaysHome(c, db.shards[i], op);
      CoveredStays(c, db.shards[i], op);
      forall j {:trigger rest[j]} | 0 <= j < |rest| ensures GivesNothing(db.reg, rest[j].op) {
        assert rest[j] == log[j + 1];
      }
      StaysGuarded(r, Spread(r, db, op), rest, i);
    }
  }
}
