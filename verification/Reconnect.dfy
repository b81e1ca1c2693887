/**
 A follower that reconnects behind its own progress: the leader's log, a stretch of which
 arrives a second time. What is accepted, what ends as on the leader, and what does not.
 */
module Reconnect {
  import opened Types
  import opened Store
  import opened Leader
  import opened Applier
  import opened Replay
  import opened Commute
  import opened NodeState
  import I = Indexes
  import opened Reapply
  import opened Redelivery
  import opened Settling
  import opened LabelOrder

  // ---- all shards -------------------------------------------------------------------------------------

  function PlaceAt(r: Render, db: DB, i: nat): (c: Place)
    requires i < |db.shards|
    ensures c.Valid()
  {
    Place(r, db.reg, |db.shards|, i)
  }

  ghost predicate SoundStore(r: Render, db: DB) {
    db.Valid() && forall i {:trigger PlaceAt(r, db, i)} :: 0 <= i < |db.shards| ==>
        Sound(PlaceAt(r, db, i), db.shards[i])
  }

  /** Adding entries bring nodes that are not stored when their turn comes. */
  ghost predicate NewNodes(r: Render, db: DB, log: seq<Entry>)
    requires db.Valid() && AllData(log)
    decreases |log|
  {
    log == [] || ((forall id :: id in Created(log[0].op) ==> !db.HasNode(id)) &&
                  NewNodes(r, Spread(r, db, log[0].op), log[1..]))
  }

  lemma ReadyAt(r: Render, db: DB, op: Op, i: nat)
    requires db.Valid() && i < |db.shards| && IsData(op)
    ensures Applicable(db, op) ==> Ready(PlaceAt(r, db, i), db.shards[i], op)
    ensures Spread(r, db, op).shards[i] == Go(PlaceAt(r, db, i), db.shards[i], op) &&
            PlaceAt(r, Spread(r, db, op), i) == PlaceAt(r, db, i)
  {
  }

  /** An accepted log takes every shard through its own steps. */
  lemma {:induction false} ByShard(r: Render, db: DB, log: seq<Entry>, i: nat)
    requires db.Valid() && AllData(log) && i < |db.shards| && ApplyLog(r, db, log).Some?
    ensures var e, c := ApplyLog(r, db, log).value, PlaceAt(r, db, i);
            && e.Valid() && |e.shards| == |db.shards| && e == db.(shards := e.shards)
            && ReadyAll(c, db.shards[i], log) && e.shards[i] == GoAll(c, db.shards[i], log)
    decreases |log|
  {
    if log != [] {
      ApplyIsSpread(r, db, log[0].op);
      ReadyAt(r, db, log[0].op, i);
      ByShard(r, Spread(r, db, log[0].op), log[1..], i);
    }
  }

  lemma {:induction false} FreshByShard(r: Render, db: DB, log: seq<Entry>, i: nat)
    requires db.Valid() && AllData(log) && i < |db.shards| && NewNodes(r, db, log)
    ensures FreshAll(PlaceAt(r, db, i), db.shards[i], log)
    decreases |log|
  {
    if log != [] {
      var c, op := PlaceAt(r, db, i), log[0].op;
      ReadyAt(r, db, op, i);
      assert Fresh(c, db.shards[i], op) by {
        forall id | id in Created(op) && id % c.n == c.i ensures id !in db.shards[i].nodes {
          assert !db.HasNode(id) && db.Home(id) == i;
        }
      }
      FreshByShard(r, Spread(r, db, op), log[1..], i);
    }
  }

  /** Every shard settled, and nothing else different. */
  ghost predicate AllSettled(was: DB, e: DB, b: DB) {
    && |was.shards| == |e.shards| == |b.shards| && b == e.(shards := b.shards)
    && forall i {:trigger b.shards[i]} :: 0 <= i < |b.shards| ==> Settled(was.shards[i], e.shards[i], b.shards[i])
  }

  /**
   Applied again on the state it leads to, an accepted stretch of data entries leaves, if it
   is accepted, every bucket as it was up to the order inside label lists, and moves every
   counter a second time.
   */
  lemma RedeliverySettles(r: Render, db: DB, log: seq<Entry>)
    requires SoundStore(r, db) && AllData(log) && NewNodes(r, db, log) && ApplyLog(r, db, log).Some?
    ensures var e := ApplyLog(r, db, log).value;
            e.Valid() && (ApplyLog(r, e, log).Some? ==> AllSettled(db, e, ApplyLog(r, e, log).value))
  {
    var e := ApplyLog(r, db, log).value;
    ByShard(r, db, log, 0);
    if ApplyLog(r, e, log).Some? {
      var b := ApplyLog(r, e, log).value;
      ByShard(r, e, log, 0);
      forall i | 0 <= i < |b.shards| ensures Settled(db.shards[i], e.shards[i], b.shards[i]) {
        ByShard(r, db, log, i);
        ByShard(r, e, log, i);
        FreshByShard(r, db, log, i);
        assert Sound(PlaceAt(r, db, i), db.shards[i]);
        ShardSettles(PlaceAt(r, db, i), db.shards[i], log);
      }
    }
  }

  /**
   Every node's list has the labels that the log removes at its end, or the log starts the
   list anew.
   */
  ghost predicate AllInOrder(e: DB, log: seq<Entry>)
    requires e.Valid()
  {
    forall id: NodeID {:trigger e.ShardOf(id)} :: ListInOrder(e.ShardOf(id), log, id)
  }

  /** Exactly then the label lists keep their order too, and only the counters differ. */
  lemma RedeliveryKeepsOrder(r: Render, db: DB, log: seq<Entry>)
    requires SoundStore(r, db) && AllData(log) && NewNodes(r, db, log) && ApplyLog(r, db, log).Some?
    ensures var e := ApplyLog(r, db, log).value;
            && e.Valid()
            && (ApplyLog(r, e, log).Some? ==> (CountedTwice(db, e, ApplyLog(r, e, log).value) <==> AllInOrder(e, log)))
  {
    var e := ApplyLog(r, db, log).value;
    ByShard(r, db, log, 0);
    if ApplyLog(r, e, log).Some? {
      var b := ApplyLog(r, e, log).value;
      RedeliverySettles(r, db, log);
      OrderExactlyByShard(r, db, e, b, log);
      InOrderByShard(r, e, log);
      CountedByShard(r, db, e, b, log);
    }
  }

  /** So it is in every shard. */
  ghost predicate ShardsInOrder(r: Render, e: DB, log: seq<Entry>) {
    forall i {:trigger InOrderAt(r, e, log, i)} :: 0 <= i < |e.shards| ==> InOrderAt(r, e, log, i)
  }

  ghost predicate InOrderAt(r: Render, e: DB, log: seq<Entry>, i: nat)
    requires i < |e.shards|
  {
    ShardInOrder(PlaceAt(r, e, i), e.shards[i], log)
  }

  ghost predicate OrderAt(r: Render, db: DB, e: DB, b: DB, log: seq<Entry>, i: nat)
    requires i < |db.shards| && i < |e.shards| && i < |b.shards|
  {
    b.shards[i] == Doubled(db.shards[i], e.shards[i]) <==> InOrderAt(r, e, log, i)
  }

  ghost predicate OrderByShard(r: Render, db: DB, e: DB, b: DB, log: seq<Entry>)
    requires |e.shards| == |db.shards| == |b.shards|
  {
    forall i {:trigger OrderAt(r, db, e, b, log, i)} :: 0 <= i < |e.shards| ==> OrderAt(r, db, e, b, log, i)
  }

  lemma OrderExactlyByShard(r: Render, db: DB, e: DB, b: DB, log: seq<Entry>)
    requires SoundStore(r, db) && AllData(log) && NewNodes(r, db, log) && ApplyLog(r, db, log) == Some(e)
    requires e.Valid() && |e.shards| == |db.shards| == |b.shards| && ApplyLog(r, e, log) == Some(b)
    ensures OrderByShard(r, db, e, b, log)
  {
    forall i: nat | i < |e.shards| ensures OrderAt(r, db, e, b, log, i) {
      OrderExactlyAt(r, db, e, b, log, i);
    }
  }

  lemma OrderExactlyAt(r: Render, db: DB, e: DB, b: DB, log: seq<Entry>, i: nat)
    requires SoundStore(r, db) && AllData(log) && NewNodes(r, db, log) && ApplyLog(r, db, log) == Some(e)
    requires e.Valid() && |e.shards| == |db.shards| == |b.shards| && ApplyLog(r, e, log) == Some(b) && i < |db.shards|
    ensures OrderAt(r, db, e, b, log, i)
  {
    var c := PlaceAt(r, db, i);
    ByShard(r, db, log, i);
    ByShard(r, e, log, i);
    FreshByShard(r, db, log, i);
    assert Sound(c, db.shards[i]);
    ShardSettles(c, db.shards[i], log);
    ShardOrderExactly(c, db.shards[i], log);
  }

  lemma InOrderByShard(r: Render, e: DB, log: seq<Entry>)
    requires e.Valid()
    ensures AllInOrder(e, log) <==> ShardsInOrder(r, e, log)
  {
    if AllInOrder(e, log) {
      forall i: nat | i < |e.shards| ensures InOrderAt(r, e, log, i) {
        forall id: NodeID | id % |e.shards| == i ensures ListInOrder(e.shards[i], log, id) {
          assert e.ShardOf(id) == e.shards[i];
        }
      }
    } else {
      var id: NodeID :| !ListInOrder(e.ShardOf(id), log, id);
      assert !InOrderAt(r, e, log, e.Home(id));
    }
  }

  lemma CountedByShard(r: Render, db: DB, e: DB, b: DB, log: seq<Entry>)
    requires AllSettled(db, e, b) && OrderByShard(r, db, e, b, log)
    ensures CountedTwice(db, e, b) <==> ShardsInOrder(r, e, log)
  {
    if CountedTwice(db, e, b) {
      forall i: nat | i < |e.shards| ensures InOrderAt(r, e, log, i) {
        assert OrderAt(r, db, e, b, log, i) && b.shards[i] == Doubled(db.shards[i], e.shards[i]);
      }
    }
    if ShardsInOrder(r, e, log) {
      forall i {:trigger b.shards[i]} | 0 <= i < |e.shards| ensures b.shards[i] == Doubled(db.shards[i], e.shards[i]) {
        assert OrderAt(r, db, e, b, log, i) && InOrderAt(r, e, log, i);
      }
    }
  }

  // ---- failing inputs ---------------------------------------------------------------------------------

  const X: Str := [88]
  const Y: Str := [89]

  /** Remove Y, add Y, add X. */
  function Relabelling(): seq<Entry> {
    [Entry(1, OpRemoveLabel(1, [Y])), Entry(2, OpAddLabel(1, [Y])), Entry(3, OpAddLabel(1, [X]))]
  }

  lemma RelabelledList(c: Place, sh: Shard, list: seq<Str>)
    requires c.Valid() && c.n == 1 && LabelsOn(sh) && 1 in sh.nodes && LabelsIn(sh.labels, 1) == list
    ensures ReadyAll(c, sh, Relabelling())
    ensures list == [Y] ==> LabelsIn(GoAll(c, sh, Relabelling()).labels, 1) == [Y, X]
    ensures list == [Y, X] ==> LabelsIn(GoAll(c, sh, Relabelling()).labels, 1) == [X, Y]
  {
    var log := Relabelling();
    var sh1 := RelabelOnce(c, sh, log[0].op);
    var sh2 := RelabelOnce(c, sh1, log[1].op);
    var sh3 := RelabelOnce(c, sh2, log[2].op);
    Unrolled(c, sh, sh1, sh2, log);
    RelabelLists();
  }

  lemma Unrolled(c: Place, sh: Shard, sh1: Shard, sh2: Shard, log: seq<Entry>)
    requires c.Valid() && |log| == 3 && Ready(c, sh, log[0].op) && sh1 == Go(c, sh, log[0].op)
    requires Ready(c, sh1, log[1].op) && sh2 == Go(c, sh1, log[1].op) && Ready(c, sh2, log[2].op)
    ensures ReadyAll(c, sh, log) && GoAll(c, sh, log) == Go(c, sh2, log[2].op)
  {
    var rest := log[1..];
    var last := rest[1..];
    assert rest[0] == log[1] && last[0] == log[2] && last[1..] == [];
    FirstReady(c, sh2, last);
    FirstReady(c, sh1, rest);
    FirstReady(c, sh, log);
  }

  lemma FirstReady(c: Place, sh: Shard, log: seq<Entry>)
    requires c.Valid() && log != [] && Ready(c, sh, log[0].op) && ReadyAll(c, Go(c, sh, log[0].op), log[1..])
    ensures ReadyAll(c, sh, log) && GoAll(c, sh, log) == GoAll(c, Go(c, sh, log[0].op), log[1..])
  {
  }

  lemma RelabelOnce(c: Place, sh: Shard, op: Op) returns (sh': Shard)
    requires c.Valid() && c.n == 1 && LabelsOn(sh) && 1 in sh.nodes && (op.OpAddLabel? || op.OpRemoveLabel?) &&
             op.id == 1
    ensures Ready(c, sh, op) && sh' == Go(c, sh, op) && LabelsOn(sh') && 1 in sh'.nodes &&
            LabelsIn(sh'.labels, 1) == ListAfter(sh, op)
  {
    sh' := Go(c, sh, op);
    LabelsOnKept(c, sh, op);
    ListStep(c, sh, op, 1);
    NodesStep(c, sh, op);
  }

  lemma RelabelLists()
    ensures KeptLabels([Y], [Y]) == [] && [] + NewLabels([], [Y]) == [Y] && [Y] + NewLabels([Y], [X]) == [Y, X]
    ensures KeptLabels([Y, X], [Y]) == [X] && [X] + NewLabels([X], [Y]) == [X, Y] &&
            [X, Y] + NewLabels([X, Y], [X]) == [X, Y]
  {
    assert [Y][..0] == [] && [X][..0] == [] && [Y, X][..1] == [Y];
    assert X != Y;
    assert KeptLabels([Y], [Y]) == KeptLabels([], [Y]) + [];
    assert NewLabels([], [Y]) == NewLabels([], []) + [Y];
    assert NewLabels([Y], [X]) == NewLabels([Y], []) + [X];
    assert NewLabels([X], [Y]) == NewLabels([X], []) + [Y];
    assert NewLabels([X, Y], [X]) == NewLabels([X, Y], []) + [];
  }

  /** A node with the label Y: the first pass leaves [Y, X], the second [X, Y]. */
  lemma ListsReorder(r: Render, db: DB)
    requires db.Valid() && |db.shards| == 1 && LabelsOn(db.shards[0]) && 1 in db.shards[0].nodes &&
             Labels(db.shards[0], 1) == [Y]
    ensures var log := Relabelling(); var e := ApplyLog(r, db, log);
            && e.Some? && e.value.Valid() && Labels(e.value.ShardOf(1), 1) == [Y, X]
            && ApplyLog(r, e.value, log).Some? && Labels(ApplyLog(r, e.value, log).value.ShardOf(1), 1) == [X, Y]
  {
    var e := RelabelPass(r, db, [Y]);
    var b := RelabelPass(r, e, [Y, X]);
  }

  lemma RelabelPass(r: Render, db: DB, list: seq<Str>) returns (e: DB)
    requires db.Valid() && |db.shards| == 1 && LabelsOn(db.shards[0]) && 1 in db.shards[0].nodes &&
             Labels(db.shards[0], 1) == list
    ensures ApplyLog(r, db, Relabelling()) == Some(e) && e.Valid() && |e.shards| == 1 && LabelsOn(e.shards[0])
    ensures list == [Y] ==> Labels(e.shards[0], 1) == [Y, X] && 1 in e.shards[0].nodes
    ensures list == [Y, X] ==> Labels(e.shards[0], 1) == [X, Y]
  {
    var log, c := Relabelling(), PlaceAt(r, db, 0);
    assert AllData(log);
    RelabelledList(c, db.shards[0], list);
    AcceptedHere(r, db, log);
    ByShard(r, db, log, 0);
    e := ApplyLog(r, db, log).value;
    LabelsOnAll(c, db.shards[0], log);
    assert list == [Y] ==> 1 in e.shards[0].labels;
  }

  /** With one shard a log is accepted if that shard is ready for all of it. */
  lemma {:induction false} AcceptedHere(r: Render, db: DB, log: seq<Entry>)
    requires db.Valid() && |db.shards| == 1 && AllData(log) && ReadyAll(PlaceAt(r, db, 0), db.shards[0], log)
    ensures ApplyLog(r, db, log).Some?
    decreases |log|
  {
    if log != [] {
      ApplyIsSpread(r, db, log[0].op);
      ReadyAt(r, db, log[0].op, 0);
      AcceptedHere(r, Spread(r, db, log[0].op), log[1..]);
    }
  }

  lemma {:induction false} LabelsOnAll(c: Place, sh: Shard, log: seq<Entry>)
    requires c.Valid() && AllData(log) && ReadyAll(c, sh, log) && LabelsOn(sh)
    ensures LabelsOn(GoAll(c, sh, log))
    decreases |log|
  {
    if log != [] {
      Head(c, sh, log);
      LabelsOnKept(c, sh, log[0].op);
      LabelsOnAll(c, Go(c, sh, log[0].op), log[1..]);
    }
  }

  /** An entry whose record the next one deletes is refused the second time, for nodes and edges alike. */
  lemma DeletedNextIsRefused(r: Render, db: DB, op: Op, del: Op)
    requires db.Valid() && IsData(op) && IsData(del) && ApplyLog(r, db, [Entry(1, op)] + [Entry(2, del)]).Some?
    requires Needed(|db.shards|, op).Some? && Touch(|db.shards|, del, Needed(|db.shards|, op).value) == Some(false)
    ensures var log := [Entry(1, op)] + [Entry(2, del)]; var e := ApplyLog(r, db, log).value;
            e.Valid() && ApplyLog(r, e, log).None?
  {
    var log, n := [Entry(1, op)] + [Entry(2, del)], |db.shards|;
    var x := Needed(n, op).value;
    RedeliveryExactly(r, db, log);
    assert log[1..] == [Entry(2, del)] && log[1..][1..] == [] && log[..0] == [];
    assert Fate(n, log[1..], x) == Some(false);
    assert Orphaned(n, log, 0);
  }

  // ---- the leader's log brings new nodes ---------------------------------------------------------------

  /** New IDs lie above `lo` and up to `hi`; an overwritten node's does not lie above `lo`. */
  ghost predicate ClimbAt(op: Op, lo: nat, hi: nat) {
    lo <= hi && (forall id :: id in Created(op) ==> lo < id <= hi) && (op.OpSetNodeProps? ==> op.id <= lo)
  }

  ghost predicate Climbs(log: seq<Logged>, bs: seq<nat>) {
    |bs| == |log| + 1 && forall j {:trigger log[j]} :: 0 <= j < |log| ==> ClimbAt(log[j].op, bs[j], bs[j + 1])
  }

  /** Entries that bring no node and overwrite only old ones. */
  lemma FlatClimbs(log: seq<Logged>, bound: nat) returns (bs: seq<nat>)
    requires forall j {:trigger log[j]} :: 0 <= j < |log| ==> ClimbAt(log[j].op, bound, bound)
    ensures Climbs(log, bs) && bs[0] == bs[|log|] == bound
  {
    bs := seq(|log| + 1, _ => bound);
  }

  lemma {:induction false} ErasedEntries(db: DB, es: seq<Edge>)
    requires db.Valid()
    ensures forall j {:trigger EraseEdges(db, es).log[j]} :: 0 <= j < |EraseEdges(db, es).log| ==>
              EraseEdges(db, es).log[j].op.OpDeleteEdge?
    ensures EraseEdges(db, es).db.nextNode == db.nextNode
  {
    if es != [] {
      ErasedEntries(db, es[..|es| - 1]);
    }
  }

  lemma StoredBelow(db: DB, id: NodeID)
    requires RecordsOk(db) && db.HasNode(id)
    ensures id <= db.nextNode
  {
    assert RecordsAt(db, db.Home(id));
  }

  lemma BatchClimbs(db: DB, list: seq<Props>)
    requires db.Valid() && db.nextNode + |list| < TWO64
    ensures ClimbAt(OpAddNodeBatch(Numbered(db.nextNode + 1, list)), db.nextNode, db.nextNode + |list|)
  {
  }

  lemma CallClimbs(r: Render, db: DB, call: Call) returns (bs: seq<nat>)
    requires RecordsOk(db) && Room(db, call)
    ensures var o := Execute(r, db, call); Climbs(o.log, bs) && bs[0] == db.nextNode && bs[|o.log|] <= o.db.nextNode
  {
    var o := Execute(r, db, call);
    if call.AddNodeCall? || call.AddNodeWithLabelsCall? {
      bs := if o.log == [] then [db.nextNode] else [db.nextNode, db.nextNode + 1];
    } else if call.AddNodeBatchCall? {
      BatchClimbs(db, call.list);
      bs := [db.nextNode, db.nextNode + |call.list|];
    } else {
      OtherCallsFlat(r, db, call);
      bs := FlatClimbs(o.log, db.nextNode);
    }
  }

  predicate AddsNodes(call: Call) {
    call.AddNodeCall? || call.AddNodeWithLabelsCall? || call.AddNodeBatchCall?
  }

  lemma OtherCallsFlat(r: Render, db: DB, call: Call)
    requires RecordsOk(db) && Room(db, call) && !AddsNodes(call)
    ensures var o := Execute(r, db, call);
            o.db.nextNode == db.nextNode && forall j {:trigger o.log[j]} :: 0 <= j < |o.log| ==>
                ClimbAt(o.log[j].op, db.nextNode, db.nextNode)
  {
    if call.DeleteNodeCall? {
      DeleteFlat(r, db, call.id, call.listed);
    } else {
      if call.SetNodePropsCall? && db.HasNode(call.id) {
        StoredBelow(db, call.id);
      }
      SingleFlat(r, db, call);
    }
  }

  lemma SingleFlat(r: Render, db: DB, call: Call)
    requires db.Valid() && Room(db, call) && !AddsNodes(call) && !call.DeleteNodeCall?
    requires call.SetNodePropsCall? && db.HasNode(call.id) ==> call.id <= db.nextNode
    ensures var o := Execute(r, db, call);
            && o.db.nextNode == db.nextNode && |o.log| <= 1
            && (o.log != [] ==> ClimbAt(o.log[0].op, db.nextNode, db.nextNode))
  {
    if IsDefinition(call) {
      DefinitionFlat(r, db, call);
    }
  }

  lemma DefinitionFlat(r: Render, db: DB, call: Call)
    requires db.Valid() && IsDefinition(call)
    ensures var o := Execute(r, db, call);
            && o.db.nextNode == db.nextNode && |o.log| <= 1
            && (o.log != [] ==> ClimbAt(o.log[0].op, db.nextNode, db.nextNode))
  {
  }

  lemma DeleteFlat(r: Render, db: DB, id: NodeID, es: seq<Edge>)
    requires db.Valid()
    ensures var o := DeleteNode(r, db, id, es);
            o.db.nextNode == db.nextNode && forall j {:trigger o.log[j]} :: 0 <= j < |o.log| ==>
                ClimbAt(o.log[j].op, db.nextNode, db.nextNode)
  {
    ErasedEntries(db, es);
    var o := DeleteNode(r, db, id, es);
    forall j {:trigger o.log[j]} | 0 <= j < |o.log| ensures ClimbAt(o.log[j].op, db.nextNode, db.nextNode) {
      assert j < |EraseEdges(db, es).log| ==> o.log[j] == EraseEdges(db, es).log[j];
    }
  }

  lemma {:induction false} RunClimbs(r: Render, db: DB, calls: seq<Call>) returns (bs: seq<nat>)
    requires RecordsOk(db) && Placed(db) && RoomFor(r, db, calls)
    ensures Climbs(Run(r, db, calls).1, bs) && db.nextNode <= bs[0]
    decreases |calls|
  {
    if calls == [] {
      bs := [db.nextNode];
    } else {
      var db1 := AfterCall(r, db, calls[0]);
      var rest := RunClimbs(r, db1, calls[1..]);
      bs := RunClimbsNext(r, db, calls, rest);
    }
  }

  lemma AfterCall(r: Render, db: DB, call: Call) returns (db1: DB)
    requires RecordsOk(db) && Placed(db) && Room(db, call)
    ensures db1 == Execute(r, db, call).db && RecordsOk(db1) && Placed(db1)
  {
    db1 := Execute(r, db, call).db;
    CallKeepsRecords(r, db, call);
    CallKeepsPlaced(r, db, call);
  }

  lemma RunClimbsNext(r: Render, db: DB, calls: seq<Call>, rest: seq<nat>) returns (bs: seq<nat>)
    requires RecordsOk(db) && RoomFor(r, db, calls) && calls != []
    requires var db1 := Execute(r, db, calls[0]).db; Climbs(Run(r, db1, calls[1..]).1, rest) && db1.nextNode <= rest[0]
    ensures Climbs(Run(r, db, calls).1, bs) && db.nextNode <= bs[0]
  {
    var o := Execute(r, db, calls[0]);
    var first := CallClimbs(r, db, calls[0]);
    bs := ClimbsJoin(o.log, first, Run(r, o.db, calls[1..]).1, rest);
  }

  lemma ClimbsJoin(a: seq<Logged>, x: seq<nat>, b: seq<Logged>, y: seq<nat>) returns (bs: seq<nat>)
    requires Climbs(a, x) && Climbs(b, y) && x[|a|] <= y[0]
    ensures Climbs(a + b, bs) && bs[0] == if a == [] then y[0] else x[0]
  {
    bs := x[..|a|] + y;
    var log := a + b;
    forall j {:trigger log[j]} | 0 <= j < |log| ensures ClimbAt(log[j].op, bs[j], bs[j + 1]) {
      if j < |a| {
        assert log[j] == a[j] && bs[j] == x[j] && x[j + 1] <= bs[j + 1];
      } else {
        assert log[j] == b[j - |a|] && bs[j] == y[j - |a|] && bs[j + 1] == y[j + 1 - |a|];
      }
    }
  }

  ghost predicate AllBelow(db: DB, bound: nat)
    requires db.Valid()
  {
    forall id: NodeID :: db.HasNode(id) ==> id <= bound
  }

  lemma StaysBelow(r: Render, db: DB, op: Op, lo: nat, hi: nat)
    requires db.Valid() && IsData(op) && AllBelow(db, lo) && ClimbAt(op, lo, hi)
    ensures AllBelow(Spread(r, db, op), hi)
  {
    forall id: NodeID | Spread(r, db, op).HasNode(id) ensures id <= hi {
      TouchNode(r, db, op, id);
      assert db.HasNode(id) || id in Created(op) || (op.OpSetNodeProps? && id == op.id);
    }
  }

  lemma {:induction false} ClimbingIsNew(r: Render, db: DB, log: seq<Logged>, bs: seq<nat>, base: nat, k: nat)
    requires db.Valid() && AllData(Entries(log, base)) && k <= |log| && Climbs(log, bs) && AllBelow(db, bs[k])
    ensures NewNodes(r, db, Entries(log, base)[k..])
    decreases |log| - k
  {
    var es := Entries(log, base);
    if k < |log| {
      assert es[k..][0] == es[k] && es[k..][1..] == es[k + 1..] && IsData(es[k].op);
      assert ClimbAt(log[k].op, bs[k], bs[k + 1]);
      StaysBelow(r, db, log[k].op, bs[k], bs[k + 1]);
      ClimbingIsNew(r, Spread(r, db, log[k].op), log, bs, base, k + 1);
    }
  }

  // ---- the leader's state is sound ----------------------------------------------------------------------

  lemma InvIsSound(r: Render, db: DB, staleP: set<Str>, staleC: set<Str>)
    requires I.IndexInv(r, db, staleP, staleC)
    ensures SoundStore(r, db)
  {
    forall i {:trigger PlaceAt(r, db, i)} | 0 <= i < |db.shards| ensures Sound(PlaceAt(r, db, i), db.shards[i]) {
      assert RecordsAt(db, i) && I.IndexesAt(r, db, i, staleP, staleC);
      EntriesAreSound(PlaceAt(r, db, i), db.shards[i], staleP, staleC);
    }
  }

  lemma EntriesAreSound(c: Place, sh: Shard, staleP: set<Str>, staleC: set<Str>)
    requires I.IndexesOk(c.r, c.reg, sh, staleP, staleC) && I.DefsOk(c.reg) && LabelsOk(sh)
    ensures Sound(c, sh)
  {
    forall id: NodeID
      ensures SoundAt(PropKeyer(c), sh.nodes, sh.propIdx, id) && SoundAt(CompKeyer(c), sh.nodes, sh.compIdx, id)
    {
      I.PropOfIs(c.r, c.reg, id, I.PropsAt(sh.nodes, id));
      forall k | Of(k, id) && k in sh.propIdx ensures k in KeysAt(PropKeyer(c), sh.nodes, id) {
        I.PropEntriesSplit(c.r, c.reg.indexed, sh.nodes, id, k);
      }
      forall k | Of(k, id) && k in sh.compIdx ensures k in KeysAt(CompKeyer(c), sh.nodes, id) {
        I.CompEntriesSplit(c.r, c.reg.composite, sh.nodes, id, k);
      }
    }
  }

  lemma SameIsSound(r: Render, l: DB, f: DB)
    requires SoundStore(r, l) && Same(l, f)
    ensures SoundStore(r, f)
  {
    forall i {:trigger PlaceAt(r, f, i)} | 0 <= i < |f.shards| ensures Sound(PlaceAt(r, f, i), f.shards[i]) {
      assert SameShard(l, f, i) && PlaceAt(r, f, i) == PlaceAt(r, l, i) && Sound(PlaceAt(r, l, i), l.shards[i]);
      SoundLike(PlaceAt(r, f, i), l.shards[i], f.shards[i]);
    }
  }

  lemma SoundLike(c: Place, sh: Shard, sh': Shard)
    requires Sound(c, sh) && Strip(sh) == Strip(sh')
    ensures Sound(c, sh')
  {
    assert sh.nodes == sh'.nodes && sh.labels == sh'.labels && sh.labelIdx == sh'.labelIdx &&
           sh.propIdx == sh'.propIdx && sh.compIdx == sh'.compIdx;
    forall id ensures SoundAt(PropKeyer(c), sh'.nodes, sh'.propIdx, id) &&
        SoundAt(CompKeyer(c), sh'.nodes, sh'.compIdx, id) {
      assert SoundAt(PropKeyer(c), sh.nodes, sh.propIdx, id) && SoundAt(CompKeyer(c), sh.nodes, sh.compIdx, id);
    }
  }

  /** An entry keeps a shard sound. */
  lemma SoundKept(c: Place, sh: Shard, op: Op)
    requires c.Valid() && IsData(op) && Ready(c, sh, op) && Fresh(c, sh, op) && Sound(c, sh)
    ensures Sound(c, Go(c, sh, op))
  {
    LabelsOkKept(c, sh, op);
    IndexSideStart(PropKeyer(c), sh.nodes, sh.propIdx, sh.nodes, sh.propIdx);
    IndexSideStart(CompKeyer(c), sh.nodes, sh.compIdx, sh.nodes, sh.compIdx);
    IndexedKeeps(c, sh, sh, sh, op);
    SoundFrom(c, Go(c, sh, op), sh);
  }

  lemma SoundFrom(c: Place, sh: Shard, e: Shard)
    requires LabelsOk(sh) && Indexed(c, sh, sh, e)
    ensures Sound(c, sh)
  {
    forall id ensures SoundAt(PropKeyer(c), sh.nodes, sh.propIdx, id) &&
        SoundAt(CompKeyer(c), sh.nodes, sh.compIdx, id) {
      assert IndexAt(PropKeyer(c), sh.nodes, sh.propIdx, sh.nodes, sh.propIdx, e.propIdx, id);
      assert IndexAt(CompKeyer(c), sh.nodes, sh.compIdx, sh.nodes, sh.compIdx, e.compIdx, id);
    }
  }

  /** The state in the middle of an accepted log is sound, and what follows brings new nodes. */
  lemma {:induction false} SoundMidway(r: Render, db: DB, log: seq<Entry>, k: nat)
    requires SoundStore(r, db) && AllData(log) && NewNodes(r, db, log) && ApplyLog(r, db, log).Some? && k <= |log|
    ensures var mid := ApplyLog(r, db, log[..k]);
            && mid.Some? && SoundStore(r, mid.value) && |mid.value.shards| == |db.shards|
            && NewNodes(r, mid.value, log[k..]) && ApplyLog(r, mid.value, log[k..]) == ApplyLog(r, db, log)
    decreases k
  {
    if k == 0 {
      assert log[..0] == [] && log[0..] == log;
    } else {
      var op, rest := log[0].op, log[1..];
      assert IsData(op);
      ApplyIsSpread(r, db, op);
      SpreadIsSound(r, db, op);
      SoundMidway(r, Spread(r, db, op), rest, k - 1);
      CutBehindFirst(log, k);
      ApplyFirst(r, db, log[0], rest[..k - 1]);
    }
  }

  lemma CutBehindFirst(log: seq<Entry>, k: nat)
    requires 0 < k <= |log|
    ensures log[..k] == [log[0]] + log[1..][..k - 1] && log[k..] == log[1..][k - 1..]
  {
  }

  lemma SpreadIsSound(r: Render, db: DB, op: Op)
    requires SoundStore(r, db) && IsData(op) && Applicable(db, op) && forall id :: id in Created(op) ==> !db.HasNode(id)
    ensures SoundStore(r, Spread(r, db, op))
  {
    var db1 := Spread(r, db, op);
    forall i {:trigger PlaceAt(r, db1, i)} | 0 <= i < |db1.shards| ensures Sound(PlaceAt(r, db1, i), db1.shards[i]) {
      ReadyAt(r, db, op, i);
      assert Sound(PlaceAt(r, db, i), db.shards[i]);
      FreshHere(r, db, op, i);
      SoundKept(PlaceAt(r, db, i), db.shards[i], op);
    }
  }

  lemma FreshHere(r: Render, db: DB, op: Op, i: nat)
    requires db.Valid() && i < |db.shards| && forall id :: id in Created(op) ==> !db.HasNode(id)
    ensures Fresh(PlaceAt(r, db, i), db.shards[i], op)
  {
    forall id | id in Created(op) && id % |db.shards| == i ensures id !in db.shards[i].nodes {
      assert !db.HasNode(id) && db.Home(id) == i;
    }
  }

  // ---- a stretch that arrives again and more behind it ----------------------------------------------------

  /** In every shard `b` is like `a`, and nothing else differs. */
  ghost predicate Overrun(mid: DB, e: DB, a: DB, b: DB) {
    && |mid.shards| == |e.shards| == |a.shards| == |b.shards| && b == a.(shards := b.shards)
    && forall i {:trigger b.shards[i]} :: 0 <= i < |b.shards| ==>
         Like(mid.shards[i], e.shards[i], a.shards[i], b.shards[i])
  }

  ghost predicate AllLabelsOn(db: DB) {
    forall i {:trigger db.shards[i]} :: 0 <= i < |db.shards| ==> LabelsOn(db.shards[i])
  }

  lemma SoundLabelsOn(r: Render, db: DB)
    requires SoundStore(r, db)
    ensures AllLabelsOn(db)
  {
    forall i {:trigger db.shards[i]} | 0 <= i < |db.shards| ensures LabelsOn(db.shards[i]) {
      assert Sound(PlaceAt(r, db, i), db.shards[i]);
    }
  }

  lemma SettledOverruns(mid: DB, e: DB, b: DB)
    requires AllLabelsOn(e) && AllSettled(mid, e, b)
    ensures Overrun(mid, e, e, b) && AllLabelsOn(b)
  {
    forall i {:trigger b.shards[i]} | 0 <= i < |b.shards|
      ensures Like(mid.shards[i], e.shards[i], e.shards[i], b.shards[i]) && LabelsOn(b.shards[i])
    {
      assert LabelsOn(e.shards[i]) && Settled(mid.shards[i], e.shards[i], b.shards[i]);
      SettledLike(mid.shards[i], e.shards[i], b.shards[i]);
    }
  }

  lemma SettledLike(was: Shard, e: Shard, b: Shard)
    requires LabelsOn(e) && Settled(was, e, b)
    ensures LabelsOn(b) && Like(was, e, e, b)
  {
    forall id | id in b.labels ensures b.labels[id] != [] {
      assert e.labels[id][0] in e.labels[id];
    }
  }

  lemma OverrunApplicable(mid: DB, e: DB, a: DB, b: DB, op: Op)
    requires a.Valid() && b.Valid() && Overrun(mid, e, a, b)
    ensures Applicable(a, op) <==> Applicable(b, op)
  {
    if op.OpUpdateNode? || op.OpAddLabel? || op.OpUpdateEdge? {
      var i := a.Home(if op.OpUpdateEdge? then op.from else op.id);
      assert b.shards[i].nodes == a.shards[i].nodes && b.shards[i].edges == a.shards[i].edges;
    }
  }

  lemma OverrunAt(r: Render, mid: DB, e: DB, a: DB, b: DB, op: Op, i: nat)
    requires a.Valid() && b.Valid() && IsData(op) && Applicable(a, op) && i < |b.shards|
    requires Overrun(mid, e, a, b) && AllLabelsOn(a) && AllLabelsOn(b)
    ensures var a', b' := Spread(r, a, op).shards[i], Spread(r, b, op).shards[i];
            Like(mid.shards[i], e.shards[i], a', b') && LabelsOn(a') && LabelsOn(b')
  {
    ReadyAt(r, a, op, i);
    ReadyAt(r, b, op, i);
    assert LabelsOn(a.shards[i]) && LabelsOn(b.shards[i]);
    assert Like(mid.shards[i], e.shards[i], a.shards[i], b.shards[i]);
    LikeGo(PlaceAt(r, a, i), mid.shards[i], e.shards[i], a.shards[i], b.shards[i], op);
  }

  lemma OverrunSpread(r: Render, mid: DB, e: DB, a: DB, b: DB, op: Op)
    requires a.Valid() && b.Valid() && IsData(op) && Applicable(a, op)
    requires Overrun(mid, e, a, b) && AllLabelsOn(a) && AllLabelsOn(b)
    ensures Overrun(mid, e, Spread(r, a, op), Spread(r, b, op))
    ensures AllLabelsOn(Spread(r, a, op)) && AllLabelsOn(Spread(r, b, op))
  {
    var a', b' := Spread(r, a, op), Spread(r, b, op);
    forall i {:trigger b'.shards[i]} {:trigger a'.shards[i]} | 0 <= i < |b'.shards|
      ensures Like(mid.shards[i], e.shards[i], a'.shards[i], b'.shards[i])
      ensures LabelsOn(a'.shards[i]) && LabelsOn(b'.shards[i])
    {
      OverrunAt(r, mid, e, a, b, op, i);
    }
  }

  /** What the one accepts the other accepts, and they stay alike. */
  lemma {:induction false} OverrunLog(r: Render, mid: DB, e: DB, a: DB, b: DB, log: seq<Entry>)
    requires a.Valid() && b.Valid() && AllData(log) && ApplyLog(r, a, log).Some?
    requires Overrun(mid, e, a, b) && AllLabelsOn(a) && AllLabelsOn(b)
    ensures ApplyLog(r, b, log).Some? && Overrun(mid, e, ApplyLog(r, a, log).value, ApplyLog(r, b, log).value)
    decreases |log|
  {
    if log != [] {
      var op := log[0].op;
      assert IsData(op);
      ApplyIsSpread(r, a, op);
      ApplyIsSpread(r, b, op);
      OverrunApplicable(mid, e, a, b, op);
      OverrunSpread(r, mid, e, a, b, op);
      OverrunLog(r, mid, e, Spread(r, a, op), Spread(r, b, op), log[1..]);
    }
  }

  lemma {:induction false} LogSplits(r: Render, db: DB, a: seq<Entry>, b: seq<Entry>)
    requires db.Valid() && AllData(a)
    ensures ApplyLog(r, db, a).None? ==> ApplyLog(r, db, a + b).None?
    ensures ApplyLog(r, db, a).Some? ==> ApplyLog(r, db, a).value.Valid()
    ensures ApplyLog(r, db, a).Some? ==> ApplyLog(r, db, a + b) == ApplyLog(r, ApplyLog(r, db, a).value, b)
    decreases |a|
  {
    if a == [] {
      assert a + b == b;
    } else {
      assert (a + b)[0] == a[0] && (a + b)[1..] == a[1..] + b && IsData(a[0].op);
      ApplyIsSpread(r, db, a[0].op);
      if Applicable(db, a[0].op) {
        LogSplits(r, Spread(r, db, a[0].op), a[1..], b);
      }
    }
  }

  lemma {:induction false} NewNodesBefore(r: Render, db: DB, log: seq<Entry>, j: nat)
    requires db.Valid() && AllData(log) && NewNodes(r, db, log) && j <= |log|
    ensures NewNodes(r, db, log[..j])
    decreases |log|
  {
    if j > 0 {
      assert log[..j][0] == log[0] && log[..j][1..] == log[1..][..j - 1];
      NewNodesBefore(r, Spread(r, db, log[0].op), log[1..], j - 1);
    }
  }

  /**
   What comes, on `e`, of a log that begins with `stretch` once more, by which `e` was reached
   from `mid`: it is accepted exactly if the stretch has no orphan, and ends as `whole` up to
   label order, with the counters of the stretch on top.
   */
  ghost predicate TakenUpAgain(mid: DB, e: DB, whole: DB, stretch: seq<Entry>, again: Option<DB>)
    requires mid.Valid()
  {
    && (again.Some? <==> NoOrphan(|mid.shards|, stretch))
    && (again.Some? ==> Overrun(mid, e, whole, again.value))
  }

  /**
   A sound state has taken the first `j` entries of a log; everything after the first `k`
   arrives again.
   */
  lemma OverrunExactly(r: Render, f: DB, es: seq<Entry>, k: nat, j: nat) returns (mid: DB, e: DB)
    requires SoundStore(r, f) && AllData(es) && NewNodes(r, f, es) && ApplyLog(r, f, es).Some? && k <= j <= |es|
    ensures ApplyLog(r, f, es[..k]) == Some(mid) && mid.Valid() && |mid.shards| == |f.shards|
    ensures ApplyLog(r, f, es[..j]) == Some(e) && e.Valid() && |e.shards| == |f.shards|
    ensures TakenUpAgain(mid, e, ApplyLog(r, f, es).value, es[k..j], ApplyLog(r, e, es[k..]))
  {
    mid, e := TwoPoints(r, f, es, k, j);
    CutTwice(es, k, j);
    OverrunFrom(r, mid, e, es[k..j], es[j..]);
  }

  lemma CutTwice(es: seq<Entry>, k: nat, j: nat)
    requires AllData(es) && k <= j <= |es|
    ensures es[k..] == es[k..j] + es[j..] && AllData(es[k..j]) && AllData(es[j..]) && AllData(es[..j])
    ensures es[..j][..k] == es[..k] && es[..j][k..] == es[k..j]
  {
  }

  /** The states after `k` and after `j` entries. */
  lemma TwoPoints(r: Render, f: DB, es: seq<Entry>, k: nat, j: nat) returns (mid: DB, e: DB)
    requires SoundStore(r, f) && AllData(es) && NewNodes(r, f, es) && ApplyLog(r, f, es).Some? && k <= j <= |es|
    ensures ApplyLog(r, f, es[..k]) == Some(mid) && SoundStore(r, mid) && |mid.shards| == |f.shards|
    ensures ApplyLog(r, f, es[..j]) == Some(e) && SoundStore(r, e) && |e.shards| == |f.shards|
    ensures ApplyLog(r, e, es[j..]) == ApplyLog(r, f, es)
    ensures NewNodes(r, mid, es[k..j]) && ApplyLog(r, mid, es[k..j]) == Some(e)
  {
    SoundMidway(r, f, es, j);
    e := ApplyLog(r, f, es[..j]).value;
    NewNodesBefore(r, f, es, j);
    CutTwice(es, k, j);
    SoundMidway(r, f, es[..j], k);
    mid := ApplyLog(r, f, es[..k]).value;
  }

  /** The same from the state where the stretch begins. */
  lemma OverrunFrom(r: Render, mid: DB, e: DB, log: seq<Entry>, more: seq<Entry>)
    requires SoundStore(r, mid) && AllData(log) && NewNodes(r, mid, log) && ApplyLog(r, mid, log) == Some(e)
    requires SoundStore(r, e) && AllData(more) && ApplyLog(r, e, more).Some?
    ensures TakenUpAgain(mid, e, ApplyLog(r, e, more).value, log, ApplyLog(r, e, log + more))
  {
    RedeliveryExactly(r, mid, log);
    RedeliverySettles(r, mid, log);
    LogSplits(r, e, log, more);
    if NoOrphan(|mid.shards|, log) {
      var b := ApplyLog(r, e, log).value;
      SoundLabelsOn(r, e);
      SettledOverruns(mid, e, b);
      OverrunLog(r, mid, e, e, b, more);
    }
  }

  // ---- the follower ----------------------------------------------------------------------------------------

  /**
   The leader makes any calls that log data entries. A follower with the leader's starting
   buckets has replayed the first `j` entries when the stream breaks, and then gets
   everything after the first `k`. It refuses if and only if the repeated stretch, from `k`
   to `j`, has an orphaned entry. If it accepts, it has the leader's buckets up to the order
   inside label lists, and its counters have moved by the repeated stretch once more.
   */
  lemma ReconnectedFollower(r: Render, start: DB, calls: seq<Call>, base: nat, f: DB, k: nat, j: nat,
      staleP: set<Str>, staleC: set<Str>)
    requires I.IndexInv(r, start, staleP, staleC) && Placed(start) && RoomFor(r, start, calls) && f.Valid() &&
             Same(start, f)
    requires AllData(Entries(Run(r, start, calls).1, base)) && k <= j <= |Run(r, start, calls).1|
    ensures
      var es := Entries(Run(r, start, calls).1, base);
      var mid, e, whole := ApplyLog(r, f, es[..k]), ApplyLog(r, f, es[..j]), ApplyLog(r, f, es);
      && mid.Some? && e.Some? && whole.Some? && Same(Run(r, start, calls).0, whole.value)
      && mid.value.Valid() && e.value.Valid() && |e.value.shards| == |f.shards|
      && TakenUpAgain(mid.value, e.value, whole.value, es[k..j], ApplyLog(r, e.value, es[k..]))
  {
    FollowerReady(r, start, calls, base, f, staleP, staleC);
    var mid, e := OverrunExactly(r, f, Entries(Run(r, start, calls).1, base), k, j);
  }

  lemma FollowerReady(r: Render, start: DB, calls: seq<Call>, base: nat, f: DB, staleP: set<Str>, staleC: set<Str>)
    requires I.IndexInv(r, start, staleP, staleC) && Placed(start) && RoomFor(r, start, calls) && f.Valid() &&
             Same(start, f)
    requires AllData(Entries(Run(r, start, calls).1, base))
    ensures var es := Entries(Run(r, start, calls).1, base);
            && SoundStore(r, f) && NewNodes(r, f, es) && ApplyLog(r, f, es).Some? && ApplyLog(r, f, es).value.Valid()
            && Same(Run(r, start, calls).0, ApplyLog(r, f, es).value)
  {
    var (end, log) := Run(r, start, calls);
    var es := Entries(log, base);
    RunChains(r, start, calls);
    SequentialFrom(r, start, log, end, base, 0, f);
    assert es[0..] == es;
    InvIsSound(r, start, staleP, staleC);
    SameIsSound(r, start, f);
    var bs := RunClimbs(r, start, calls);
    FollowerBelow(start, f, bs[0]);
    ClimbingIsNew(r, f, log, bs, base, 0);
    ByShard(r, f, es, 0);
  }

  lemma FollowerBelow(start: DB, f: DB, bound: nat)
    requires RecordsOk(start) && f.Valid() && Same(start, f) && start.nextNode <= bound
    ensures AllBelow(f, bound)
  {
    forall id: NodeID | f.HasNode(id) ensures id <= bound {
      assert SameShard(start, f, f.Home(id)) && start.HasNode(id);
      StoredBelow(start, id);
    }
  }
}
