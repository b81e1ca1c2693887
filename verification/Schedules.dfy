/**
 Replay at the grain of transactions. An entry about edges of two shards, or about nodes of
 several, is more than one transaction, and workers interleave them. If the transactions of
 entries on the same record come entry by entry, every interleaving ends as applying the
 entries one after the other does.
 */
module Schedules {
  import opened Types
  import opened Keys
  import opened Store
  import opened Leader
  import opened Applier
  import opened Commute

  // ---- transactions -------------------------------------------------------------------------------------

  /** An entry that is one transaction, or a transaction that writes to one shard whatever it finds. */
  datatype Txn = Whole(op: Op) | Write(shard: nat, patch: Patch)

  /** A transaction of the entry `op` with its LSN. */
  datatype Step = Step(lsn: nat, op: Op, txn: Txn)

  /** The transaction is about no more than the entry names. */
  ghost predicate Belongs(s: Step) {
    IsData(s.op) && match s.txn
    case Whole(op) => op == s.op
    case Write(_, p) => Within(p, NodesOf(s.op), EdgesOf(s.op))
  }

  function TxnPatch(r: Render, reg: Registry, n: nat, i: nat, sh: Shard, t: Txn): Patch
    requires n > 0
  {
    match t
    case Whole(op) => PatchOf(r, reg, n, i, sh, op)
    case Write(shard, p) => if i == shard then p else Nothing()
  }

  predicate CanRun(db: DB, t: Txn)
    requires db.Valid()
  {
    t.Whole? ==> Applicable(db, t.op)
  }

  function Ran(r: Render, db: DB, t: Txn): (db': DB)
    requires db.Valid()
    ensures db'.Valid() && |db'.shards| == |db.shards| && db'.reg == db.reg
  {
    db.(shards := seq(|db.shards|,
                      i requires 0 <= i < |db.shards| => Patched(db.shards[i],
                          TxnPatch(r, db.reg, |db.shards|, i, db.shards[i], t))))
  }

  /** The transactions one after the other; None once one fails. */
  ghost function RunSteps(r: Render, db: DB, ss: seq<Step>): Option<DB>
    requires db.Valid()
    decreases |ss|
  {
    if ss == [] then Some(db)
    else if CanRun(db, ss[0].txn) then RunSteps(r, Ran(r, db, ss[0].txn), ss[1..])
    else None
  }

  lemma RunFirst(r: Render, db: DB, s: Step, rest: seq<Step>)
    requires db.Valid()
    ensures RunSteps(r, db, [s] + rest) == if CanRun(db, s.txn) then RunSteps(r, Ran(r, db, s.txn), rest) else None
  {
    assert ([s] + rest)[1..] == rest;
  }

  lemma {:induction false} RunSplits(r: Render, db: DB, a: seq<Step>, b: seq<Step>)
    requires db.Valid()
    ensures RunSteps(r, db, a).Some? ==> RunSteps(r, db, a).value.Valid()
    ensures RunSteps(r, db, a).Some? ==> |RunSteps(r, db, a).value.shards| == |db.shards|
    ensures RunSteps(r, db, a + b) ==
              if RunSteps(r, db, a).Some? then RunSteps(r, RunSteps(r, db, a).value, b) else None
    decreases |a|
  {
    if a == [] {
      assert a + b == b;
    } else {
      assert a + b == [a[0]] + (a[1..] + b);
      RunFirst(r, db, a[0], a[1..] + b);
      if CanRun(db, a[0].txn) {
        RunSplits(r, Ran(r, db, a[0].txn), a[1..], b);
      }
    }
  }

  // ---- independent transactions ---------------------------------------------------------------------------

  lemma TxnWithin(r: Render, reg: Registry, n: nat, i: nat, sh: Shard, s: Step)
    requires n > 0 && Belongs(s)
    ensures Within(TxnPatch(r, reg, n, i, sh, s.txn), NodesOf(s.op), EdgesOf(s.op))
  {
    if s.txn.Whole? {
      PatchWithin(r, reg, n, i, sh, s.op);
    }
  }

  lemma TxnElsewhere(r: Render, reg: Registry, n: nat, i: nat, sh: Shard, s: Step, q: Patch, ns: set<NodeID>,
      es: set<EdgeID>)
    requires n > 0 && Belongs(s) && Within(q, ns, es) && ns !! NodesOf(s.op) && es !! EdgesOf(s.op)
    ensures TxnPatch(r, reg, n, i, Patched(sh, q), s.txn) == TxnPatch(r, reg, n, i, sh, s.txn)
  {
    if s.txn.Whole? {
      PatchElsewhere(r, reg, n, i, sh, s.op, q, ns, es);
    }
  }

  lemma RunElsewhere(r: Render, db: DB, s: Step, t: Step)
    requires db.Valid() && Belongs(s) && Belongs(t) && Independent(s.op, t.op)
    ensures CanRun(Ran(r, db, s.txn), t.txn) <==> CanRun(db, t.txn)
  {
    var b := t.op;
    if t.txn.Whole? && (b.OpUpdateNode? || b.OpAddLabel? || b.OpUpdateEdge?) {
      var i := db.Home(if b.OpUpdateEdge? then b.from else b.id);
      var p := TxnPatch(r, db.reg, |db.shards|, i, db.shards[i], s.txn);
      TxnWithin(r, db.reg, |db.shards|, i, db.shards[i], s);
      PatchElsewhere(r, db.reg, |db.shards|, i, db.shards[i], b, p, NodesOf(s.op), EdgesOf(s.op));
    }
  }

  lemma ShardRuns(r: Render, reg: Registry, n: nat, i: nat, sh: Shard, s: Step, t: Step)
    requires n > 0 && Belongs(s) && Belongs(t) && Independent(s.op, t.op)
    ensures var p, q := TxnPatch(r, reg, n, i, sh, s.txn), TxnPatch(r, reg, n, i, sh, t.txn);
            Patched(Patched(sh, p), TxnPatch(r, reg, n, i, Patched(sh, p), t.txn)) ==
                Patched(Patched(sh, q), TxnPatch(r, reg, n, i, Patched(sh, q), s.txn))
  {
    var p, q := TxnPatch(r, reg, n, i, sh, s.txn), TxnPatch(r, reg, n, i, sh, t.txn);
    TxnWithin(r, reg, n, i, sh, s);
    TxnWithin(r, reg, n, i, sh, t);
    TxnElsewhere(r, reg, n, i, sh, t, p, NodesOf(s.op), EdgesOf(s.op));
    TxnElsewhere(r, reg, n, i, sh, s, q, NodesOf(t.op), EdgesOf(t.op));
    PatchesSwap(sh, p, NodesOf(s.op), EdgesOf(s.op), q, NodesOf(t.op), EdgesOf(t.op));
  }

  lemma RunsSwap(r: Render, db: DB, s: Step, t: Step)
    requires db.Valid() && Belongs(s) && Belongs(t) && Independent(s.op, t.op)
    ensures Ran(r, Ran(r, db, s.txn), t.txn) == Ran(r, Ran(r, db, t.txn), s.txn)
  {
    var st, ts := Ran(r, Ran(r, db, s.txn), t.txn), Ran(r, Ran(r, db, t.txn), s.txn);
    forall i | 0 <= i < |db.shards|
      ensures st.shards[i] == ts.shards[i]
    {
      ShardRuns(r, db.reg, |db.shards|, i, db.shards[i], s, t);
    }
    assert st.shards == ts.shards;
  }

  lemma FirstSteps(r: Render, db: DB, s: Step, t: Step, rest: seq<Step>)
    requires db.Valid() && Belongs(s) && Belongs(t) && Independent(s.op, t.op)
    ensures RunSteps(r, db, [s] + ([t] + rest)) ==
              if CanRun(db, s.txn) && CanRun(db, t.txn) then RunSteps(r, Ran(r, Ran(r, db, s.txn), t.txn), rest)
              else None
  {
    RunElsewhere(r, db, s, t);
    RunFirst(r, db, s, [t] + rest);
    RunFirst(r, Ran(r, db, s.txn), t, rest);
  }

  lemma StepsSwap(r: Render, db: DB, s: Step, t: Step, rest: seq<Step>)
    requires db.Valid() && Belongs(s) && Belongs(t) && Independent(s.op, t.op)
    ensures RunSteps(r, db, [s] + ([t] + rest)) == RunSteps(r, db, [t] + ([s] + rest))
  {
    FirstSteps(r, db, s, t, rest);
    FirstSteps(r, db, t, s, rest);
    RunsSwap(r, db, s, t);
  }

  ghost predicate AllBelong(ss: seq<Step>) {
    forall s :: s in ss ==> Belongs(s)
  }

  ghost predicate ApartFrom(s: Step, ss: seq<Step>) {
    forall t :: t in ss ==> Independent(s.op, t.op)
  }

  /** A transaction may as well come after others of independent entries. */
  lemma {:induction false} PutBack(r: Render, db: DB, s: Step, early: seq<Step>, late: seq<Step>)
    requires db.Valid() && Belongs(s) && AllBelong(early) && ApartFrom(s, early)
    ensures RunSteps(r, db, [s] + (early + late)) == RunSteps(r, db, early + ([s] + late))
    decreases |early|
  {
    if early == [] {
      assert early + late == late && early + ([s] + late) == [s] + late;
    } else {
      var t, more := early[0], early[1..];
      assert t in early && early + late == [t] + (more + late) && early + ([s] + late) == [t] + (more + ([s] + late));
      StepsSwap(r, db, s, t, more + late);
      RunFirst(r, db, t, [s] + (more + late));
      RunFirst(r, db, t, more + ([s] + late));
      PutBack(r, Ran(r, db, t.txn), s, more, late);
    }
  }

  // ---- schedules ---------------------------------------------------------------------------------------------

  /** The transactions of one entry, in order. */
  ghost function OfEntry(ss: seq<Step>, lsn: nat): seq<Step>
    decreases |ss|
  {
    if ss == [] then [] else (if ss[0].lsn == lsn then [ss[0]] else []) + OfEntry(ss[1..], lsn)
  }

  ghost function Others(ss: seq<Step>, lsn: nat): seq<Step>
    decreases |ss|
  {
    if ss == [] then [] else (if ss[0].lsn == lsn then [] else [ss[0]]) + Others(ss[1..], lsn)
  }

  lemma {:induction false} PartsAre(ss: seq<Step>, lsn: nat)
    ensures forall s :: s in OfEntry(ss, lsn) <==> s in ss && s.lsn == lsn
    ensures forall s :: s in Others(ss, lsn) <==> s in ss && s.lsn != lsn
    decreases |ss|
  {
    if ss != [] {
      PartsAre(ss[1..], lsn);
      assert ss == [ss[0]] + ss[1..];
    }
  }

  lemma OthersNext(ss: seq<Step>, lsn: nat)
    requires ss != []
    ensures ss[0].lsn == lsn ==>
              Others(ss, lsn) == Others(ss[1..], lsn) && OfEntry(ss, lsn) == [ss[0]] + OfEntry(ss[1..], lsn)
    ensures ss[0].lsn != lsn ==>
              Others(ss, lsn) == [ss[0]] + Others(ss[1..], lsn) && OfEntry(ss, lsn) == OfEntry(ss[1..], lsn)
    ensures ss[0].lsn != lsn ==> Others(ss, lsn)[1..] == Others(ss[1..], lsn)
  {
  }

  lemma {:induction false} OwnOfOthers(ss: seq<Step>, lsn: nat, l: nat)
    requires l != lsn
    ensures OfEntry(Others(ss, lsn), l) == OfEntry(ss, l)
    decreases |ss|
  {
    if ss != [] {
      OwnOfOthers(ss[1..], lsn, l);
      OthersNext(ss, lsn);
    }
  }

  /** Where a transaction precedes one of an earlier entry, the entries are independent. */
  ghost predicate Precedes(s: Step, rest: seq<Step>) {
    forall t :: t in rest && s.lsn > t.lsn ==> Independent(s.op, t.op)
  }

  ghost predicate Kept(ss: seq<Step>)
    decreases |ss|
  {
    ss == [] || (Precedes(ss[0], ss[1..]) && Kept(ss[1..]))
  }

  lemma {:induction false} OthersKept(ss: seq<Step>, lsn: nat)
    requires Kept(ss)
    ensures Kept(Others(ss, lsn))
    decreases |ss|
  {
    if ss != [] {
      OthersKept(ss[1..], lsn);
      PartsAre(ss[1..], lsn);
      OthersNext(ss, lsn);
    }
  }

  ghost predicate NoneBelow(ss: seq<Step>, lsn: nat) {
    forall s :: s in ss ==> s.lsn >= lsn
  }

  /** The transactions of the first entry may all come first. */
  lemma {:induction false} Gather(r: Render, db: DB, ss: seq<Step>, lsn: nat)
    requires db.Valid() && AllBelong(ss) && Kept(ss) && NoneBelow(ss, lsn)
    ensures RunSteps(r, db, OfEntry(ss, lsn) + Others(ss, lsn)) == RunSteps(r, db, ss)
    decreases |ss|
  {
    if ss != [] {
      var s, rest := ss[0], ss[1..];
      assert s in ss && ss == [s] + rest;
      RunFirst(r, db, s, OfEntry(rest, lsn) + Others(rest, lsn));
      RunFirst(r, db, s, rest);
      Gather(r, Ran(r, db, s.txn), rest, lsn);
      GatherFirst(r, db, ss, lsn);
    }
  }

  lemma GatherFirst(r: Render, db: DB, ss: seq<Step>, lsn: nat)
    requires db.Valid() && ss != [] && AllBelong(ss) && Precedes(ss[0], ss[1..]) && NoneBelow(ss, lsn)
    ensures RunSteps(r, db, OfEntry(ss, lsn) + Others(ss, lsn)) ==
              RunSteps(r, db, [ss[0]] + (OfEntry(ss[1..], lsn) + Others(ss[1..], lsn)))
  {
    GatherLists(ss, lsn);
    if ss[0].lsn != lsn {
      ApartFromFirst(ss, lsn);
      PutBack(r, db, ss[0], OfEntry(ss[1..], lsn), Others(ss[1..], lsn));
    }
  }

  lemma GatherLists(ss: seq<Step>, lsn: nat)
    requires ss != []
    ensures var own, others := OfEntry(ss[1..], lsn), Others(ss[1..], lsn);
            OfEntry(ss, lsn) + Others(ss, lsn) ==
              if ss[0].lsn == lsn then [ss[0]] + (own + others) else own + ([ss[0]] + others)
  {
    OthersNext(ss, lsn);
  }

  lemma ApartFromFirst(ss: seq<Step>, lsn: nat)
    requires ss != [] && AllBelong(ss) && Precedes(ss[0], ss[1..]) && NoneBelow(ss, lsn) && ss[0].lsn != lsn
    ensures Belongs(ss[0]) && AllBelong(OfEntry(ss[1..], lsn)) && ApartFrom(ss[0], OfEntry(ss[1..], lsn))
  {
    PartsAre(ss[1..], lsn);
    assert ss[0] in ss && forall s :: s in ss[1..] ==> s in ss;
  }

  // ---- the transactions of an entry ----------------------------------------------------------------------------

  /** One transaction if both ends are in one shard, else the source's side and then the target's. */
  function EdgeSteps(n: nat, x: Entry, e: Edge): seq<Step>
    requires n > 0
  {
    if e.from % n == e.to % n then [Step(x.lsn, x.op, Write(e.from % n, Then(OutPatch(e), InPatch(e))))]
    else [Step(x.lsn, x.op, Write(e.from % n, OutPatch(e))), Step(x.lsn, x.op, Write(e.to % n, InPatch(e)))]
  }

  function EdgeBatchSteps(n: nat, x: Entry, es: seq<Edge>): seq<Step>
    requires n > 0
  {
    if es == [] then [] else EdgeBatchSteps(n, x, es[..|es| - 1]) + EdgeSteps(n, x, es[|es| - 1])
  }

  /** Always two transactions, even in one shard. */
  function EraseSteps(n: nat, x: Entry, eid: EdgeID, source: NodeID, target: NodeID, name: Str): seq<Step>
    requires n > 0
  {
    [Step(x.lsn, x.op, Write(source % n, EraseOut(eid, source, name))),
     Step(x.lsn, x.op, Write(target % n, EraseIn(eid, target)))]
  }

  /** One transaction for each shard with a node of the batch, in any order. */
  function GroupSteps(n: nat, x: Entry, nodes: seq<(NodeID, Props)>, order: seq<nat>): seq<Step>
    requires n > 0
  {
    if order == [] then []
    else
      var i := order[|order| - 1];
      GroupSteps(n, x, nodes, order[..|order| - 1]) + [Step(x.lsn, x.op, Write(i, NodeBatchPatch(n, i, nodes)))]
  }

  ghost predicate GroupOrder(n: nat, nodes: seq<(NodeID, Props)>, order: seq<nat>)
    requires n > 0
  {
    && (forall a, b :: 0 <= a < b < |order| ==> order[a] != order[b])
    && (forall j {:trigger nodes[j]} :: 0 <= j < |nodes| ==> nodes[j].0 % n in order)
  }

  ghost predicate IsPlan(n: nat, x: Entry, ss: seq<Step>)
    requires n > 0
  {
    match x.op
    case OpAddNodeBatch(nodes) => exists order :: GroupOrder(n, nodes, order) && ss == GroupSteps(n, x, nodes, order)
    case OpAddEdge(e) => ss == EdgeSteps(n, x, e)
    case OpAddEdgeBatch(es) => ss == EdgeBatchSteps(n, x, es)
    case OpDeleteEdge(eid, source, target, name) => ss == EraseSteps(n, x, eid, source, target, name)
    case _ => ss == [Step(x.lsn, x.op, Whole(x.op))]
  }

  lemma RunOne(r: Render, db: DB, s: Step)
    requires db.Valid() && CanRun(db, s.txn)
    ensures RunSteps(r, db, [s]) == Some(Ran(r, db, s.txn))
  {
    RunFirst(r, db, s, []);
    assert [s] + [] == [s];
  }

  lemma RunTwo(r: Render, db: DB, s: Step, t: Step)
    requires db.Valid() && s.txn.Write? && t.txn.Write?
    ensures RunSteps(r, db, [s, t]) == Some(Ran(r, Ran(r, db, s.txn), t.txn))
  {
    RunFirst(r, db, s, [t]);
    RunOne(r, Ran(r, db, s.txn), t);
    assert [s] + [t] == [s, t];
  }

  lemma RanAt(r: Render, db: DB, shard: nat, p: Patch, i: nat)
    requires db.Valid() && i < |db.shards|
    ensures Ran(r, db, Write(shard, p)).shards[i] == if i == shard then Patched(db.shards[i], p) else db.shards[i]
  {
    PatchNothing(db.shards[i]);
  }

  /** Two patches, each in its shard, are what `Then` of them is in every shard. */
  lemma BothRan(r: Render, db: DB, s: nat, p: Patch, t: nat, q: Patch, i: nat)
    requires db.Valid() && i < |db.shards|
    ensures Ran(r, Ran(r, db, Write(s, p)), Write(t, q)).shards[i] ==
              Patched(db.shards[i], Then(if s == i then p else Nothing(), if t == i then q else Nothing()))
  {
    var sh := db.shards[i];
    RanAt(r, db, s, p, i);
    RanAt(r, Ran(r, db, Write(s, p)), t, q, i);
    ThenIsBoth(sh, if s == i then p else Nothing(), if t == i then q else Nothing());
    PatchNothing(sh);
    PatchNothing(Patched(sh, p));
  }

  lemma EdgeStepsRun(r: Render, db: DB, x: Entry, e: Edge)
    requires db.Valid()
    ensures RunSteps(r, db, EdgeSteps(|db.shards|, x, e)) == Some(WriteEdge(db, e))
  {
    if db.Home(e.from) == db.Home(e.to) {
      EdgeRunsInOne(r, db, x, e);
    } else {
      EdgeRunsInTwo(r, db, x, e);
    }
  }

  lemma EdgeRunsInOne(r: Render, db: DB, x: Entry, e: Edge)
    requires db.Valid() && db.Home(e.from) == db.Home(e.to)
    ensures RunSteps(r, db, EdgeSteps(|db.shards|, x, e)) == Some(WriteEdge(db, e))
  {
    var n, w := |db.shards|, WriteEdge(db, e);
    var ss := EdgeSteps(n, x, e);
    RunOne(r, db, ss[0]);
    forall i | 0 <= i < n ensures Ran(r, db, ss[0].txn).shards[i] == w.shards[i] {
      RanAt(r, db, e.from % n, Then(OutPatch(e), InPatch(e)), i);
      WriteEdgeIsPatch(db, e, i);
      SameShardEdge(db.shards[i], n, i, e);
    }
    assert Ran(r, db, ss[0].txn).shards == w.shards;
  }

  lemma EdgeRunsInTwo(r: Render, db: DB, x: Entry, e: Edge)
    requires db.Valid() && db.Home(e.from) != db.Home(e.to)
    ensures RunSteps(r, db, EdgeSteps(|db.shards|, x, e)) == Some(WriteEdge(db, e))
  {
    var n, w := |db.shards|, WriteEdge(db, e);
    var ss := EdgeSteps(n, x, e);
    RunTwo(r, db, ss[0], ss[1]);
    var db2 := Ran(r, Ran(r, db, ss[0].txn), ss[1].txn);
    forall i | 0 <= i < n ensures db2.shards[i] == w.shards[i] {
      BothRan(r, db, e.from % n, OutPatch(e), e.to % n, InPatch(e), i);
      WriteEdgeIsPatch(db, e, i);
    }
    assert db2.shards == w.shards;
  }

  lemma SameShardEdge(sh: Shard, n: nat, i: nat, e: Edge)
    requires n > 0 && e.from % n == e.to % n
    ensures Patched(sh, EdgePatch(n, i, e)) == if e.from % n == i then Patched(sh, Then(OutPatch(e), InPatch(e)))
              else sh
  {
    if e.from % n != i {
      ThenIsBoth(sh, Nothing(), Nothing());
      PatchNothing(sh);
    }
  }

  lemma {:induction false} EdgeBatchStepsRun(r: Render, db: DB, x: Entry, es: seq<Edge>)
    requires db.Valid()
    ensures RunSteps(r, db, EdgeBatchSteps(|db.shards|, x, es)) == Some(ApplyAddEdges(db, es))
  {
    if es != [] {
      var k, n := |es| - 1, |db.shards|;
      EdgeBatchStepsRun(r, db, x, es[..k]);
      RunSplits(r, db, EdgeBatchSteps(n, x, es[..k]), EdgeSteps(n, x, es[k]));
      EdgeStepsRun(r, ApplyAddEdges(db, es[..k]), x, es[k]);
    }
  }

  lemma EraseStepsRun(r: Render, db: DB, x: Entry)
    requires db.Valid() && x.op.OpDeleteEdge?
    ensures RunSteps(r, db, EraseSteps(|db.shards|, x, x.op.eid, x.op.from, x.op.to, x.op.lbl)) ==
              Some(Spread(r, db, x.op))
  {
    var n, op := |db.shards|, x.op;
    var ss := EraseSteps(n, x, op.eid, op.from, op.to, op.lbl);
    RunTwo(r, db, ss[0], ss[1]);
    var db2 := Ran(r, Ran(r, db, ss[0].txn), ss[1].txn);
    forall i | 0 <= i < n ensures db2.shards[i] == Spread(r, db, op).shards[i] {
      BothRan(r, db, op.from % n, EraseOut(op.eid, op.from, op.lbl), op.to % n, EraseIn(op.eid, op.to), i);
      ErasedAt(r, db, op, i);
    }
    assert db2.shards == Spread(r, db, op).shards;
  }

  lemma ErasedAt(r: Render, db: DB, op: Op, i: nat)
    requires db.Valid() && op.OpDeleteEdge? && i < |db.shards|
    ensures Spread(r, db, op).shards[i] ==
              Patched(db.shards[i], ErasePatch(|db.shards|, i, op.eid, op.from, op.to, op.lbl))
  {
  }

  lemma {:induction false} EmptyGroup(n: nat, i: nat, nodes: seq<(NodeID, Props)>)
    requires n > 0 && forall j {:trigger nodes[j]} :: 0 <= j < |nodes| ==> nodes[j].0 % n != i
    ensures NodeBatchPatch(n, i, nodes) == Nothing()
  {
    if nodes != [] {
      EmptyGroup(n, i, nodes[..|nodes| - 1]);
      assert Then(Nothing(), Nothing()) == Nothing();
    }
  }

  /** After the groups of `order` exactly those shards have their nodes. */
  ghost predicate GroupsIn(db: DB, db': DB, nodes: seq<(NodeID, Props)>, order: seq<nat>)
    requires db.Valid()
  {
    && |db'.shards| == |db.shards| && db' == db.(shards := db'.shards)
    && forall i {:trigger db'.shards[i]} :: 0 <= i < |db.shards| ==>
         db'.shards[i] ==
           if i in order then Patched(db.shards[i], NodeBatchPatch(|db.shards|, i, nodes)) else db.shards[i]
  }

  lemma GroupNext(r: Render, db: DB, db': DB, nodes: seq<(NodeID, Props)>, order: seq<nat>, k: nat)
    requires db.Valid() && db'.Valid() && GroupsIn(db, db', nodes, order) && k !in order
    ensures GroupsIn(db, Ran(r, db', Write(k, NodeBatchPatch(|db.shards|, k, nodes))), nodes, order + [k])
  {
    var p := NodeBatchPatch(|db.shards|, k, nodes);
    var db2 := Ran(r, db', Write(k, p));
    forall i {:trigger db2.shards[i]} | 0 <= i < |db.shards|
      ensures db2.shards[i] == if i in order + [k] then Patched(db.shards[i], NodeBatchPatch(|db.shards|, i, nodes))
                else db.shards[i]
    {
      RanAt(r, db', k, p, i);
      assert i in order + [k] <==> i in order || i == k;
      assert db'.shards[i] == if i in order then Patched(db.shards[i], NodeBatchPatch(|db.shards|, i, nodes))
        else db.shards[i];
    }
  }

  lemma {:induction false} GroupStepsRun(r: Render, db: DB, x: Entry, nodes: seq<(NodeID, Props)>, order: seq<nat>)
    requires db.Valid() && forall a, b :: 0 <= a < b < |order| ==> order[a] != order[b]
    ensures var o := RunSteps(r, db, GroupSteps(|db.shards|, x, nodes, order));
            o.Some? && o.value.Valid() && GroupsIn(db, o.value, nodes, order)
  {
    if order != [] {
      var k, n := |order| - 1, |db.shards|;
      var early, i := order[..k], order[k];
      GroupStepsRun(r, db, x, nodes, early);
      var s := Step(x.lsn, x.op, Write(i, NodeBatchPatch(n, i, nodes)));
      var db' := RunSteps(r, db, GroupSteps(n, x, nodes, early)).value;
      RunSplits(r, db, GroupSteps(n, x, nodes, early), [s]);
      RunOne(r, db', s);
      GroupNext(r, db, db', nodes, early, i);
      assert order == early + [i];
    }
  }

  lemma GroupsAreSpread(r: Render, db: DB, db': DB, op: Op, order: seq<nat>)
    requires db.Valid() && op.OpAddNodeBatch? && GroupsIn(db, db', op.nodes, order)
    requires GroupOrder(|db.shards|, op.nodes, order)
    ensures db' == Spread(r, db, op)
  {
    var n := |db.shards|;
    forall i | 0 <= i < n ensures db'.shards[i] == Spread(r, db, op).shards[i] {
      if i !in order {
        EmptyGroup(n, i, op.nodes);
        PatchNothing(db.shards[i]);
      }
    }
    assert db'.shards == Spread(r, db, op).shards;
  }

  /** Run without interruption, the transactions of an entry are the entry. */
  lemma PlanIsEntry(r: Render, db: DB, x: Entry, ss: seq<Step>)
    requires db.Valid() && IsData(x.op) && IsPlan(|db.shards|, x, ss)
    ensures RunSteps(r, db, ss) == ApplyOp(r, db, x.op)
  {
    ApplyIsSpread(r, db, x.op);
    match x.op
    case OpAddNodeBatch(nodes) =>
      var order :| GroupOrder(|db.shards|, nodes, order) && ss == GroupSteps(|db.shards|, x, nodes, order);
      GroupStepsRun(r, db, x, nodes, order);
      GroupsAreSpread(r, db, RunSteps(r, db, ss).value, x.op, order);
    case OpAddEdge(e) => EdgeStepsRun(r, db, x, e);
    case OpAddEdgeBatch(es) => EdgeBatchStepsRun(r, db, x, es);
    case OpDeleteEdge(_, _, _, _) => EraseStepsRun(r, db, x);
    case _ => WholeRun(r, db, x, ss);
  }

  lemma WholeRun(r: Render, db: DB, x: Entry, ss: seq<Step>)
    requires db.Valid() && ss == [Step(x.lsn, x.op, Whole(x.op))]
    ensures RunSteps(r, db, ss) == if Applicable(db, x.op) then Some(Spread(r, db, x.op)) else None
  {
    RunFirst(r, db, ss[0], []);
    assert [ss[0]] + [] == ss;
    assert Ran(r, db, Whole(x.op)).shards == Spread(r, db, x.op).shards;
  }

  /** A plan holds transactions of its entry only. */
  ghost predicate AllOf(x: Entry, ss: seq<Step>) {
    forall s :: s in ss ==> s.lsn == x.lsn && s.op == x.op && Belongs(s)
  }

  lemma AllOfJoined(x: Entry, a: seq<Step>, b: seq<Step>)
    requires AllOf(x, a) && AllOf(x, b)
    ensures AllOf(x, a + b)
  {
  }

  lemma SidesWithin(e: Edge)
    ensures Within(OutPatch(e), {}, {e.id}) && Within(InPatch(e), {}, {e.id}) &&
            Within(Then(OutPatch(e), InPatch(e)), {}, {e.id})
  {
    IndexKeyOwner(e.lbl, e.id);
    ThenWithin(OutPatch(e), InPatch(e), {}, {e.id});
  }

  lemma EdgeStepsOf(n: nat, x: Entry, e: Edge)
    requires n > 0 && IsData(x.op) && e.id in EdgesOf(x.op)
    ensures AllOf(x, EdgeSteps(n, x, e))
  {
    SidesWithin(e);
    WithinMore(OutPatch(e), {}, {e.id}, NodesOf(x.op), EdgesOf(x.op));
    WithinMore(InPatch(e), {}, {e.id}, NodesOf(x.op), EdgesOf(x.op));
    WithinMore(Then(OutPatch(e), InPatch(e)), {}, {e.id}, NodesOf(x.op), EdgesOf(x.op));
  }

  lemma {:induction false} EdgeBatchStepsOf(n: nat, x: Entry, es: seq<Edge>)
    requires n > 0 && IsData(x.op) && forall j {:trigger es[j]} :: 0 <= j < |es| ==> es[j].id in EdgesOf(x.op)
    ensures AllOf(x, EdgeBatchSteps(n, x, es))
  {
    if es != [] {
      EdgeBatchStepsOf(n, x, es[..|es| - 1]);
      EdgeStepsOf(n, x, es[|es| - 1]);
      AllOfJoined(x, EdgeBatchSteps(n, x, es[..|es| - 1]), EdgeSteps(n, x, es[|es| - 1]));
    }
  }

  lemma {:induction false} GroupStepsOf(n: nat, x: Entry, order: seq<nat>)
    requires n > 0 && x.op.OpAddNodeBatch?
    ensures AllOf(x, GroupSteps(n, x, x.op.nodes, order))
  {
    if order != [] {
      var i := order[|order| - 1];
      GroupStepsOf(n, x, order[..|order| - 1]);
      NodeBatchWithin(n, i, x.op.nodes, NodesOf(x.op));
    }
  }

  lemma EraseStepsOf(n: nat, x: Entry)
    requires n > 0 && x.op.OpDeleteEdge?
    ensures AllOf(x, EraseSteps(n, x, x.op.eid, x.op.from, x.op.to, x.op.lbl))
  {
    IndexKeyOwner(x.op.lbl, x.op.eid);
  }

  lemma PlanIsOf(n: nat, x: Entry, ss: seq<Step>)
    requires n > 0 && IsData(x.op) && IsPlan(n, x, ss)
    ensures AllOf(x, ss)
  {
    match x.op
    case OpAddNodeBatch(nodes) =>
      var order :| GroupOrder(n, nodes, order) && ss == GroupSteps(n, x, nodes, order);
      GroupStepsOf(n, x, order);
    case OpAddEdge(e) => EdgeStepsOf(n, x, e);
    case OpAddEdgeBatch(es) => EdgeBatchStepsOf(n, x, es);
    case OpDeleteEdge(_, _, _, _) => EraseStepsOf(n, x);
    case _ =>
  }

  // ---- the theorem ------------------------------------------------------------------------------------------------

  ghost predicate FromLog(es: seq<Entry>, s: Step) {
    exists k {:trigger es[k]} :: 0 <= k < |es| && es[k].lsn == s.lsn
  }

  /** The schedule holds the transactions of every entry, in the entry's order, and no others. */
  ghost predicate Completes(n: nat, es: seq<Entry>, ss: seq<Step>)
    requires n > 0
  {
    && (forall s {:trigger s in ss} :: s in ss ==> FromLog(es, s))
    && (forall k {:trigger es[k]} :: 0 <= k < |es| ==> IsPlan(n, es[k], OfEntry(ss, es[k].lsn)))
  }

  lemma CompletesRest(n: nat, es: seq<Entry>, ss: seq<Step>)
    requires n > 0 && es != [] && InLsnOrder(es) && Completes(n, es, ss)
    ensures Completes(n, es[1..], Others(ss, es[0].lsn)) && NoneBelow(ss, es[0].lsn)
  {
    var l, rest := es[0].lsn, es[1..];
    var others := Others(ss, l);
    PartsAre(ss, l);
    forall s | s in ss ensures s.lsn >= l && (s.lsn != l ==> FromLog(rest, s)) {
      assert FromLog(es, s);
      var k :| 0 <= k < |es| && es[k].lsn == s.lsn;
      if k > 0 {
        assert es[0].lsn < es[k].lsn && rest[k - 1] == es[k];
      }
    }
    forall k {:trigger rest[k]} | 0 <= k < |rest| ensures IsPlan(n, rest[k], OfEntry(others, rest[k].lsn)) {
      assert rest[k] == es[k + 1] && es[0].lsn < es[k + 1].lsn;
      OwnOfOthers(ss, l, rest[k].lsn);
    }
  }

  lemma CompletesOf(n: nat, es: seq<Entry>, ss: seq<Step>)
    requires n > 0 && AllData(es) && Completes(n, es, ss)
    ensures AllBelong(ss)
  {
    forall s | s in ss ensures Belongs(s) {
      assert FromLog(es, s);
      var k :| 0 <= k < |es| && es[k].lsn == s.lsn;
      PlanIsOf(n, es[k], OfEntry(ss, es[k].lsn));
      PartsAre(ss, es[k].lsn);
    }
  }

  /**
   Transactions interleaved in any way that keeps entries on the same record apart and in LSN
   order are accepted exactly when the log is, and end in the sequential state.
   */
  lemma {:induction false} InterleavingIsHarmless(r: Render, db: DB, es: seq<Entry>, ss: seq<Step>)
    requires db.Valid() && AllData(es) && InLsnOrder(es) && Kept(ss)
    requires Completes(|db.shards|, es, ss)
    ensures RunSteps(r, db, ss) == ApplyLog(r, db, es)
    decreases |es|
  {
    if es == [] {
      assert ss != [] ==> ss[0] in ss && FromLog(es, ss[0]);
    } else {
      var x, l := es[0], es[0].lsn;
      var own, others := OfEntry(ss, l), Others(ss, l);
      CompletesRest(|db.shards|, es, ss);
      CompletesOf(|db.shards|, es, ss);
      Gather(r, db, ss, l);
      RunSplits(r, db, own, others);
      PlanIsEntry(r, db, x, own);
      if ApplyOp(r, db, x.op).Some? {
        var db1 := ApplyOp(r, db, x.op).value;
        OthersKept(ss, l);
        InterleavingIsHarmless(r, db1, es[1..], others);
      }
    }
  }
}
