/**
 The order inside a label list when a stretch of the log is applied twice. Labels that the
 stretch removes and adds again move behind those it leaves alone, so the second pass keeps
 the order of the first exactly where they stand last already, or where the stretch starts
 the list anew.
 */
module LabelOrder {
  import opened Types
  import opened Store
  import opened Leader
  import opened Applier
  import opened Commute
  import opened NodeState
  import opened Reapply
  import opened Settling

  // ---- lists without their other labels ----------------------------------------------------------------

  /** The labels of a list that are among `keep`, in order. */
  ghost function Only(list: seq<Str>, keep: set<Str>): seq<Str> {
    if list == [] then []
    else Only(list[..|list| - 1], keep) + if list[|list| - 1] in keep then [list[|list| - 1]] else []
  }

  lemma {:induction false} OnlyJoins(a: seq<Str>, b: seq<Str>, keep: set<Str>)
    ensures Only(a + b, keep) == Only(a, keep) + Only(b, keep)
  {
    if b == [] {
      assert a + b == a;
    } else {
      var n := |b| - 1;
      assert (a + b)[..|a| + n] == a + b[..n];
      OnlyJoins(a, b[..n], keep);
    }
  }

  lemma {:induction false} OnlyMembers(list: seq<Str>, keep: set<Str>)
    ensures forall l :: l in Only(list, keep) <==> l in list && l in keep
    ensures (forall l :: l in list ==> l in keep) ==> Only(list, keep) == list
    ensures (forall l :: l in list ==> l !in keep) ==> Only(list, keep) == []
  {
    if list != [] {
      var n := |list| - 1;
      OnlyMembers(list[..n], keep);
      assert list == list[..n] + [list[n]];
    }
  }

  /** Two sets that pick the same labels of a list. */
  lemma {:induction false} OnlySame(list: seq<Str>, x: set<Str>, y: set<Str>)
    requires forall l :: l in list ==> (l in x <==> l in y)
    ensures Only(list, x) == Only(list, y)
  {
    if list != [] {
      OnlySame(list[..|list| - 1], x, y);
      assert list[|list| - 1] in list;
    }
  }

  lemma {:induction false} OnlyTwice(list: seq<Str>, x: set<Str>, y: set<Str>)
    ensures Only(Only(list, x), y) == Only(list, x * y)
  {
    if list != [] {
      var n := |list| - 1;
      OnlyTwice(list[..n], x, y);
      var last := if list[n] in x then [list[n]] else [];
      OnlyJoins(Only(list[..n], x), last, y);
      assert Only(last, y) == if list[n] in x * y then [list[n]] else [];
    }
  }

  lemma {:induction false} OnlyKept(list: seq<Str>, names: seq<Str>, keep: set<Str>)
    ensures Only(KeptLabels(list, names), keep) == Only(list, keep - Named(names))
  {
    if list != [] {
      var n := |list| - 1;
      OnlyKept(list[..n], names, keep);
      var last := if list[n] in names then [] else [list[n]];
      OnlyJoins(KeptLabels(list[..n], names), last, keep);
      assert Only(last, keep) == if list[n] in keep - Named(names) then [list[n]] else [];
    }
  }

  /** Which of the labels in `keep` an entry adds depends on the labels in `keep` only. */
  lemma {:induction false} OnlyNew(a: seq<Str>, b: seq<Str>, names: seq<Str>, keep: set<Str>)
    requires forall l :: l in keep ==> (l in a <==> l in b)
    ensures Only(NewLabels(a, names), keep) == Only(NewLabels(b, names), keep)
  {
    if names != [] {
      var n := |names| - 1;
      OnlyNew(a, b, names[..n], keep);
      OnlyJoins(NewLabels(a, names[..n]), if names[n] in a then [] else [names[n]], keep);
      OnlyJoins(NewLabels(b, names[..n]), if names[n] in b then [] else [names[n]], keep);
    }
  }

  ghost function Named(names: seq<Str>): set<Str> {
    set l | l in names
  }

  // ---- what a log does to one list ---------------------------------------------------------------------

  ghost function ListGo(list: seq<Str>, op: Op, id: NodeID): seq<Str> {
    if !IsNodeOp(op) || op.id != id then list
    else if op.OpAddLabel? then list + NewLabels(list, op.names)
    else if op.OpRemoveLabel? then KeptLabels(list, op.names)
    else if op.OpDeleteNode? then []
    else if op.OpAddNodeWithLabels? && op.names != [] then op.names
    else list
  }

  ghost function ListAll(list: seq<Str>, log: seq<Entry>, id: NodeID): seq<Str>
    decreases |log|
  {
    if log == [] then list else ListAll(ListGo(list, log[0].op, id), log[1..], id)
  }

  ghost function RemovedBy(op: Op, id: NodeID): set<Str> {
    if op.OpRemoveLabel? && op.id == id then Named(op.names) else {}
  }

  /** The labels that the log removes from the node at some point. */
  ghost function Removed(log: seq<Entry>, id: NodeID): set<Str>
    decreases |log|
  {
    if log == [] then {} else RemovedBy(log[0].op, id) + Removed(log[1..], id)
  }

  /** An entry that gives the node a list of its own, whatever it had. */
  predicate StartsAnew(op: Op, id: NodeID) {
    IsNodeOp(op) && op.id == id && (op.OpDeleteNode? || (op.OpAddNodeWithLabels? && op.names != []))
  }

  ghost predicate Anew(log: seq<Entry>, id: NodeID) {
    exists j {:trigger log[j]} :: 0 <= j < |log| && StartsAnew(log[j].op, id)
  }

  lemma AnewRest(log: seq<Entry>, id: NodeID)
    requires log != []
    ensures Anew(log, id) <==> StartsAnew(log[0].op, id) || Anew(log[1..], id)
  {
    if Anew(log, id) && !StartsAnew(log[0].op, id) {
      var j :| 0 <= j < |log| && StartsAnew(log[j].op, id);
      assert log[1..][j - 1] == log[j];
    }
    if Anew(log[1..], id) {
      var j :| 0 <= j < |log| - 1 && StartsAnew(log[1..][j].op, id);
      assert log[j + 1] == log[1..][j];
    }
  }

  /** Then the list before does not matter. */
  lemma {:induction false} AnewForgets(a: seq<Str>, b: seq<Str>, log: seq<Entry>, id: NodeID)
    requires a == b || Anew(log, id)
    ensures ListAll(a, log, id) == ListAll(b, log, id)
    decreases |log|
  {
    if log != [] {
      AnewRest(log, id);
      AnewForgets(ListGo(a, log[0].op, id), ListGo(b, log[0].op, id), log[1..], id);
    }
  }

  // ---- the second pass beside the first ------------------------------------------------------------------

  /**
   `a` in the first pass and `b` in the second, when the labels `gone` have been removed so
   far: what is back of them is the same in both, and in `b` it stands behind the labels
   `keep` that are never removed.
   */
  ghost predicate Behind(a: seq<Str>, b: seq<Str>, keep: set<Str>, gone: set<Str>) {
    && keep !! gone && (forall l :: l in keep ==> l in b)
    && Only(b, gone) == Only(a, gone) && Only(b, keep + gone) == Only(b, keep) + Only(b, gone)
  }

  /** An added label is in neither pass's list yet, and one in `keep` is in the second's. */
  lemma AddedHere(b: seq<Str>, keep: set<Str>, gone: set<Str>, names: seq<Str>)
    requires forall l :: l in keep ==> l in b
    ensures var y := NewLabels(b, names); Only(y, keep) == [] && Only(y, keep + gone) == Only(y, gone)
  {
    var y := NewLabels(b, names);
    NewLabelsAre(b, names);
    OnlyMembers(y, keep);
    OnlySame(y, keep + gone, gone);
  }

  lemma BehindAdded(a: seq<Str>, b: seq<Str>, keep: set<Str>, gone: set<Str>, names: seq<Str>)
    requires Behind(a, b, keep, gone)
    ensures var b' := b + NewLabels(b, names);
            Behind(a + NewLabels(a, names), b', keep, gone) && Only(b', keep) == Only(b, keep)
  {
    var x, y := NewLabels(a, names), NewLabels(b, names);
    AddedHere(b, keep, gone, names);
    SameMembers(a, b, gone);
    OnlyNew(a, b, names, gone);
    BehindMore(a, x, b, y, keep, gone);
  }

  lemma BehindMore(a: seq<Str>, x: seq<Str>, b: seq<Str>, y: seq<Str>, keep: set<Str>, gone: set<Str>)
    requires Behind(a, b, keep, gone) && Only(y, keep) == [] && Only(y, keep + gone) == Only(y, gone) == Only(x, gone)
    ensures Behind(a + x, b + y, keep, gone) && Only(b + y, keep) == Only(b, keep)
  {
    OnlyJoins(a, x, gone);
    OnlyJoins(b, y, gone);
    OnlyJoins(b, y, keep);
    OnlyJoins(b, y, keep + gone);
    Regroup(Only(b, keep), Only(b, gone), Only(y, gone));
  }

  lemma Regroup(a: seq<Str>, b: seq<Str>, c: seq<Str>)
    ensures a + b + c == a + (b + c) && a + [] == a
  {
  }

  lemma SameMembers(a: seq<Str>, b: seq<Str>, gone: set<Str>)
    requires Only(b, gone) == Only(a, gone)
    ensures forall l :: l in gone ==> (l in a <==> l in b)
  {
    OnlyMembers(a, gone);
    OnlyMembers(b, gone);
    forall l | l in gone ensures l in a <==> l in b {
      assert l in Only(a, gone) <==> l in Only(b, gone);
    }
  }

  lemma BehindRemoved(a: seq<Str>, b: seq<Str>, keep: set<Str>, gone: set<Str>, names: seq<Str>)
    requires Behind(a, b, keep, gone) && keep !! Named(names)
    ensures var b' := KeptLabels(b, names);
            Behind(KeptLabels(a, names), b', keep, gone + Named(names)) && Only(b', keep) == Only(b, keep)
  {
    var out := Named(names);
    var a', b', less := KeptLabels(a, names), KeptLabels(b, names), gone - out;
    OnlyKept(a, names, gone + out);
    OnlyKept(b, names, gone + out);
    OnlyKept(b, names, keep);
    OnlyKept(b, names, keep + (gone + out));
    assert gone + out - out == less && keep - out == keep && keep + (gone + out) - out == keep + less;
    OnlyTwice(a, gone, less);
    OnlyTwice(b, gone, less);
    assert gone * less == less;
    OnlyTwice(b, keep + gone, keep + less);
    OnlyJoins(Only(b, keep), Only(b, gone), keep + less);
    OnlyTwice(b, keep, keep + less);
    OnlyTwice(b, gone, keep + less);
    assert (keep + gone) * (keep + less) == keep + less && keep * (keep + less) == keep && gone * (keep + less) == less;
    KeptLabelsAre(b, names);
  }

  lemma BehindGo(a: seq<Str>, b: seq<Str>, keep: set<Str>, gone: set<Str>, op: Op, id: NodeID)
    requires Behind(a, b, keep, gone) && keep !! RemovedBy(op, id) && !StartsAnew(op, id)
    ensures var b' := ListGo(b, op, id);
            Behind(ListGo(a, op, id), b', keep, gone + RemovedBy(op, id)) && Only(b', keep) == Only(b, keep)
  {
    if op.OpAddLabel? && op.id == id {
      BehindAdded(a, b, keep, gone, op.names);
      assert gone + {} == gone;
    } else if op.OpRemoveLabel? && op.id == id {
      BehindRemoved(a, b, keep, gone, op.names);
    } else {
      assert gone + {} == gone;
    }
  }

  lemma {:induction false} BehindAll(a: seq<Str>, b: seq<Str>, keep: set<Str>, gone: set<Str>, log: seq<Entry>,
      id: NodeID)
    requires Behind(a, b, keep, gone) && keep !! Removed(log, id) && !Anew(log, id)
    ensures var b' := ListAll(b, log, id);
            Behind(ListAll(a, log, id), b', keep, gone + Removed(log, id)) && Only(b', keep) == Only(b, keep)
    decreases |log|
  {
    if log == [] {
      assert gone + {} == gone;
    } else {
      AnewRest(log, id);
      var out := RemovedBy(log[0].op, id);
      BehindGo(a, b, keep, gone, log[0].op, id);
      BehindAll(ListGo(a, log[0].op, id), ListGo(b, log[0].op, id), keep, gone + out, log[1..], id);
      assert gone + out + Removed(log[1..], id) == gone + Removed(log, id);
    }
  }

  // ---- which lists stay as they are -------------------------------------------------------------------------

  /** Behind a label of `gone` there is none that is not. */
  ghost predicate StandLast(list: seq<Str>, gone: set<Str>) {
    forall p, q :: 0 <= p < q < |list| && list[p] in gone ==> list[q] in gone
  }

  /** Moving the labels `gone` to the end changes nothing exactly if they stand there. */
  lemma {:induction false} MovedExactly(list: seq<Str>, keep: set<Str>, gone: set<Str>)
    requires keep !! gone && forall l :: l in list ==> l in keep + gone
    ensures Only(list, keep) + Only(list, gone) == list <==> StandLast(list, gone)
  {
    if list != [] {
      var n := |list| - 1;
      var early, l := list[..n], list[n];
      assert list == early + [l];
      assert l in list;
      MovedExactly(early, keep, gone);
      if l in gone {
        LastIsGone(early, l, keep, gone);
      } else {
        LastIsKept(early, l, keep, gone);
      }
    }
  }

  lemma LastIsGone(early: seq<Str>, l: Str, keep: set<Str>, gone: set<Str>)
    requires keep !! gone && l in gone
    requires Only(early, keep) + Only(early, gone) == early <==> StandLast(early, gone)
    ensures var list := early + [l]; Only(list, keep) + Only(list, gone) == list <==> StandLast(list, gone)
  {
    var list := early + [l];
    assert list[..|list| - 1] == early;
    assert Only(list, keep) + Only(list, gone) == (Only(early, keep) + Only(early, gone)) + [l];
    assert StandLast(list, gone) <==> StandLast(early, gone) by {
      if StandLast(list, gone) {
        forall p, q | 0 <= p < q < |early| && early[p] in gone ensures early[q] in gone {
          assert list[p] == early[p] && list[q] == early[q];
        }
      }
    }
    if Only(list, keep) + Only(list, gone) == list {
      assert Only(early, keep) + Only(early, gone) == list[..|early|];
    }
  }

  lemma LastIsKept(early: seq<Str>, l: Str, keep: set<Str>, gone: set<Str>)
    requires keep !! gone && l in keep && forall x :: x in early ==> x in keep + gone
    ensures var list := early + [l]; Only(list, keep) + Only(list, gone) == list <==> StandLast(list, gone)
  {
    var list := early + [l];
    assert list[..|list| - 1] == early;
    OnlyMembers(early, gone);
    OnlyMembers(early, keep);
    var moved := Only(list, keep) + Only(list, gone);
    if Only(early, gone) == [] {
      forall x | x in early ensures x !in gone {
        assert x !in Only(early, gone);
      }
    } else {
      var last := Only(early, gone)[|Only(early, gone)| - 1];
      assert moved[|moved| - 1] == last && last in Only(early, gone);
      assert list[|list| - 1] == l != last;
      var p :| 0 <= p < |early| && early[p] == last;
      assert list[p] == last && list[|early|] == l;
    }
  }

  /**
   A list before, after the first pass, and after the second: if the second pass has the same
   labels, it has them in the same order exactly if the log starts the list anew or the
   removed labels stand last.
   */
  lemma ListStaysExactly(was: seq<Str>, log: seq<Entry>, id: NodeID)
    requires var e := ListAll(was, log, id); forall l :: l in e <==> l in ListAll(e, log, id)
    ensures var e := ListAll(was, log, id);
            ListAll(e, log, id) == e <==> Anew(log, id) || StandLast(e, Removed(log, id))
  {
    var e, gone := ListAll(was, log, id), Removed(log, id);
    if Anew(log, id) {
      AnewForgets(was, e, log, id);
    } else {
      var b, keep := ListAll(e, log, id), Named(e) - gone;
      BehindStart(was, e, keep);
      BehindAll(was, e, keep, {}, log, id);
      assert {} + gone == gone;
      OnlyMembers(b, keep + gone);
      MovedExactly(e, keep, gone);
    }
  }

  lemma BehindStart(a: seq<Str>, b: seq<Str>, keep: set<Str>)
    requires forall l :: l in keep ==> l in b
    ensures Behind(a, b, keep, {})
  {
    OnlyMembers(a, {});
    OnlyMembers(b, {});
    assert keep + {} == keep;
  }

  // ---- one shard ------------------------------------------------------------------------------------------------

  lemma {:induction false} ListsGo(c: Place, sh: Shard, log: seq<Entry>, id: NodeID)
    requires c.Valid() && AllData(log) && ReadyAll(c, sh, log) && LabelsOn(sh) && id % c.n == c.i
    ensures LabelsIn(GoAll(c, sh, log).labels, id) == ListAll(LabelsIn(sh.labels, id), log, id)
    decreases |log|
  {
    if log != [] {
      var op := log[0].op;
      Head(c, sh, log);
      ListStep(c, sh, op, id);
      LabelsOnKept(c, sh, op);
      ListsGo(c, Go(c, sh, op), log[1..], id);
    }
  }

  /** The node's list after the first pass is one the second pass leaves as it is. */
  ghost predicate ListInOrder(e: Shard, log: seq<Entry>, id: NodeID) {
    Anew(log, id) || StandLast(LabelsIn(e.labels, id), Removed(log, id))
  }

  lemma ShardListExactly(c: Place, sh: Shard, log: seq<Entry>, id: NodeID)
    requires c.Valid() && AllData(log) && LabelsOk(sh) && FreshAll(c, sh, log) && id % c.n == c.i
    requires ReadyAll(c, sh, log) && ReadyAll(c, GoAll(c, sh, log), log)
    requires SameLabels(GoAll(c, sh, log).labels, GoAll(c, GoAll(c, sh, log), log).labels)
    ensures var e := GoAll(c, sh, log);
            LabelsIn(GoAll(c, e, log).labels, id) == LabelsIn(e.labels, id) <==> ListInOrder(e, log, id)
  {
    var e := GoAll(c, sh, log);
    LabelsOkAll(c, sh, log);
    ListsGo(c, sh, log, id);
    ListsGo(c, e, log, id);
    ListStaysExactly(LabelsIn(sh.labels, id), log, id);
  }

  /** A node of another shard keeps its list. */
  lemma {:induction false} ForeignListStays(c: Place, sh: Shard, log: seq<Entry>, id: NodeID)
    requires c.Valid() && AllData(log) && ReadyAll(c, sh, log) && LabelsOn(sh) && id % c.n != c.i
    ensures LabelsIn(GoAll(c, sh, log).labels, id) == LabelsIn(sh.labels, id)
    decreases |log|
  {
    if log != [] {
      var op := log[0].op;
      Head(c, sh, log);
      ListStep(c, sh, op, id);
      LabelsOnKept(c, sh, op);
      ForeignListStays(c, Go(c, sh, op), log[1..], id);
    }
  }

  ghost predicate ShardInOrder(c: Place, e: Shard, log: seq<Entry>)
    requires c.Valid()
  {
    forall id: NodeID {:trigger ListInOrder(e, log, id)} :: id % c.n == c.i ==> ListInOrder(e, log, id)
  }

  /** A settled shard differs in its counters only, exactly if every list of its nodes stays in order. */
  lemma ShardOrderExactly(c: Place, sh: Shard, log: seq<Entry>)
    requires c.Valid() && AllData(log) && LabelsOk(sh) && FreshAll(c, sh, log)
    requires ReadyAll(c, sh, log) && ReadyAll(c, GoAll(c, sh, log), log)
    requires Settled(sh, GoAll(c, sh, log), GoAll(c, GoAll(c, sh, log), log))
    ensures var e := GoAll(c, sh, log); GoAll(c, e, log) == Doubled(sh, e) <==> ShardInOrder(c, e, log)
  {
    var e := GoAll(c, sh, log);
    var b := GoAll(c, e, log);
    if b.labels == e.labels {
      forall id: NodeID | id % c.n == c.i ensures ListInOrder(e, log, id) {
        ShardListExactly(c, sh, log, id);
      }
    }
    if ShardInOrder(c, e, log) {
      LabelsOkAll(c, sh, log);
      forall id: NodeID ensures LabelsIn(b.labels, id) == LabelsIn(e.labels, id) {
        if id % c.n == c.i {
          assert ListInOrder(e, log, id);
          ShardListExactly(c, sh, log, id);
        } else {
          ForeignListStays(c, e, log, id);
        }
      }
      SameLists(e.labels, b.labels);
    }
  }

  lemma SameLists(m: map<NodeID, seq<Str>>, m': map<NodeID, seq<Str>>)
    requires m.Keys == m'.Keys && forall id: NodeID :: LabelsIn(m', id) == LabelsIn(m, id)
    ensures m' == m
  {
    forall id | id in m ensures m'[id] == m[id] {
      assert LabelsIn(m', id) == LabelsIn(m, id);
    }
  }
}
