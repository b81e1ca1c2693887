/**
 The concurrent follower end to end: the leader's log, the eight workers, and replay. If
 the workers finish entries on the same record in LSN order, the follower ends with the
 leader's buckets, in whatever order they finish the rest. Here ApplyOp takes effect when it
 returns; Workers takes its transactions apart.
 */
module Pipeline {
  import opened Types
  import opened Store
  import opened Leader
  import opened Applier
  import opened Replay
  import opened Commute
  import opened Indexes
  import opened Redelivery
  import opened Reconnect
  import W = Watermark

  // ---- the order in which workers finish ---------------------------------------------------------------------

  /** The LSNs of the successes from step `j` to step `i`, in order. */
  ghost function Finished(states: seq<W.State>, steps: seq<W.Step>, start: nat, j: nat, i: nat): seq<nat>
    requires W.Run(states, steps, start) && j <= i <= |steps|
    decreases i
  {
    if i == j then []
    else
      assert W.Enabled(states[i - 1], steps[i - 1]);
      Finished(states, steps, start, j, i - 1) + Finishes(states[i - 1], steps[i - 1])
  }

  /** What a step adds to the list of finished LSNs. */
  ghost function Finishes(s: W.State, a: W.Step): seq<nat>
    requires W.Enabled(s, a)
  {
    if a.Succeed? then [s.workers[a.w].lsn] else []
  }

  /** Neither a failure nor a reconnect, and the stream without a gap. */
  predicate SmoothStep(s: W.State, a: W.Step) {
    !a.Fail? && !a.Reconnect? && (a.Receive? ==> a.lsn == s.next)
  }

  /** One connection from `base`, smooth from step `j` to step `i`. */
  ghost predicate Connection(states: seq<W.State>, steps: seq<W.Step>, start: nat, j: nat, i: nat, base: nat) {
    && W.Run(states, steps, start) && j <= i <= |steps| && states[j] == W.Connect(base, states[j].succeeded)
    && forall k {:trigger steps[k]} :: j <= k < i ==> SmoothStep(states[k], steps[k])
  }

  ghost function Own(w: W.Worker): multiset<nat> {
    if w.Applying? then multiset{w.lsn} else multiset{}
  }

  /** The LSNs being applied. */
  ghost function Busy(ws: seq<W.Worker>): multiset<nat> {
    if ws == [] then multiset{} else Busy(ws[..|ws| - 1]) + Own(ws[|ws| - 1])
  }

  lemma {:induction false} BusyHas(ws: seq<W.Worker>, w: nat)
    requires w < |ws|
    ensures Own(ws[w]) <= Busy(ws)
  {
    if w < |ws| - 1 {
      BusyHas(ws[..|ws| - 1], w);
    }
  }

  lemma Regroup(a: multiset<nat>, b: multiset<nat>, x: multiset<nat>, y: multiset<nat>, z: multiset<nat>)
    requires a + x == b + y
    ensures (a + z) + x == (b + z) + y
  {
    assert (a + z) + x == (a + x) + z;
  }

  lemma {:induction false} BusyUpdate(ws: seq<W.Worker>, w: nat, now: W.Worker)
    requires w < |ws|
    ensures Busy(ws[w := now]) + Own(ws[w]) == Busy(ws) + Own(now)
  {
    var ws', n := ws[w := now], |ws| - 1;
    if w < n {
      assert ws'[..n] == ws[..n][w := now];
      BusyUpdate(ws[..n], w, now);
      Regroup(Busy(ws'[..n]), Busy(ws[..n]), Own(ws[w]), Own(now), Own(ws[n]));
    } else {
      assert ws'[..n] == ws[..n];
    }
  }

  /** A worker starts on `l`, finishes it, or does neither. */
  lemma BusyChange(ws: seq<W.Worker>, w: nat, now: W.Worker, l: nat)
    requires w < |ws| && !(ws[w].Applying? && now.Applying?)
    ensures now == W.Applying(l) ==> Busy(ws[w := now]) == Busy(ws) + multiset{l}
    ensures ws[w] == W.Applying(l) ==> Busy(ws) == Busy(ws[w := now]) + multiset{l}
    ensures !ws[w].Applying? && !now.Applying? ==> Busy(ws[w := now]) == Busy(ws)
  {
    BusyUpdate(ws, w, now);
    var a, b := Busy(ws[w := now]), Busy(ws);
    assert a + multiset{} == a && b + multiset{} == b;
  }

  lemma {:induction false} IdleNotBusy(ws: seq<W.Worker>)
    requires forall w {:trigger ws[w]} :: 0 <= w < |ws| ==> !ws[w].Applying?
    ensures Busy(ws) == multiset{}
  {
    if ws != [] {
      IdleNotBusy(ws[..|ws| - 1]);
    }
  }

  ghost function Lsns(base: nat, n: nat): (s: seq<nat>)
    ensures |s| == n
  {
    seq(n, i requires 0 <= i < n => base + 1 + i)
  }

  /** Nothing that was not received has been finished or marked. */
  ghost predicate Bounded(s: W.State, base: nat) {
    && s.applied <= s.tracker.baseline < s.next && base < s.next && (forall l :: l in s.tracker.done ==> l < s.next)
    && (forall w {:trigger s.workers[w]} :: 0 <= w < |s.workers| && s.workers[w].Applied? ==> s.workers[w].lsn < s.next)
  }

  /** All LSNs in the channel, with the workers, or finished. */
  ghost function All(channel: seq<nat>, busy: multiset<nat>, finished: seq<nat>): multiset<nat> {
    multiset(channel) + busy + multiset(finished)
  }

  /** Together they are the LSNs from `base + 1` to `next - 1`, each once. */
  ghost predicate Balanced(c: seq<nat>, b: multiset<nat>, f: seq<nat>, base: nat, next: nat) {
    base < next && All(c, b, f) == multiset(Lsns(base, next - base - 1))
  }

  lemma BalancedReceive(c: seq<nat>, b: multiset<nat>, f: seq<nat>, base: nat, next: nat)
    requires Balanced(c, b, f, base, next)
    ensures Balanced(c + [next], b, f, base, next + 1)
  {
    assert Lsns(base, next - base) == Lsns(base, next - base - 1) + [next];
    assert All(c + [next], b, f) == All(c, b, f) + multiset{next};
  }

  lemma BalancedTake(c: seq<nat>, b: multiset<nat>, f: seq<nat>, base: nat, next: nat)
    requires Balanced(c, b, f, base, next) && c != []
    ensures Balanced(c[1..], b + multiset{c[0]}, f, base, next)
  {
    assert c == [c[0]] + c[1..];
    assert All(c[1..], b + multiset{c[0]}, f) == All(c, b, f);
  }

  lemma BalancedFinish(c: seq<nat>, b: multiset<nat>, f: seq<nat>, l: nat, base: nat, next: nat)
    requires Balanced(c, b + multiset{l}, f, base, next)
    ensures Balanced(c, b, f + [l], base, next)
  {
    assert All(c, b, f + [l]) == All(c, b + multiset{l}, f);
  }

  /** Every LSN received is in the channel, being applied, or finished, exactly once. */
  ghost predicate Accounted(s: W.State, finished: seq<nat>, base: nat) {
    Balanced(s.channel, Busy(s.workers), finished, base, s.next)
  }

  lemma BusyIsReceived(s: W.State, finished: seq<nat>, base: nat, w: nat)
    requires Accounted(s, finished, base) && w < |s.workers| && s.workers[w].Applying?
    ensures s.workers[w].lsn < s.next
  {
    BusyHas(s.workers, w);
    var l := s.workers[w].lsn;
    assert l in Own(s.workers[w]);
    assert l in multiset(Lsns(base, s.next - base - 1));
  }

  lemma StepBounded(s: W.State, a: W.Step, finished: seq<nat>, base: nat, start: nat)
    requires W.Inv(s, start) && W.Enabled(s, a) && SmoothStep(s, a) && Bounded(s, base) && Accounted(s, finished, base)
    ensures Bounded(W.Perform(s, a), base)
  {
    var s' := W.Perform(s, a);
    W.StepKeepsInv(s, a, start);
    if a.Mark? {
      W.DrainStopsAtGap(s.tracker.(done := s.tracker.done + {s.workers[a.w].lsn}));
      assert s'.tracker.baseline == s.tracker.baseline || s'.tracker.baseline in s.tracker.done + {s.workers[a.w].lsn};
    } else if a.Succeed? {
      BusyIsReceived(s, finished, base, a.w);
    }
  }

  lemma ReceiveAccounted(s: W.State, finished: seq<nat>, base: nat)
    requires W.Enabled(s, W.Receive(s.next)) && Bounded(s, base) && Accounted(s, finished, base)
    ensures Accounted(W.Perform(s, W.Receive(s.next)), finished, base)
  {
    BalancedReceive(s.channel, Busy(s.workers), finished, base, s.next);
  }

  lemma TakeAccounted(s: W.State, w: nat, finished: seq<nat>, base: nat)
    requires W.Enabled(s, W.Take(w)) && Accounted(s, finished, base)
    ensures Accounted(W.Perform(s, W.Take(w)), finished, base)
  {
    BusyChange(s.workers, w, W.Applying(s.channel[0]), s.channel[0]);
    BalancedTake(s.channel, Busy(s.workers), finished, base, s.next);
  }

  lemma SucceedAccounted(s: W.State, w: nat, finished: seq<nat>, base: nat)
    requires W.Enabled(s, W.Succeed(w)) && Accounted(s, finished, base)
    ensures Accounted(W.Perform(s, W.Succeed(w)), finished + [s.workers[w].lsn], base)
  {
    var l := s.workers[w].lsn;
    BusyChange(s.workers, w, W.Applied(l), l);
    BalancedFinish(s.channel, Busy(s.workers[w := W.Applied(l)]), finished, l, base, s.next);
  }

  /** A worker that neither starts nor finishes an entry. */
  lemma OtherAccounted(s: W.State, a: W.Step, finished: seq<nat>, base: nat)
    requires W.Enabled(s, a) && (a.Mark? || a.Store? || a.Quit?) && Accounted(s, finished, base)
    ensures Accounted(W.Perform(s, a), finished, base)
  {
    var s' := W.Perform(s, a);
    BusyChange(s.workers, a.w, s'.workers[a.w], 0);
    StillAccounted(s, s', a.w, finished, base);
  }

  lemma StillAccounted(s: W.State, s': W.State, w: nat, finished: seq<nat>, base: nat)
    requires Accounted(s, finished, base) && w < |s.workers| && w < |s'.workers| && s'.channel == s.channel &&
             s'.next == s.next
    requires s'.workers == s.workers[w := s'.workers[w]] && Busy(s.workers[w := s'.workers[w]]) == Busy(s.workers)
    ensures Accounted(s', finished, base)
  {
  }

  lemma StepAccounted(s: W.State, a: W.Step, finished: seq<nat>, base: nat)
    requires W.Enabled(s, a) && SmoothStep(s, a) && Bounded(s, base) && Accounted(s, finished, base)
    ensures Accounted(W.Perform(s, a), finished + Finishes(s, a), base)
  {
    assert !a.Succeed? ==> finished + Finishes(s, a) == finished;
    match a
    case Receive(_) => ReceiveAccounted(s, finished, base);
    case Take(w) => TakeAccounted(s, w, finished, base);
    case Succeed(w) => SucceedAccounted(s, w, finished, base);
    case _ => OtherAccounted(s, a, finished, base);
  }

  lemma {:induction false} RunAccounted(states: seq<W.State>, steps: seq<W.Step>, start: nat, j: nat, i: nat, base: nat)
    requires Connection(states, steps, start, j, i, base)
    ensures Bounded(states[i], base) && Accounted(states[i], Finished(states, steps, start, j, i), base)
    decreases i
  {
    if i == j {
      IdleNotBusy(states[j].workers);
    } else {
      RunAccounted(states, steps, start, j, i - 1, base);
      W.RunKeepsInv(states, steps, start, i - 1);
      var s, a, finished := states[i - 1], steps[i - 1], Finished(states, steps, start, j, i - 1);
      assert W.Enabled(s, a) && SmoothStep(s, a);
      StepBounded(s, a, finished, base, start);
      StepAccounted(s, a, finished, base);
    }
  }

  // ---- the end of a run --------------------------------------------------------------------------------------

  /** Everything received has been applied. */
  predicate Quiet(s: W.State) {
    s.channel == [] && forall w {:trigger s.workers[w]} :: 0 <= w < |s.workers| ==> !s.workers[w].Applying?
  }

  /** A quiet connection has finished every received LSN once. */
  lemma FinishesAll(states: seq<W.State>, steps: seq<W.Step>, start: nat, j: nat, i: nat, base: nat)
    requires Connection(states, steps, start, j, i, base) && Quiet(states[i])
    ensures states[i].next > base &&
            multiset(Finished(states, steps, start, j, i)) == multiset(Lsns(base, states[i].next - base - 1))
  {
    RunAccounted(states, steps, start, j, i, base);
    IdleNotBusy(states[i].workers);
  }

  /** The entry with an LSN. */
  function EntryOf(es: seq<Entry>, base: nat, lsn: nat): Entry
    requires es != []
  {
    if base < lsn <= base + |es| then es[lsn - base - 1] else es[0]
  }

  ghost function Pick(es: seq<Entry>, base: nat, lsns: seq<nat>): (p: seq<Entry>)
    requires es != []
    ensures |p| == |lsns| && forall i :: 0 <= i < |p| ==> p[i] == EntryOf(es, base, lsns[i])
  {
    if lsns == [] then [] else Pick(es, base, lsns[..|lsns| - 1]) + [EntryOf(es, base, lsns[|lsns| - 1])]
  }

  lemma {:induction false} PickJoins(es: seq<Entry>, base: nat, a: seq<nat>, b: seq<nat>)
    requires es != []
    ensures Pick(es, base, a + b) == Pick(es, base, a) + Pick(es, base, b)
  {
  }

  lemma {:induction false} PickPermutes(es: seq<Entry>, base: nat, a: seq<nat>, b: seq<nat>)
    requires es != [] && multiset(a) == multiset(b)
    ensures multiset(Pick(es, base, a)) == multiset(Pick(es, base, b))
    decreases |a|
  {
    if a == [] {
      assert |multiset(b)| == 0;
    } else {
      var n, l := |a| - 1, a[|a| - 1];
      assert a == a[..n] + [l];
      assert l in multiset(b);
      var j :| 0 <= j < |b| && b[j] == l;
      var early, late := b[..j], b[j + 1..];
      assert b == early + [l] + late;
      Without(a[..n], l, early, late);
      PickPermutes(es, base, a[..n], early + late);
      PickJoins(es, base, early + [l], late);
      PickJoins(es, base, early, [l]);
      PickJoins(es, base, early, late);
      PickJoins(es, base, a[..n], [l]);
      Without(Pick(es, base, a[..n]), EntryOf(es, base, l), Pick(es, base, early), Pick(es, base, late));
    }
  }

  /** Two lists are permutations if and only if they still are with one more element each. */
  lemma Without<T>(a: seq<T>, x: T, early: seq<T>, late: seq<T>)
    ensures multiset(a + [x]) == multiset(early + [x] + late) <==> multiset(a) == multiset(early + late)
  {
    assert multiset(early + [x] + late) == multiset(early + late) + multiset{x};
    assert multiset(a) == multiset(a + [x]) - multiset{x} &&
           multiset(early + late) == multiset(early + [x] + late) - multiset{x};
  }

  lemma PickAll(es: seq<Entry>, base: nat)
    requires es != []
    ensures Pick(es, base, Lsns(base, |es|)) == es
  {
  }

  /** The entries in the order in which the connection's workers finish them. */
  ghost function Order(states: seq<W.State>, steps: seq<W.Step>, start: nat, j: nat, i: nat, base: nat,
      es: seq<Entry>): seq<Entry>
    requires W.Run(states, steps, start) && j <= i <= |steps|
  {
    if es == [] then [] else Pick(es, base, Finished(states, steps, start, j, i))
  }

  /**
   The connection has received the entries, all of them and no others, applied them, and kept
   LSN order on each record.
   */
  ghost predicate Delivers(states: seq<W.State>, steps: seq<W.Step>, start: nat, j: nat, i: nat, base: nat,
      es: seq<Entry>) {
    && Connection(states, steps, start, j, i, base) && Quiet(states[i]) && states[i].next == base + |es| + 1
    && OrderKept(Order(states, steps, start, j, i, base, es))
  }

  /** A quiet connection that received as many entries as the log has applies each of them once. */
  lemma OrderPermutes(states: seq<W.State>, steps: seq<W.Step>, start: nat, j: nat, i: nat, base: nat, es: seq<Entry>)
    requires Connection(states, steps, start, j, i, base) && Quiet(states[i]) && states[i].next == base + |es| + 1
    ensures multiset(Order(states, steps, start, j, i, base, es)) == multiset(es)
  {
    if es != [] {
      FinishesAll(states, steps, start, j, i, base);
      PickPermutes(es, base, Finished(states, steps, start, j, i), Lsns(base, |es|));
      PickAll(es, base);
    }
  }

  lemma DeliveryIsHarmless(r: Render, f: DB, states: seq<W.State>, steps: seq<W.Step>, start: nat, j: nat, i: nat,
      base: nat, es: seq<Entry>)
    requires f.Valid() && AllData(es) && InLsnOrder(es) && Delivers(states, steps, start, j, i, base, es)
    ensures ApplyLog(r, f, Order(states, steps, start, j, i, base, es)) == ApplyLog(r, f, es)
  {
    OrderPermutes(states, steps, start, j, i, base, es);
    ReorderingIsHarmless(r, f, es, Order(states, steps, start, j, i, base, es));
  }

  /**
   End to end. The leader makes any calls that log only data entries; the follower starts
   with the leader's buckets and its workers receive that log and apply it, in any
   interleaving without failures, until nothing is left. If entries on the same record
   finished in LSN order, every entry was accepted and the follower has the leader's buckets.
   */
  lemma PipelineFollowsLeader(r: Render, start: DB, calls: seq<Call>, base: nat, f: DB, states: seq<W.State>,
      steps: seq<W.Step>)
    requires Placed(start) && RoomFor(r, start, calls) && f.Valid() && Same(start, f)
    requires AllData(Entries(Run(r, start, calls).1, base))
    requires Delivers(states, steps, base, 0, |steps|, base, Entries(Run(r, start, calls).1, base))
    ensures var o :=
              ApplyLog(r, f, Order(states, steps, base, 0, |steps|, base, Entries(Run(r, start, calls).1, base)));
            o.Some? && Same(Run(r, start, calls).0, o.value)
  {
    var (end, log) := Run(r, start, calls);
    RunChains(r, start, calls);
    SequentialFrom(r, start, log, end, base, 0, f);
    assert Entries(log, base)[0..] == Entries(log, base);
    DeliveryIsHarmless(r, f, states, steps, base, 0, |steps|, base, Entries(log, base));
  }

  // ---- across a reconnect ---------------------------------------------------------------------------------------

  /**
   One run of two connections: the first delivers the first `j` entries of the log and breaks;
   then the workers leave, and the second is opened behind the stored LSN and delivers
   everything after it.
   */
  ghost predicate Reconnects(states: seq<W.State>, steps: seq<W.Step>, base: nat, m: nat, j: nat, es: seq<Entry>) {
    && m < |steps| && |states| == |steps| + 1 && steps[m] == W.Reconnect && j <= |es|
    && Delivers(states, steps, base, 0, m, base, es[..j])
    && base <= states[m].applied <= base + j
    && Delivers(states, steps, base, m + 1, |steps|, states[m].applied, es[states[m].applied - base..])
  }

  /** The stored LSN lies within what was received. */
  lemma StoredWithin(states: seq<W.State>, steps: seq<W.Step>, base: nat, m: nat, es: seq<Entry>)
    requires Delivers(states, steps, base, 0, m, base, es)
    ensures base <= states[m].applied <= base + |es|
  {
    RunAccounted(states, steps, base, 0, m, base);
    W.RunKeepsInv(states, steps, base, m);
  }

  /**
   The second connection accepts everything if and only if the repeated entries, those between
   the stored LSN and the break, have no orphan among them; the follower then ends with the
   leader's buckets up to the order inside label lists, its counters moved by the repeated
   entries once more.
   */
  lemma ReconnectFollowsLeader(
    r: Render, start: DB, calls: seq<Call>, base: nat, f: DB, states: seq<W.State>, steps: seq<W.Step>, m: nat, j: nat,
    staleP: set<Str>, staleC: set<Str>) returns (mid: DB, first: DB, whole: DB)
    requires IndexInv(r, start, staleP, staleC) && Placed(start) && RoomFor(r, start, calls) && f.Valid() &&
             Same(start, f)
    requires AllData(Entries(Run(r, start, calls).1, base))
    requires Reconnects(states, steps, base, m, j, Entries(Run(r, start, calls).1, base))
    ensures
      var es, stored := Entries(Run(r, start, calls).1, base), states[m].applied;
      && ApplyLog(r, f, es) == Some(whole) && Same(Run(r, start, calls).0, whole)
      && ApplyLog(r, f, es[..stored - base]) == Some(mid) && mid.Valid()
      && ApplyLog(r, f, Order(states, steps, base, 0, m, base, es[..j])) == Some(first) && first.Valid()
      && TakenUpAgain(mid, first, whole, es[stored - base..j],
                  ApplyLog(r, first, Order(states, steps, base, m + 1, |steps|, stored, es[stored - base..])))
  {
    var es := Entries(Run(r, start, calls).1, base);
    var k := states[m].applied - base;
    ReconnectedFollower(r, start, calls, base, f, k, j, staleP, staleC);
    whole, mid, first := ApplyLog(r, f, es).value, ApplyLog(r, f, es[..k]).value, ApplyLog(r, f, es[..j]).value;
    BothDeliver(r, f, states, steps, base, m, j, es, first);
  }

  /** Both connections end as if they had applied their entries in order. */
  lemma BothDeliver(r: Render, f: DB, states: seq<W.State>, steps: seq<W.Step>, base: nat, m: nat, j: nat,
      es: seq<Entry>, e: DB)
    requires f.Valid() && AllData(es) && InLsnOrder(es) && Reconnects(states, steps, base, m, j, es)
    requires ApplyLog(r, f, es[..j]) == Some(e) && e.Valid()
    ensures ApplyLog(r, f, Order(states, steps, base, 0, m, base, es[..j])) == Some(e)
    ensures var rest := es[states[m].applied - base..];
            ApplyLog(r, e, Order(states, steps, base, m + 1, |steps|, states[m].applied, rest)) == ApplyLog(r, e, rest)
  {
    Parts(es, states[m].applied - base, j);
    DeliveryIsHarmless(r, f, states, steps, base, 0, m, base, es[..j]);
    RestDelivers(r, states, steps, base, m, j, es, e);
  }

  lemma Parts(es: seq<Entry>, k: nat, j: nat)
    requires AllData(es) && InLsnOrder(es) && k <= j <= |es|
    ensures AllData(es[..j]) && InLsnOrder(es[..j]) && AllData(es[k..]) && InLsnOrder(es[k..])
  {
  }

  lemma RestDelivers(r: Render, states: seq<W.State>, steps: seq<W.Step>, base: nat, m: nat, j: nat, es: seq<Entry>,
      e: DB)
    requires e.Valid() && Reconnects(states, steps, base, m, j, es)
    requires var rest := es[states[m].applied - base..]; AllData(rest) && InLsnOrder(rest)
    ensures var rest := es[states[m].applied - base..];
            ApplyLog(r, e, Order(states, steps, base, m + 1, |steps|, states[m].applied, rest)) == ApplyLog(r, e, rest)
  {
    DeliveryIsHarmless(r, e, states, steps, base, m + 1, |steps|, states[m].applied, es[states[m].applied - base..]);
  }
}
