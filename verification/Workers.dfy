/**
 The workers of a connection at the grain of transactions. ApplyOp of an entry over several
 shards is several transactions, so finishing entries in LSN order is not enough to keep
 them apart. If an entry is taken only after every earlier entry on the same record has
 succeeded, the follower ends as if it had applied the log in order.
 */
module Workers {
  import opened Types
  import opened Keys
  import opened Store
  import opened Leader
  import opened Applier
  import opened Replay
  import opened Commute
  import opened Indexes
  import opened Redelivery
  import opened Reconnect
  import opened Schedules
  import opened Pipeline
  import W = Watermark

  // ---- transactions along a run -----------------------------------------------------------------

  ghost predicate AppliesAt(s: W.State, l: nat) {
    exists w :: 0 <= w < |s.workers| && s.workers[w] == W.Applying(l)
  }

  predicate InLog(es: seq<Entry>, base: nat, l: nat) {
    base < l <= base + |es|
  }

  /** Two LSNs, the smaller first, whose entries are on the same record. */
  predicate Clash(es: seq<Entry>, base: nat, l: nat, m: nat) {
    l < m && InLog(es, base, l) && InLog(es, base, m) && !Independent(es[l - base - 1].op, es[m - base - 1].op)
  }

  /** A transaction of an entry that a worker is applying. */
  ghost predicate RunsIn(s: W.State, es: seq<Entry>, base: nat, t: Step) {
    AppliesAt(s, t.lsn) && InLog(es, base, t.lsn) && t.op == es[t.lsn - base - 1].op
  }

  /** When ApplyOp returns, the entry's transactions have been run, in order. */
  ghost predicate ReturnsAt(n: nat, s: W.State, a: W.Step, es: seq<Entry>, base: nat, sofar: seq<Step>)
    requires n > 0 && W.Enabled(s, a)
  {
    a.Succeed? && InLog(es, base, s.workers[a.w].lsn) ==>
      IsPlan(n, es[s.workers[a.w].lsn - base - 1], OfEntry(sofar, s.workers[a.w].lsn))
  }

  ghost function Flat(commits: seq<seq<Step>>, j: nat, i: nat): seq<Step>
    requires j <= i <= |commits|
    decreases i
  {
    if i == j then [] else Flat(commits, j, i - 1) + commits[i - 1]
  }

  /** `commits[k]` are the transactions between the steps `k - 1` and `k` of the run. */
  ghost predicate Transacts(n: nat, states: seq<W.State>, steps: seq<W.Step>, start: nat, j: nat, i: nat, base: nat,
      es: seq<Entry>, commits: seq<seq<Step>>)
    requires n > 0
  {
    && W.Run(states, steps, start) && j <= i <= |steps| && |commits| == |steps|
    && (forall k, t {:trigger RunsIn(states[k], es, base, t)} :: j <= k < i && t in commits[k] ==>
          RunsIn(states[k], es, base, t))
    && (forall k {:trigger steps[k]} :: j <= k < i ==>
          ReturnsAt(n, states[k], steps[k], es, base, Flat(commits, j, k + 1)))
  }

  /** A worker takes an entry only when every earlier one on the same record has succeeded. */
  ghost predicate TakesAt(s: W.State, a: W.Step, es: seq<Entry>, base: nat, finished: seq<nat>)
    requires W.Enabled(s, a)
  {
    a.Take? ==> forall l {:trigger Clash(es, base, l, s.channel[0])} :: Clash(es, base, l, s.channel[0]) ==>
      l in finished
  }

  ghost predicate TakesInTurn(states: seq<W.State>, steps: seq<W.Step>, start: nat, j: nat, i: nat, base: nat,
      es: seq<Entry>)
  {
    && W.Run(states, steps, start) && j <= i <= |steps|
    && forall k {:trigger steps[k]} :: j <= k < i ==>
         TakesAt(states[k], steps[k], es, base, Finished(states, steps, start, j, k))
  }

  // ---- what every step keeps --------------------------------------------------------------------

  ghost predicate Started(s: W.State, finished: seq<nat>, l: nat) {
    l in finished || AppliesAt(s, l)
  }

  ghost predicate Noted(s: W.State, es: seq<Entry>, base: nat, finished: seq<nat>, t: Step) {
    Started(s, finished, t.lsn) && InLog(es, base, t.lsn) && t.op == es[t.lsn - base - 1].op
  }

  ghost predicate Planned(n: nat, es: seq<Entry>, base: nat, sofar: seq<Step>, l: nat)
    requires n > 0
  {
    InLog(es, base, l) ==> IsPlan(n, es[l - base - 1], OfEntry(sofar, l))
  }

  /** Behind every entry that was started, all it clashes with are finished. */
  ghost predicate Cleared(s: W.State, es: seq<Entry>, base: nat, finished: seq<nat>) {
    forall l, m {:trigger Clash(es, base, l, m)} :: Clash(es, base, l, m) && Started(s, finished, m) ==> l in finished
  }

  ghost predicate Grain(n: nat, s: W.State, es: seq<Entry>, base: nat, finished: seq<nat>, sofar: seq<Step>)
    requires n > 0
  {
    && (forall t {:trigger t in sofar} :: t in sofar ==> Noted(s, es, base, finished, t))
    && (forall l {:trigger l in finished} :: l in finished ==> Planned(n, es, base, sofar, l))
    && Cleared(s, es, base, finished) && Kept(sofar)
  }

  lemma {:induction false} LsnsOnce(base: nat, k: nat, l: nat)
    ensures multiset(Lsns(base, k))[l] <= 1 && (l in multiset(Lsns(base, k)) <==> base < l <= base + k)
    decreases k
  {
    if k > 0 {
      LsnsOnce(base, k - 1, l);
      assert Lsns(base, k) == Lsns(base, k - 1) + [base + k];
    }
  }

  lemma NotBoth(s: W.State, finished: seq<nat>, base: nat, l: nat)
    requires Accounted(s, finished, base) && AppliesAt(s, l)
    ensures l !in finished
  {
    ItsLsnIsBusy(s, l);
    OneOfThem(s.channel, Busy(s.workers), finished, base, s.next, l);
  }

  lemma ItsLsnIsBusy(s: W.State, l: nat)
    requires AppliesAt(s, l)
    ensures Busy(s.workers)[l] >= 1
  {
    var w :| 0 <= w < |s.workers| && s.workers[w] == W.Applying(l);
    BusyHas(s.workers, w);
    assert Own(s.workers[w]) == multiset{l};
    assert multiset{l}[l] == 1;
  }

  lemma OneOfThem(channel: seq<nat>, busy: multiset<nat>, finished: seq<nat>, base: nat, next: nat, l: nat)
    requires Balanced(channel, busy, finished, base, next) && busy[l] >= 1
    ensures l !in finished
  {
    LsnsOnce(base, next - base - 1, l);
    assert All(channel, busy, finished)[l] == multiset(channel)[l] + busy[l] + multiset(finished)[l];
  }

  // ---- a transaction ----------------------------------------------------------------------------

  ghost predicate InTurn(s: Step, t: Step) {
    s.lsn > t.lsn ==> Independent(s.op, t.op)
  }

  lemma {:induction false} KeptJoin(a: seq<Step>, b: seq<Step>)
    requires Kept(a) && Kept(b) && forall s, t {:trigger InTurn(s, t)} :: s in a && t in b ==> InTurn(s, t)
    ensures Kept(a + b)
    decreases |a|
  {
    if a == [] {
      assert a + b == b;
    } else {
      KeptJoin(a[1..], b);
      assert (a + b)[0] == a[0] && (a + b)[1..] == a[1..] + b && a[0] in a;
      forall t | t in a[1..] + b && a[0].lsn > t.lsn ensures Independent(a[0].op, t.op) {
        assert t in b ==> InTurn(a[0], t);
      }
    }
  }

  lemma {:induction false} KeptAll(b: seq<Step>)
    requires forall s, t {:trigger InTurn(s, t)} :: s in b && t in b ==> InTurn(s, t)
    ensures Kept(b)
    decreases |b|
  {
    if b != [] {
      KeptAll(b[1..]);
      forall t | t in b[1..] && b[0].lsn > t.lsn ensures Independent(b[0].op, t.op) {
        assert b[0] in b && t in b && InTurn(b[0], t);
      }
    }
  }

  lemma {:induction false} OfEntryJoins(a: seq<Step>, b: seq<Step>, l: nat)
    requires forall t :: t in b ==> t.lsn != l
    ensures OfEntry(a + b, l) == OfEntry(a, l)
    decreases |a| + |b|
  {
    if a != [] {
      assert (a + b)[0] == a[0] && (a + b)[1..] == a[1..] + b;
      OfEntryJoins(a[1..], b, l);
    } else if b != [] {
      assert a + b == b && [] + b[1..] == b[1..] && b[0] in b;
      OfEntryJoins([], b[1..], l);
    }
  }

  /** What is running now clashes with nothing earlier that is running or to come. */
  lemma RunsInTurn(s: W.State, es: seq<Entry>, base: nat, finished: seq<nat>, x: Step, t: Step)
    requires Accounted(s, finished, base) && Cleared(s, es, base, finished)
    requires Noted(s, es, base, finished, x) && RunsIn(s, es, base, t)
    ensures InTurn(x, t)
  {
    NotBoth(s, finished, base, t.lsn);
    assert !Clash(es, base, t.lsn, x.lsn);
  }

  lemma CommitKeeps(n: nat, s: W.State, es: seq<Entry>, base: nat, finished: seq<nat>, sofar: seq<Step>,
      now: seq<Step>)
    requires n > 0 && Grain(n, s, es, base, finished, sofar) && Accounted(s, finished, base)
    requires forall t {:trigger RunsIn(s, es, base, t)} :: t in now ==> RunsIn(s, es, base, t)
    ensures Grain(n, s, es, base, finished, sofar + now)
  {
    forall t | t in now ensures Noted(s, es, base, finished, t) && t.lsn !in finished {
      assert RunsIn(s, es, base, t);
      NotBoth(s, finished, base, t.lsn);
    }
    forall l | l in finished ensures Planned(n, es, base, sofar + now, l) {
      assert Planned(n, es, base, sofar, l);
      OfEntryJoins(sofar, now, l);
    }
    forall x, t | (x in sofar || x in now) && t in now ensures InTurn(x, t) {
      assert RunsIn(s, es, base, t);
      RunsInTurn(s, es, base, finished, x, t);
    }
    KeptAll(now);
    KeptJoin(sofar, now);
  }

  // ---- a step of a worker -----------------------------------------------------------------------

  lemma AppliesAfter(s: W.State, a: W.Step, l: nat)
    requires W.Enabled(s, a) && SmoothStep(s, a)
    ensures AppliesAt(W.Perform(s, a), l) ==> AppliesAt(s, l) || (a.Take? && l == s.channel[0])
    ensures AppliesAt(s, l) ==> AppliesAt(W.Perform(s, a), l) || (a.Succeed? && l == s.workers[a.w].lsn)
  {
    var s' := W.Perform(s, a);
    if AppliesAt(s', l) {
      var w :| 0 <= w < |s'.workers| && s'.workers[w] == W.Applying(l);
      assert s.workers[w] == s'.workers[w] || (a.Take? && w == a.w);
    }
    if AppliesAt(s, l) {
      var w :| 0 <= w < |s.workers| && s.workers[w] == W.Applying(l);
      assert s.workers[w] == s'.workers[w] || (a.Succeed? && w == a.w);
    }
  }

  lemma SucceedsAt(s: W.State, a: W.Step)
    requires W.Enabled(s, a) && a.Succeed?
    ensures AppliesAt(s, s.workers[a.w].lsn)
  {
    assert s.workers[a.w] == W.Applying(s.workers[a.w].lsn);
  }

  lemma StartedAfter(s: W.State, a: W.Step, finished: seq<nat>, l: nat)
    requires W.Enabled(s, a) && SmoothStep(s, a)
    ensures Started(W.Perform(s, a), finished + Finishes(s, a), l) ==>
              Started(s, finished, l) || (a.Take? && l == s.channel[0])
    ensures Started(s, finished, l) ==> Started(W.Perform(s, a), finished + Finishes(s, a), l)
  {
    AppliesAfter(s, a, l);
    if a.Succeed? {
      SucceedsAt(s, a);
    }
  }

  lemma MoveKeeps(n: nat, s: W.State, a: W.Step, es: seq<Entry>, base: nat, finished: seq<nat>, sofar: seq<Step>)
    requires n > 0 && W.Enabled(s, a) && SmoothStep(s, a) && Grain(n, s, es, base, finished, sofar)
    requires ReturnsAt(n, s, a, es, base, sofar) && TakesAt(s, a, es, base, finished)
    ensures Grain(n, W.Perform(s, a), es, base, finished + Finishes(s, a), sofar)
  {
    var s', done := W.Perform(s, a), finished + Finishes(s, a);
    forall t | t in sofar ensures Noted(s', es, base, done, t) {
      assert Noted(s, es, base, finished, t);
      StartedAfter(s, a, finished, t.lsn);
    }
    forall l | l in done ensures Planned(n, es, base, sofar, l) {
      assert l in finished || (a.Succeed? && l == s.workers[a.w].lsn);
      assert l in finished ==> Planned(n, es, base, sofar, l);
    }
    forall l, m | Clash(es, base, l, m) && Started(s', done, m) ensures l in done {
      StartedAfter(s, a, finished, m);
      assert l in finished;
    }
  }

  // ---- a whole connection -----------------------------------------------------------------------

  /** A connection with its transactions, whose workers take entries in turn. */
  ghost predicate Ordered(n: nat, states: seq<W.State>, steps: seq<W.Step>, start: nat, j: nat, i: nat, base: nat,
      es: seq<Entry>, commits: seq<seq<Step>>)
    requires n > 0
  {
    && Connection(states, steps, start, j, i, base) && Transacts(n, states, steps, start, j, i, base, es, commits)
    && TakesInTurn(states, steps, start, j, i, base, es)
  }

  lemma OneStepBack(n: nat, states: seq<W.State>, steps: seq<W.Step>, start: nat, j: nat, i: nat, base: nat,
      es: seq<Entry>, commits: seq<seq<Step>>)
    requires n > 0 && Ordered(n, states, steps, start, j, i, base, es, commits) && j < i
    ensures Ordered(n, states, steps, start, j, i - 1, base, es, commits)
    ensures var s, a := states[i - 1], steps[i - 1];
            && W.Enabled(s, a) && SmoothStep(s, a) && states[i] == W.Perform(s, a)
            && (forall t {:trigger RunsIn(s, es, base, t)} :: t in commits[i - 1] ==> RunsIn(s, es, base, t))
            && ReturnsAt(n, s, a, es, base, Flat(commits, j, i))
            && TakesAt(s, a, es, base, Finished(states, steps, start, j, i - 1))
  {
  }

  lemma {:induction false} RunKeepsGrain(n: nat, states: seq<W.State>, steps: seq<W.Step>, start: nat, j: nat, i: nat,
      base: nat, es: seq<Entry>, commits: seq<seq<Step>>)
    requires n > 0 && Ordered(n, states, steps, start, j, i, base, es, commits)
    ensures Grain(n, states[i], es, base, Finished(states, steps, start, j, i), Flat(commits, j, i))
    decreases i
  {
    if i > j {
      var k := i - 1;
      OneStepBack(n, states, steps, start, j, i, base, es, commits);
      RunKeepsGrain(n, states, steps, start, j, k, base, es, commits);
      RunAccounted(states, steps, start, j, k, base);
      GrainNext(n, states[k], steps[k], es, base, Finished(states, steps, start, j, k), Flat(commits, j, k),
                commits[k]);
    }
  }

  /** Some transactions and a step behind them. */
  lemma GrainNext(n: nat, s: W.State, a: W.Step, es: seq<Entry>, base: nat, finished: seq<nat>, sofar: seq<Step>,
      now: seq<Step>)
    requires n > 0 && W.Enabled(s, a) && SmoothStep(s, a)
    requires Grain(n, s, es, base, finished, sofar) && Accounted(s, finished, base)
    requires forall t {:trigger RunsIn(s, es, base, t)} :: t in now ==> RunsIn(s, es, base, t)
    requires ReturnsAt(n, s, a, es, base, sofar + now) && TakesAt(s, a, es, base, finished)
    ensures Grain(n, W.Perform(s, a), es, base, finished + Finishes(s, a), sofar + now)
  {
    CommitKeeps(n, s, es, base, finished, sofar, now);
    MoveKeeps(n, s, a, es, base, finished, sofar + now);
  }

  /** Everything received has been applied, transaction by transaction. */
  ghost predicate DeliversInTurn(n: nat, states: seq<W.State>, steps: seq<W.Step>, start: nat, j: nat, i: nat,
      base: nat, es: seq<Entry>, commits: seq<seq<Step>>)
    requires n > 0
  {
    && Ordered(n, states, steps, start, j, i, base, es, commits)
    && Quiet(states[i]) && states[i].next == base + |es| + 1
  }

  ghost predicate Numbered(es: seq<Entry>, base: nat) {
    forall k {:trigger es[k]} :: 0 <= k < |es| ==> es[k].lsn == base + 1 + k
  }

  lemma QuietCompletes(n: nat, s: W.State, es: seq<Entry>, base: nat, finished: seq<nat>, sofar: seq<Step>)
    requires n > 0 && Grain(n, s, es, base, finished, sofar) && Quiet(s) && Numbered(es, base)
    requires multiset(finished) == multiset(Lsns(base, |es|))
    ensures Completes(n, es, sofar)
  {
    forall t | t in sofar ensures FromLog(es, t) {
      assert Noted(s, es, base, finished, t);
      assert es[t.lsn - base - 1].lsn == t.lsn;
    }
    forall k {:trigger es[k]} | 0 <= k < |es| ensures IsPlan(n, es[k], OfEntry(sofar, es[k].lsn)) {
      LsnsOnce(base, |es|, es[k].lsn);
      assert es[k].lsn in multiset(finished);
      assert es[k].lsn in finished && Planned(n, es, base, sofar, es[k].lsn);
    }
  }

  /**
   Whatever the interleaving of its transactions, a connection that takes entries in turn
   accepts the log exactly when it is accepted in order, and ends in the same state.
   */
  lemma TurnsAreHarmless(r: Render, f: DB, states: seq<W.State>, steps: seq<W.Step>, start: nat, j: nat, i: nat,
      base: nat, es: seq<Entry>, commits: seq<seq<Step>>)
    requires f.Valid() && AllData(es) && Numbered(es, base)
    requires DeliversInTurn(|f.shards|, states, steps, start, j, i, base, es, commits)
    ensures RunSteps(r, f, Flat(commits, j, i)) == ApplyLog(r, f, es)
  {
    var n := |f.shards|;
    RunKeepsGrain(n, states, steps, start, j, i, base, es, commits);
    FinishesAll(states, steps, start, j, i, base);
    QuietCompletes(n, states[i], es, base, Finished(states, steps, start, j, i), Flat(commits, j, i));
    InterleavingIsHarmless(r, f, es, Flat(commits, j, i));
  }

  /**
   The leader makes any calls that log data entries, and the workers receive that log and run
   its transactions in any interleaving without failures. If entries are taken in turn, every
   transaction is accepted and the follower has the leader's buckets.
   */
  lemma WorkersFollowLeader(r: Render, start: DB, calls: seq<Call>, base: nat, f: DB, states: seq<W.State>,
      steps: seq<W.Step>, commits: seq<seq<Step>>)
    requires Placed(start) && RoomFor(r, start, calls) && f.Valid() && Same(start, f)
    requires AllData(Entries(Run(r, start, calls).1, base))
    requires DeliversInTurn(|f.shards|, states, steps, base, 0, |steps|, base, Entries(Run(r, start, calls).1, base),
                            commits)
    ensures var o := RunSteps(r, f, Flat(commits, 0, |steps|)); o.Some? && Same(Run(r, start, calls).0, o.value)
  {
    var (end, log) := Run(r, start, calls);
    RunChains(r, start, calls);
    SequentialFrom(r, start, log, end, base, 0, f);
    assert Entries(log, base)[0..] == Entries(log, base);
    TurnsAreHarmless(r, f, states, steps, base, 0, |steps|, base, Entries(log, base), commits);
  }

  /** One run of two connections, the second opened behind the stored LSN, at the same grain. */
  ghost predicate ReconnectsInTurn(n: nat, states: seq<W.State>, steps: seq<W.Step>, base: nat, m: nat, j: nat,
      es: seq<Entry>, commits: seq<seq<Step>>)
    requires n > 0
  {
    && m < |steps| && |states| == |steps| + 1 && steps[m] == W.Reconnect && j <= |es|
    && DeliversInTurn(n, states, steps, base, 0, m, base, es[..j], commits)
    && base <= states[m].applied <= base + j
    && DeliversInTurn(n, states, steps, base, m + 1, |steps|, states[m].applied, es[states[m].applied - base..],
                      commits)
  }

  /**
   The first connection breaks after `j` entries. The second accepts everything if and only if
   the repeated entries have no orphan among them, and then ends with the leader's buckets up
   to the order inside label lists, the counters moved by the repeated entries once more.
   */
  lemma ReconnectInTurn(r: Render, start: DB, calls: seq<Call>, base: nat, f: DB, states: seq<W.State>,
      steps: seq<W.Step>, m: nat, j: nat, commits: seq<seq<Step>>, staleP: set<Str>, staleC: set<Str>)
    returns (mid: DB, first: DB, whole: DB)
    requires IndexInv(r, start, staleP, staleC) && Placed(start) && RoomFor(r, start, calls) && f.Valid() &&
             Same(start, f)
    requires AllData(Entries(Run(r, start, calls).1, base))
    requires ReconnectsInTurn(|f.shards|, states, steps, base, m, j, Entries(Run(r, start, calls).1, base), commits)
    ensures
      var es, stored := Entries(Run(r, start, calls).1, base), states[m].applied;
      && ApplyLog(r, f, es) == Some(whole) && Same(Run(r, start, calls).0, whole)
      && ApplyLog(r, f, es[..stored - base]) == Some(mid) && mid.Valid()
      && RunSteps(r, f, Flat(commits, 0, m)) == Some(first) && first.Valid()
      && TakenUpAgain(mid, first, whole, es[stored - base..j], RunSteps(r, first, Flat(commits, m + 1, |steps|)))
  {
    var es := Entries(Run(r, start, calls).1, base);
    var k := states[m].applied - base;
    ReconnectedFollower(r, start, calls, base, f, k, j, staleP, staleC);
    whole, mid, first := ApplyLog(r, f, es).value, ApplyLog(r, f, es[..k]).value, ApplyLog(r, f, es[..j]).value;
    EntriesNumbered(Run(r, start, calls).1, base);
    BothInTurn(r, f, states, steps, base, m, j, es, commits, first);
  }

  lemma EntriesNumbered(log: seq<Logged>, base: nat)
    ensures Numbered(Entries(log, base), base)
  {
  }

  lemma BothInTurn(r: Render, f: DB, states: seq<W.State>, steps: seq<W.Step>, base: nat, m: nat, j: nat,
      es: seq<Entry>, commits: seq<seq<Step>>, e: DB)
    requires f.Valid() && AllData(es) && Numbered(es, base)
    requires ReconnectsInTurn(|f.shards|, states, steps, base, m, j, es, commits)
    requires ApplyLog(r, f, es[..j]) == Some(e) && e.Valid() && |e.shards| == |f.shards|
    ensures RunSteps(r, f, Flat(commits, 0, m)) == Some(e)
    ensures RunSteps(r, e, Flat(commits, m + 1, |steps|)) == ApplyLog(r, e, es[states[m].applied - base..])
  {
    var k := states[m].applied - base;
    NumberedParts(es, base, k, j);
    TurnsAreHarmless(r, f, states, steps, base, 0, m, base, es[..j], commits);
    TurnsAreHarmless(r, e, states, steps, base, m + 1, |steps|, base + k, es[k..], commits);
  }

  lemma NumberedParts(es: seq<Entry>, base: nat, k: nat, j: nat)
    requires AllData(es) && Numbered(es, base) && k <= j <= |es|
    ensures AllData(es[..j]) && Numbered(es[..j], base) && AllData(es[k..]) && Numbered(es[k..], base + k)
  {
    forall i {:trigger es[k..][i]} | 0 <= i < |es[k..]| ensures es[k..][i].lsn == base + k + 1 + i {
      assert es[k..][i] == es[k + i];
    }
  }

  // ---- finishing in LSN order is not enough -----------------------------------------------------

  /** An edge from node 2 to node 1, added and deleted. */
  const Passing: Edge := Edge(1, 2, 1, [], map[])
  const Added: Entry := Entry(1, OpAddEdge(Passing))
  const Deleted: Entry := Entry(2, OpDeleteEdge(1, 2, 1, []))

  /** Over two shards: the deletion runs whole between the two transactions of the addition. */
  function Raced(): seq<Step> {
    [Step(1, Added.op, Write(0, OutPatch(Passing))), Step(2, Deleted.op, Write(0, EraseOut(1, 2, []))),
     Step(2, Deleted.op, Write(1, EraseIn(1, 1))), Step(1, Added.op, Write(1, InPatch(Passing)))]
  }

  lemma RacedPlans()
    ensures IsPlan(2, Added, OfEntry(Raced(), 1)) && IsPlan(2, Deleted, OfEntry(Raced(), 2))
  {
    var ss := Raced();
    OfFour(ss[0], ss[1], ss[2], ss[3], 1);
    OfFour(ss[0], ss[1], ss[2], ss[3], 2);
    assert ss == [ss[0]] + ([ss[1]] + ([ss[2]] + [ss[3]]));
  }

  lemma OfFirst(s: Step, rest: seq<Step>, l: nat)
    ensures OfEntry([s] + rest, l) == (if s.lsn == l then [s] else []) + OfEntry(rest, l)
  {
    assert ([s] + rest)[1..] == rest;
  }

  lemma OfFour(a: Step, b: Step, c: Step, d: Step, l: nat)
    ensures var ss := OfEntry([a] + ([b] + ([c] + [d])), l);
            && (a.lsn == d.lsn == l && b.lsn != l && c.lsn != l ==> ss == [a, d])
            && (b.lsn == c.lsn == l && a.lsn != l && d.lsn != l ==> ss == [b, c])
  {
    OfFirst(a, [b] + ([c] + [d]), l);
    OfFirst(b, [c] + [d], l);
    OfFirst(c, [d], l);
    OfFirst(d, [], l);
    assert [d] + [] == [d];
  }

  lemma RacedLeaves(r: Render, db: DB)
    requires db.Valid() && |db.shards| == 2
    ensures var o := RunSteps(r, db, Raced()); o.Some? && |o.value.shards| == 2 && (1, 1) in o.value.shards[1].adjIn
  {
    var ss := Raced();
    assert ss == ss[..3] + [ss[3]];
    RunSplits(r, db, ss[..3], [ss[3]]);
    WritesRun(r, db, ss[..3]);
    var db3 := RunSteps(r, db, ss[..3]).value;
    RunOne(r, db3, ss[3]);
    RanAt(r, db3, 1, InPatch(Passing), 1);
  }

  lemma {:induction false} WritesRun(r: Render, db: DB, ss: seq<Step>)
    requires db.Valid() && forall s :: s in ss ==> s.txn.Write?
    ensures RunSteps(r, db, ss).Some?
    decreases |ss|
  {
    if ss != [] {
      assert ss[0] in ss;
      WritesRun(r, Ran(r, db, ss[0].txn), ss[1..]);
    }
  }

  lemma InOrderLeavesNone(r: Render, db: DB)
    requires db.Valid() && |db.shards| == 2
    ensures var o := ApplyLog(r, db, [Added] + [Deleted]);
            o.Some? && |o.value.shards| == 2 && (1, 1) !in o.value.shards[1].adjIn
  {
    var db1 := ApplyOp(r, db, Added.op).value;
    ApplyFirst(r, db, Added, [Deleted]);
    ApplyFirst(r, db1, Deleted, []);
    assert [Deleted] + [] == [Deleted];
  }

  /** Both entries are received, taken and finished in LSN order. */
  lemma TwoWorkers() returns (states: seq<W.State>, steps: seq<W.Step>)
    ensures steps == [W.Receive(1), W.Receive(2), W.Take(0), W.Take(1), W.Succeed(0), W.Succeed(1)]
    ensures W.Run(states, steps, 0) && Connection(states, steps, 0, 0, 6, 0) && Quiet(states[6]) && states[6].next == 3
    ensures |states[4].workers| == |states[5].workers| == W.WORKERS && states[5].workers[1] == W.Applying(2)
    ensures states[4].workers[0] == W.Applying(1) && states[4].workers[1] == W.Applying(2)
  {
    var s0 := W.Connect(0, {});
    var s1 := W.Perform(s0, W.Receive(1));
    var s2 := W.Perform(s1, W.Receive(2));
    assert s2.channel == [1, 2];
    var s3 := W.Perform(s2, W.Take(0));
    assert s3.channel == [2];
    var s4 := W.Perform(s3, W.Take(1));
    var s5 := W.Perform(s4, W.Succeed(0));
    var s6 := W.Perform(s5, W.Succeed(1));
    states, steps := [s0, s1, s2, s3, s4, s5, s6],
      [W.Receive(1), W.Receive(2), W.Take(0), W.Take(1), W.Succeed(0), W.Succeed(1)];
  }

  lemma FinishedNext(states: seq<W.State>, steps: seq<W.Step>, start: nat, i: nat)
    requires W.Run(states, steps, start) && i < |steps|
    ensures W.Enabled(states[i], steps[i])
    ensures Finished(states, steps, start, 0, i + 1) ==
              Finished(states, steps, start, 0, i) + Finishes(states[i], steps[i])
  {
  }

  lemma TwoFinished(states: seq<W.State>, steps: seq<W.Step>)
    requires steps == [W.Receive(1), W.Receive(2), W.Take(0), W.Take(1), W.Succeed(0), W.Succeed(1)]
    requires W.Run(states, steps, 0) && |states[4].workers| == |states[5].workers| == W.WORKERS
    requires states[4].workers[0] == W.Applying(1) && states[5].workers[1] == W.Applying(2)
    ensures Finished(states, steps, 0, 0, 6) == [1, 2]
  {
    FinishedNext(states, steps, 0, 0);
    FinishedNext(states, steps, 0, 1);
    FinishedNext(states, steps, 0, 2);
    FinishedNext(states, steps, 0, 3);
    FinishedNext(states, steps, 0, 4);
    FinishedNext(states, steps, 0, 5);
  }

  /**
   A connection that delivers both entries and finishes them in LSN order, every entry with
   its transactions in order, and still leaves an incoming entry that applying them in order
   does not.
   */
  lemma FinishingInOrderMayDiverge(r: Render, db: DB)
    returns (states: seq<W.State>, steps: seq<W.Step>, commits: seq<seq<Step>>)
    requires db.Valid() && |db.shards| == 2
    ensures var es := [Added] + [Deleted];
            && Delivers(states, steps, 0, 0, |steps|, 0, es)
            && Transacts(2, states, steps, 0, 0, |steps|, 0, es, commits)
            && var o, sequential := RunSteps(r, db, Flat(commits, 0, |steps|)), ApplyLog(r, db, es);
               && o.Some? && |o.value.shards| == 2 && (1, 1) in o.value.shards[1].adjIn
               && sequential.Some? && |sequential.value.shards| == 2 && (1, 1) !in sequential.value.shards[1].adjIn
  {
    states, steps := TwoWorkers();
    commits := [[], [], [], [], Raced(), []];
    RacedTransacts(states, steps, commits);
    TwoFinished(states, steps);
    RacedNumbered();
    InOrderDelivers(states, steps, 0, 6, 0, [Added] + [Deleted]);
    RacedFlat(commits);
    RacedLeaves(r, db);
    InOrderLeavesNone(r, db);
  }

  lemma RacedNumbered()
    ensures Numbered([Added] + [Deleted], 0) && Lsns(0, 2) == [1, 2]
  {
  }

  /** Entries that all finish in LSN order do so on every record. */
  lemma InOrderDelivers(states: seq<W.State>, steps: seq<W.Step>, start: nat, i: nat, base: nat, es: seq<Entry>)
    requires Connection(states, steps, start, 0, i, base) && Quiet(states[i]) && states[i].next == base + |es| + 1
    requires es != [] && Numbered(es, base) && Finished(states, steps, start, 0, i) == Lsns(base, |es|)
    ensures Delivers(states, steps, start, 0, i, base, es)
  {
    PickAll(es, base);
  }

  lemma RacedTransacts(states: seq<W.State>, steps: seq<W.Step>, commits: seq<seq<Step>>)
    requires steps == [W.Receive(1), W.Receive(2), W.Take(0), W.Take(1), W.Succeed(0), W.Succeed(1)]
    requires W.Run(states, steps, 0) && |states[4].workers| == |states[5].workers| == W.WORKERS
    requires states[5].workers[1] == W.Applying(2)
    requires states[4].workers[0] == W.Applying(1) && states[4].workers[1] == W.Applying(2)
    requires commits == [[], [], [], [], Raced(), []]
    ensures Transacts(2, states, steps, 0, 0, 6, 0, [Added] + [Deleted], commits)
  {
    var es := [Added] + [Deleted];
    RacedFlat(commits);
    RacedPlans();
    assert AppliesAt(states[4], 1) && AppliesAt(states[4], 2);
    forall k, t {:trigger RunsIn(states[k], es, 0, t)} | 0 <= k < 6 && t in commits[k]
      ensures RunsIn(states[k], es, 0, t)
    {
      assert k == 4 && t in Raced();
    }
    forall k {:trigger steps[k]} | 0 <= k < 6
      ensures ReturnsAt(2, states[k], steps[k], es, 0, Flat(commits, 0, k + 1))
    {
      assert k < 4 || k == 4 || k == 5;
    }
  }

  lemma RacedFlat(commits: seq<seq<Step>>)
    requires commits == [[], [], [], [], Raced(), []]
    ensures Flat(commits, 0, 5) == Raced() && Flat(commits, 0, 6) == Raced()
  {
    assert Flat(commits, 0, 0) == [] && Flat(commits, 0, 1) == [] && Flat(commits, 0, 2) == [];
    assert Flat(commits, 0, 3) == [] && Flat(commits, 0, 4) == [];
  }
}
