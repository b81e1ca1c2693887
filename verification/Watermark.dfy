/**
 The follower's apply pipeline: one receiver, eight workers that may finish in
 any order or fail, and a tracker that turns finished LSNs into a contiguous
 watermark which each worker stores on its own, possibly late.
 */
module Watermark {
  import opened Types

  // ---- the tracker --------------------------------------------------------------

  /** Finished LSNs not yet contiguous, and the highest contiguous one. */
  datatype Tracker = Tracker(done: set<nat>, baseline: nat)

  function Drain(t: Tracker): Tracker
    decreases t.done
  {
    if t.baseline + 1 in t.done then Drain(Tracker(t.done - {t.baseline + 1}, t.baseline + 1)) else t
  }

  function Marked(t: Tracker, lsn: nat): Tracker {
    Drain(t.(done := t.done + {lsn}))
  }

  /** Draining stops at the first gap and forgets exactly what it passed. */
  lemma {:induction false} DrainStopsAtGap(t: Tracker)
    ensures var r := Drain(t);
            && t.baseline <= r.baseline && r.baseline + 1 !in r.done
            && (forall l :: t.baseline < l <= r.baseline ==> l in t.done)
            && (forall l :: l in r.done <==> l in t.done && !(t.baseline < l <= r.baseline))
    decreases t.done
  {
    if t.baseline + 1 in t.done {
      DrainStopsAtGap(Tracker(t.done - {t.baseline + 1}, t.baseline + 1));
    }
  }

  /** lsnTracker: the in-place version. */
  class LsnTracker {
    var done: set<nat>
    var baseline: nat

    constructor (baseline: nat)
      ensures View() == Tracker({}, baseline)
    {
      this.baseline := baseline;
      done := {};
    }

    ghost function View(): Tracker
      reads this
    {
      Tracker(done, baseline)
    }

    method MarkDone(lsn: nat) returns (watermark: nat)
      modifies this
      ensures View() == Marked(old(View()), lsn) && watermark == baseline
    {
      done := done + {lsn};
      ghost var start := View();
      while baseline + 1 in done
        invariant Drain(View()) == Drain(start)
        decreases done
      {
        baseline := baseline + 1;
        done := done - {baseline};
      }
      watermark := baseline;
    }
  }

  function MarkAll(t: Tracker, marks: seq<nat>): Tracker {
    if marks == [] then t else Marked(MarkAll(t, marks[..|marks| - 1]), marks[|marks| - 1])
  }

  /** After any marks, in any order, the watermark is the largest gap-free LSN above `start`. */
  lemma {:induction false} WatermarkIsLargestGapFree(start: nat, marks: seq<nat>)
    ensures var t := MarkAll(Tracker({}, start), marks);
            && start <= t.baseline
            && (forall l :: start < l <= t.baseline ==> l in marks)
            && t.baseline + 1 !in marks
            && (forall l :: l in t.done ==> l in marks)
            && (forall l :: l in marks && l > t.baseline ==> l in t.done)
  {
    if marks != [] {
      var n := |marks| - 1;
      WatermarkIsLargestGapFree(start, marks[..n]);
      var t := MarkAll(Tracker({}, start), marks[..n]);
      DrainStopsAtGap(t.(done := t.done + {marks[n]}));
      assert marks == marks[..n] + [marks[n]];
    }
  }

  // ---- the pipeline ---------------------------------------------------------------

  const WORKERS: nat := 8

  /**
   Where a worker is: waiting, running ApplyOp, between ApplyOp and MarkDone,
   between MarkDone and SetAppliedLSN, or gone.
   */
  datatype Worker = Idle | Applying(lsn: nat) | Applied(lsn: nat) | Storing(watermark: nat) | Exited

  /** `succeeded` (history) is every LSN whose ApplyOp has returned without error. */
  datatype State = State(
    applied: nat, tracker: Tracker, workers: seq<Worker>, channel: seq<nat>, next: nat, cancelled: bool,
        succeeded: set<nat>)

  datatype Step =
    | Receive(lsn: nat)
    | Take(w: nat)
    | Succeed(w: nat)
    | Fail(w: nat)
    | Mark(w: nat)
    | Store(w: nat)
    | Quit(w: nat)
    | Reconnect

  predicate Enabled(s: State, a: Step) {
    match a
    case Receive(_) => !s.cancelled
    case Take(w) => w < |s.workers| && s.workers[w].Idle? && s.channel != [] && !s.cancelled
    case Succeed(w) => w < |s.workers| && s.workers[w].Applying?
    case Fail(w) => w < |s.workers| && s.workers[w].Applying?
    case Mark(w) => w < |s.workers| && s.workers[w].Applied?
    case Store(w) => w < |s.workers| && s.workers[w].Storing?
    case Quit(w) => w < |s.workers| && s.workers[w].Idle?
    case Reconnect => forall w :: 0 <= w < |s.workers| ==> s.workers[w].Exited?
  }

  /** The stream may send any LSN; `next` is one past the last that arrived. */
  function Perform(s: State, a: Step): State
    requires Enabled(s, a)
  {
    match a
    case Receive(lsn) =>
      if lsn <= s.applied then s.(next := lsn + 1)
      else s.(next := lsn + 1, channel := s.channel + [lsn])
    case Take(w) => s.(workers := s.workers[w := Applying(s.channel[0])], channel := s.channel[1..])
    case Succeed(w) =>
      s.(workers := s.workers[w := Applied(s.workers[w].lsn)], succeeded := s.succeeded + {s.workers[w].lsn})
    case Fail(w) => s.(workers := s.workers[w := Exited], cancelled := true)
    case Mark(w) =>
      var t := Marked(s.tracker, s.workers[w].lsn);
      s.(workers := s.workers[w := Storing(t.baseline)], tracker := t)
    case Store(w) => s.(workers := s.workers[w := Idle], applied := s.workers[w].watermark)
    case Quit(w) => s.(workers := s.workers[w := Exited])
    case Reconnect => Connect(s.applied, s.succeeded)
  }

  /** streamOnce: stream from appliedLSN + 1 with a fresh tracker and fresh workers. */
  function Connect(applied: nat, succeeded: set<nat>): State {
    State(applied, Tracker({}, applied), seq(WORKERS, _ => Idle), [], applied + 1, false, succeeded)
  }

  ghost predicate Covered(s: State, start: nat, upTo: nat) {
    forall l {:trigger l in s.succeeded} :: start < l <= upTo ==> l in s.succeeded
  }

  ghost predicate WorkerOk(s: State, start: nat, w: Worker) {
    && (w.Applied? ==> w.lsn in s.succeeded)
    && (w.Storing? ==> start <= w.watermark <= s.tracker.baseline)
  }

  ghost predicate Inv(s: State, start: nat) {
    && start <= s.applied <= s.tracker.baseline
    && Covered(s, start, s.tracker.baseline) && s.tracker.done <= s.succeeded
    && forall w {:trigger s.workers[w]} :: 0 <= w < |s.workers| ==> WorkerOk(s, start, s.workers[w])
  }

  lemma StepKeepsInv(s: State, a: Step, start: nat)
    requires Inv(s, start) && Enabled(s, a)
    ensures Inv(Perform(s, a), start)
  {
    var s' := Perform(s, a);
    if a.Mark? {
      assert WorkerOk(s, start, s.workers[a.w]);
      var before := s.tracker.(done := s.tracker.done + {s.workers[a.w].lsn});
      DrainStopsAtGap(before);
      forall l | start < l <= s'.tracker.baseline ensures l in s'.succeeded {
        assert l > s.tracker.baseline ==> l in before.done;
      }
    }
    if !a.Receive? && !a.Reconnect? {
      forall w | 0 <= w < |s'.workers| ensures WorkerOk(s', start, s'.workers[w]) {
        assert WorkerOk(s, start, s.workers[w]);
      }
    }
  }

  ghost predicate Run(states: seq<State>, steps: seq<Step>, start: nat) {
    && |states| == |steps| + 1 && states[0] == Connect(start, {})
    && forall i {:trigger steps[i]} :: 0 <= i < |steps| ==>
         Enabled(states[i], steps[i]) && states[i + 1] == Perform(states[i], steps[i])
  }

  lemma {:induction false} RunKeepsInv(states: seq<State>, steps: seq<Step>, start: nat, i: nat)
    requires Run(states, steps, start) && i < |states|
    ensures Inv(states[i], start)
  {
    if i > 0 {
      RunKeepsInv(states, steps, start, i - 1);
      assert Enabled(states[i - 1], steps[i - 1]);
      StepKeepsInv(states[i - 1], steps[i - 1], start);
    }
  }

  /**
   Under every interleaving, every LSN above the starting point and up to the
   stored applied LSN has been applied successfully, so a stream reopened at
   appliedLSN + 1 asks for every entry not yet applied.
   */
  lemma WatermarkSafety(states: seq<State>, steps: seq<Step>, start: nat, i: nat, l: nat)
    requires Run(states, steps, start) && i < |states| && start < l
    ensures l <= states[i].applied ==> l in states[i].succeeded
    ensures l !in states[i].succeeded && Enabled(states[i], Reconnect) ==> Perform(states[i], Reconnect).next <= l
  {
    RunKeepsInv(states, steps, start, i);
  }

  // ---- a gap in the stream ---------------------------------------------------------------------------

  ghost predicate WorkerFree(w: Worker, g: nat) {
    (w.Applying? || w.Applied? ==> w.lsn != g) && (w.Storing? ==> w.watermark < g)
  }

  /** Nothing of the connection has got hold of LSN `g`. */
  ghost predicate Free(s: State, g: nat) {
    && s.applied < g && s.tracker.baseline < g && g !in s.tracker.done && g !in s.channel
    && forall w {:trigger s.workers[w]} :: 0 <= w < |s.workers| ==> WorkerFree(s.workers[w], g)
  }

  lemma StepStaysFree(s: State, a: Step, g: nat)
    requires Enabled(s, a) && Free(s, g) && a != Receive(g) && !a.Reconnect?
    ensures Free(Perform(s, a), g)
  {
    var s' := Perform(s, a);
    if a.Mark? {
      assert WorkerFree(s.workers[a.w], g);
      DrainStopsAtGap(s.tracker.(done := s.tracker.done + {s.workers[a.w].lsn}));
      assert g !in s.tracker.done + {s.workers[a.w].lsn};
      assert s'.tracker.baseline < g;
    }
    if a.Take? {
      assert s.channel[0] in s.channel;
    }
    if !a.Receive? {
      forall w {:trigger s'.workers[w]} | 0 <= w < |s'.workers| ensures WorkerFree(s'.workers[w], g) {
        assert WorkerFree(s.workers[w], g);
      }
    }
  }

  /** An LSN that a connection never receives is never passed by the stored LSN within that connection. */
  lemma {:induction false} GapHolds(states: seq<State>, steps: seq<Step>, start: nat, j: nat, i: nat, g: nat)
    requires Run(states, steps, start) && j <= i <= |steps|
    requires states[j] == Connect(states[j].applied, states[j].succeeded) && states[j].applied < g
    requires forall k {:trigger steps[k]} :: j <= k < i ==> steps[k] != Receive(g) && !steps[k].Reconnect?
    ensures Free(states[i], g) && states[i].applied < g
  {
    if j < i {
      GapHolds(states, steps, start, j, i - 1, g);
      assert Enabled(states[i - 1], steps[i - 1]);
      StepStaysFree(states[i - 1], steps[i - 1], g);
    }
  }

  lemma DrainOne(l: nat)
    requires l > 0
    ensures Marked(Tracker({}, l - 1), l) == Tracker({}, l)
  {
    var t := Tracker({l}, l - 1);
    assert Tracker({}, l - 1).(done := {} + {l}) == t;
    assert t.done - {l} == {};
    assert Drain(Tracker({}, l)) == Tracker({}, l);
    assert Drain(t) == Drain(Tracker(t.done - {l}, l));
  }

  // ---- when the stored LSN goes down ---------------------------------------------------------------

  /** On one state: exactly a store of a watermark below the stored LSN lowers it. */
  lemma StepLowersExactly(s: State, a: Step)
    requires Enabled(s, a)
    ensures Perform(s, a).applied < s.applied <==> a.Store? && s.workers[a.w].watermark < s.applied
  {
  }

  /** The step before `i` in which worker `w` last marked. */
  ghost predicate IsMarkOf(steps: seq<Step>, w: nat, m: nat, i: nat)
    requires i <= |steps|
  {
    m < i && steps[m] == Mark(w) && forall j :: m < j < i ==> steps[j] != Mark(w)
  }

  /** Step `k` is the last store before step `i`. */
  ghost predicate LastStore(steps: seq<Step>, k: nat, i: nat)
    requires i <= |steps|
  {
    k < i && steps[k].Store? && forall j :: k < j < i ==> !steps[j].Store?
  }

  /** The watermark a store step writes. */
  ghost function Stored(states: seq<State>, steps: seq<Step>, k: nat): nat
    requires k < |steps| && |states| == |steps| + 1 && steps[k].Store? && Enabled(states[k], steps[k])
  {
    states[k].workers[steps[k].w].watermark
  }

  /**
   Since worker `w` marked, another worker has stored a larger watermark, and nobody has
   stored after that one.
   */
  ghost predicate Overtaken(states: seq<State>, steps: seq<Step>, start: nat, i: nat)
    requires Run(states, steps, start) && i < |steps| && steps[i].Store?
  {
    exists m: nat, k: nat ::
      && IsMarkOf(steps, steps[i].w, m, i) && m < k && LastStore(steps, k, i) && steps[k].w != steps[i].w
      && Enabled(states[k], steps[k]) && Enabled(states[i], steps[i])
      && Stored(states, steps, k) > Stored(states, steps, i)
  }

  /** A worker about to store got its watermark at its last mark and has not moved since. */
  ghost predicate HeldSince(states: seq<State>, steps: seq<Step>, w: nat, m: nat, i: nat)
    requires i <= |steps| && |states| == |steps| + 1 && w < |states[i].workers|
  {
    && IsMarkOf(steps, w, m, i) && states[i].workers[w] == Storing(states[m + 1].tracker.baseline)
    && forall j {:trigger states[j]} :: m < j <= i ==>
         w < |states[j].workers| && states[j].workers[w] == states[i].workers[w]
  }

  lemma {:induction false} MarkedBefore(states: seq<State>, steps: seq<Step>, start: nat, w: nat, i: nat)
    returns (m: nat)
    requires Run(states, steps, start) && i <= |steps| && w < |states[i].workers| && states[i].workers[w].Storing?
    ensures HeldSince(states, steps, w, m, i)
  {
    assert i > 0;
    var a, s := steps[i - 1], states[i - 1];
    assert Enabled(s, a) && states[i] == Perform(s, a);
    if a == Mark(w) {
      m := i - 1;
    } else {
      assert w < |s.workers| && s.workers[w] == states[i].workers[w];
      m := MarkedBefore(states, steps, start, w, i - 1);
    }
  }

  /** Without a store the stored LSN does not change, not even by a reconnect. */
  lemma {:induction false} AppliedStays(states: seq<State>, steps: seq<Step>, start: nat, k: nat, i: nat)
    requires Run(states, steps, start) && k <= i <= |steps| && forall j :: k <= j < i ==> !steps[j].Store?
    ensures states[i].applied == states[k].applied
  {
    if k < i {
      AppliedStays(states, steps, start, k, i - 1);
      assert Enabled(states[i - 1], steps[i - 1]) && !steps[i - 1].Store?;
    }
  }

  lemma {:induction false} FindLastStore(steps: seq<Step>, m: nat, i: nat) returns (k: Option<nat>)
    requires m <= i <= |steps|
    ensures k.Some? ==> m <= k.value && LastStore(steps, k.value, i)
    ensures k.None? ==> forall j :: m <= j < i ==> !steps[j].Store?
  {
    if m == i {
      return None;
    }
    if steps[i - 1].Store? {
      return Some(i - 1);
    }
    k := FindLastStore(steps, m, i - 1);
  }

  /**
   Over every run: a step lowers the stored LSN if and only if it is a store and the last
   store before it, made by another worker since this one marked, was of a larger watermark.
   */
  lemma StepsBackExactly(states: seq<State>, steps: seq<Step>, start: nat, i: nat)
    requires Run(states, steps, start) && i < |steps|
    ensures states[i + 1].applied < states[i].applied <==> steps[i].Store? && Overtaken(states, steps, start, i)
  {
    assert Enabled(states[i], steps[i]) && states[i + 1] == Perform(states[i], steps[i]);
    if steps[i].Store? {
      var m := MarkedBefore(states, steps, start, steps[i].w, i);
      var last := FindLastStore(steps, m + 1, i);
      if last.None? {
        NothingStoredSince(states, steps, start, m, i);
      } else {
        StoredSince(states, steps, start, m, last.value, i);
      }
    }
  }

  lemma NothingStoredSince(states: seq<State>, steps: seq<Step>, start: nat, m: nat, i: nat)
    requires Run(states, steps, start) && i < |steps| && steps[i].Store? && Enabled(states[i], steps[i])
    requires HeldSince(states, steps, steps[i].w, m, i) && forall j :: m + 1 <= j < i ==> !steps[j].Store?
    ensures states[i].applied <= states[i].workers[steps[i].w].watermark && !Overtaken(states, steps, start, i)
  {
    AppliedStays(states, steps, start, m + 1, i);
    RunKeepsInv(states, steps, start, m + 1);
  }

  /** Since the last store, which another worker made, the stored LSN is what that one stored. */
  lemma LastStoreStands(states: seq<State>, steps: seq<Step>, start: nat, m: nat, k: nat, i: nat)
    requires Run(states, steps, start) && i < |steps| && steps[i].Store? && Enabled(states[i], steps[i])
    requires HeldSince(states, steps, steps[i].w, m, i) && m < k && LastStore(steps, k, i)
    ensures steps[k].w != steps[i].w && Enabled(states[k], steps[k]) && states[i].applied == Stored(states, steps, k)
  {
    assert Enabled(states[k], steps[k]) && states[k + 1] == Perform(states[k], steps[k]);
    AppliedStays(states, steps, start, k + 1, i);
    assert states[k + 1].workers[steps[i].w] == states[i].workers[steps[i].w];
  }

  lemma LastStoreUnique(steps: seq<Step>, k: nat, k': nat, i: nat)
    requires i <= |steps| && LastStore(steps, k, i) && LastStore(steps, k', i)
    ensures k == k'
  {
  }

  lemma StoredSince(states: seq<State>, steps: seq<Step>, start: nat, m: nat, k: nat, i: nat)
    requires Run(states, steps, start) && i < |steps| && steps[i].Store? && Enabled(states[i], steps[i])
    requires HeldSince(states, steps, steps[i].w, m, i) && m < k && LastStore(steps, k, i)
    ensures states[i].applied > states[i].workers[steps[i].w].watermark <==> Overtaken(states, steps, start, i)
  {
    LastStoreStands(states, steps, start, m, k, i);
    if Overtaken(states, steps, start, i) {
      var m': nat, k': nat :| IsMarkOf(steps, steps[i].w, m', i) && m' < k' && LastStore(steps, k', i) &&
          steps[k'].w != steps[i].w
        && Enabled(states[k'], steps[k']) && Stored(states, steps, k') > Stored(states, steps, i);
      LastStoreUnique(steps, k, k', i);
    }
  }

  /** Each worker stores before the next one marks. */
  ghost predicate StoresInTurn(states: seq<State>, steps: seq<Step>) {
    |states| == |steps| + 1 &&
    forall i, w :: 0 <= i < |steps| && steps[i].Mark? && 0 <= w < |states[i].workers| ==> !states[i].workers[w].Storing?
  }

  /** Two workers holding a watermark at once: one of them marked while the other held. */
  lemma TwoHolders(states: seq<State>, steps: seq<Step>, w: nat, m: nat, i: nat, w2: nat, m2: nat, k: nat)
    requires i <= |steps| && |states| == |steps| + 1 && m < k <= i && w != w2
    requires w < |states[i].workers| && HeldSince(states, steps, w, m, i) && w2 < |states[k].workers| &&
             HeldSince(states, steps, w2, m2, k)
    ensures !StoresInTurn(states, steps)
  {
    if m2 < m {
      assert steps[m].Mark? && states[m].workers[w2].Storing?;
    } else {
      assert m2 != m;
      assert steps[m2].Mark? && states[m2].workers[w].Storing?;
    }
  }

  lemma OvertakenHolds(states: seq<State>, steps: seq<Step>, start: nat, i: nat, m: nat, k: nat)
    requires Run(states, steps, start) && i < |steps| && steps[i].Store?
    requires IsMarkOf(steps, steps[i].w, m, i) && m < k < i && steps[k].Store? && steps[k].w != steps[i].w
    ensures !StoresInTurn(states, steps)
  {
    assert Enabled(states[i], steps[i]) && Enabled(states[k], steps[k]);
    var m1 := MarkedBefore(states, steps, start, steps[i].w, i);
    var m2 := MarkedBefore(states, steps, start, steps[k].w, k);
    assert m1 == m;
    TwoHolders(states, steps, steps[i].w, m, i, steps[k].w, m2, k);
  }

  lemma OvertakenOutOfTurn(states: seq<State>, steps: seq<Step>, start: nat, i: nat)
    requires Run(states, steps, start) && i < |steps| && steps[i].Store? && Overtaken(states, steps, start, i)
    ensures !StoresInTurn(states, steps)
  {
    var m: nat, k: nat :| IsMarkOf(steps, steps[i].w, m, i) && m < k && LastStore(steps, k, i) &&
        steps[k].w != steps[i].w;
    OvertakenHolds(states, steps, start, i, m, k);
  }

  /** In such runs the stored LSN never goes down. */
  lemma MonotoneIfStoredInTurn(states: seq<State>, steps: seq<Step>, start: nat, i: nat)
    requires Run(states, steps, start) && i < |steps| && StoresInTurn(states, steps)
    ensures states[i].applied <= states[i + 1].applied
  {
    StepsBackExactly(states, steps, start, i);
    if steps[i].Store? && Overtaken(states, steps, start, i) {
      OvertakenOutOfTurn(states, steps, start, i);
    }
  }

  // ---- a run ------------------------------------------------------------------------------------------

  ghost predicate Steps(s: seq<State>, steps: seq<Step>) {
    |s| == |steps| + 1 && forall i {:trigger steps[i]} :: 0 <= i < |steps| ==>
        Enabled(s[i], steps[i]) && s[i + 1] == Perform(s[i], steps[i])
  }

  /** Three workers have applied the first three entries. */
  lemma ThreeApplied() returns (s: seq<State>)
    ensures Steps(s,
                  [Receive(1), Receive(2), Receive(3), Take(0), Take(1), Take(2), Succeed(0), Succeed(1), Succeed(2)])
                      && s[0] == Connect(0, {})
    ensures var e := s[9];
            && e.applied == 0 && e.tracker == Tracker({}, 0) && |e.workers| == WORKERS
            && e.workers[0] == Applied(1) && e.workers[1] == Applied(2) && e.workers[2] == Applied(3)
  {
    var s0 := Connect(0, {});
    var s1 := Perform(s0, Receive(1));
    var s2 := Perform(s1, Receive(2));
    var s3 := Perform(s2, Receive(3));
    assert s3.channel == [1, 2, 3];
    var s4 := Perform(s3, Take(0));
    assert s4.channel == [2, 3];
    var s5 := Perform(s4, Take(1));
    assert s5.channel == [3];
    var s6 := Perform(s5, Take(2));
    var s7 := Perform(s6, Succeed(0));
    var s8 := Perform(s7, Succeed(1));
    var s9 := Perform(s8, Succeed(2));
    s := [s0, s1, s2, s3, s4, s5, s6, s7, s8, s9];
  }

  /** All three watermarks are taken before any is stored; then 3, 1 and 2 are stored. */
  lemma ThreeStores(e: State) returns (s: seq<State>)
    requires e.applied == 0 && e.tracker == Tracker({}, 0) && |e.workers| == WORKERS
    requires e.workers[0] == Applied(1) && e.workers[1] == Applied(2) && e.workers[2] == Applied(3)
    ensures Steps(s, [Mark(0), Mark(1), Mark(2), Store(2), Store(0), Store(1)]) && s[0] == e
    ensures s[4].applied == 3 && s[5].applied == 1 && s[6].applied == 2
  {
    DrainOne(1);
    var s1 := Perform(e, Mark(0));
    DrainOne(2);
    var s2 := Perform(s1, Mark(1));
    DrainOne(3);
    var s3 := Perform(s2, Mark(2));
    var s4 := Perform(s3, Store(2));
    var s5 := Perform(s4, Store(0));
    var s6 := Perform(s5, Store(1));
    s := [e, s1, s2, s3, s4, s5, s6];
  }

  lemma StepsJoin(s: seq<State>, a: seq<Step>, t: seq<State>, b: seq<Step>)
    requires Steps(s, a) && Steps(t, b) && s[|a|] == t[0]
    ensures Steps(s[..|a|] + t, a + b)
  {
    var u, c := s[..|a|] + t, a + b;
    forall i {:trigger c[i]} | 0 <= i < |c| ensures Enabled(u[i], c[i]) && u[i + 1] == Perform(u[i], c[i]) {
      if i < |a| {
        assert c[i] == a[i] && u[i] == s[i] && u[i + 1] == s[i + 1];
      } else {
        assert c[i] == b[i - |a|] && u[i] == t[i - |a|] && u[i + 1] == t[i + 1 - |a|];
      }
    }
  }

  /**
   A larger store since the mark is not enough: after storing 3 and then 1, the store of 2
   raises the LSN, although 3 was stored since its worker marked. The first of the two
   stores lowers it, from 3 to 1.
   */
  lemma StoredLsnMayStepBack() returns (states: seq<State>, steps: seq<Step>)
    ensures Run(states, steps, 0) && |states| == 16
    ensures steps[10] == Mark(1) && steps[12] == Store(2) && steps[13] == Store(0) && steps[14] == Store(1)
    ensures states[13].applied == 3 && states[14].applied == 1 && states[15].applied == 2
  {
    var s := ThreeApplied();
    var t := ThreeStores(s[9]);
    var a, b := [Receive(1), Receive(2), Receive(3), Take(0), Take(1), Take(2), Succeed(0), Succeed(1), Succeed(2)],
        [Mark(0), Mark(1), Mark(2), Store(2), Store(0), Store(1)];
    StepsJoin(s, a, t, b);
    states, steps := s[..9] + t, a + b;
  }
}
