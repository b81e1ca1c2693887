/**
 Tailing the log step by step. A reader that hits the end of a segment lists the segments
 again before it moves on, and the writer or a pruner may act in between.
 */
module Tailing {
  import opened Types
  import opened Wal

  // ---- listings ----------------------------------------------------------------------------------

  /** The numbers of the segments that are there, in order. */
  function Listing(n: nat, gone: set<nat>): seq<nat> {
    if n == 0 then [] else Listing(n - 1, gone) + if n - 1 in gone then [] else [n - 1]
  }

  ghost predicate Ascending(s: seq<nat>) {
    forall i, j :: 0 <= i < j < |s| ==> s[i] < s[j]
  }

  /** How many listed numbers are at most `n`. */
  function Below(s: seq<nat>, n: nat): (k: nat)
    ensures k <= |s|
  {
    if s == [] then 0 else Below(s[..|s| - 1], n) + if s[|s| - 1] <= n then 1 else 0
  }

  lemma {:induction false} BelowSplits(s: seq<nat>, n: nat)
    requires Ascending(s)
    ensures forall i :: 0 <= i < |s| ==> (s[i] <= n <==> i < Below(s, n))
  {
    if s != [] {
      BelowSplits(s[..|s| - 1], n);
    }
  }

  ghost function Numbers(s: seq<nat>): set<nat> {
    set x | x in s
  }

  lemma {:induction false} Distinct(s: seq<nat>)
    requires Ascending(s)
    ensures |Numbers(s)| == |s|
  {
    if s != [] {
      var n := |s| - 1;
      Distinct(s[..n]);
      assert s == s[..n] + [s[n]];
      assert Numbers(s) == Numbers(s[..n]) + {s[n]} && s[n] !in Numbers(s[..n]);
    }
  }

  /** Of two ascending lists, one within the other, the shorter is the one that lacks something. */
  lemma WithinCounts(a: seq<nat>, b: seq<nat>)
    requires Ascending(a) && Ascending(b) && forall x :: x in a ==> x in b
    ensures |a| <= |b| && (|a| == |b| <==> forall x :: x in b ==> x in a)
  {
    Distinct(a);
    Distinct(b);
    var lacks := Numbers(b) - Numbers(a);
    assert Numbers(b) == Numbers(a) + lacks;
    if |lacks| > 0 {
      var x :| x in lacks;
    } else {
      assert forall x :: x in b ==> x in Numbers(b);
    }
  }

  /** The listing after prunes and rotations: whatever is not new was listed before. */
  ghost predicate Later(was: seq<nat>, now: seq<nat>) {
    Ascending(was) && Ascending(now) && was != [] && forall x :: x in now && x <= was[|was| - 1] ==> x in was
  }

  /** The segments up to the one at `segIdx` that are still there. */
  lemma StillThere(was: seq<nat>, now: seq<nat>, segIdx: nat)
    requires Later(was, now) && segIdx < |was|
    ensures var k := Below(now, was[segIdx]);
            k <= segIdx + 1 && (k == segIdx + 1 <==> forall i {:trigger was[i]} :: 0 <= i <= segIdx ==> was[i] in now)
  {
    var k, cur := Below(now, was[segIdx]), was[segIdx];
    BelowSplits(now, cur);
    BelowSplits(was, cur);
    var a, b := now[..k], was[..segIdx + 1];
    forall x | x in a ensures x in b {
      assert x in now && x <= cur;
      var j :| 0 <= j < |was| && was[j] == x;
      assert j <= segIdx && b[j] == x;
    }
    WithinCounts(a, b);
    forall x | x in b ensures x in a <==> x in now {
      if x in now {
        var j :| 0 <= j < |now| && now[j] == x;
        assert x <= cur && j < k && a[j] == x;
      }
    }
    assert forall i {:trigger was[i]} :: 0 <= i <= segIdx ==> was[i] == b[i];
  }

  lemma {:induction false} ListingIs(n: nat, gone: set<nat>)
    ensures Ascending(Listing(n, gone)) && forall x: nat :: x in Listing(n, gone) <==> x < n && x !in gone
  {
    if n > 0 {
      ListingIs(n - 1, gone);
      var front := Listing(n - 1, gone);
      forall i | 0 <= i < |front| ensures front[i] < n - 1 {
        assert front[i] in front;
      }
    }
  }

  /**
   The reader moves from position `segIdx` of the old listing to the next position of the
   new one. The segments it jumps over are as many as were pruned up to the one it read,
   so it opens the following segment if and only if none of them was pruned.
   */
  lemma PruneShiftsExactly(was: seq<nat>, now: seq<nat>, segIdx: nat)
    requires Later(was, now) && segIdx < |was| < |now|
    ensures was[segIdx] < now[segIdx + 1]
    ensures var k := Below(now, was[segIdx]);
            && k <= segIdx + 1
            && (forall x :: x in now && was[segIdx] < x < now[segIdx + 1] <==> x in now[k..segIdx + 1])
            && ((forall x :: x in now && was[segIdx] < x ==> now[segIdx + 1] <= x) <==>
                (forall i {:trigger was[i]} :: 0 <= i <= segIdx ==> was[i] in now))
  {
    var k, cur := Below(now, was[segIdx]), was[segIdx];
    StillThere(was, now, segIdx);
    BelowSplits(now, cur);
    forall x ensures x in now && cur < x < now[segIdx + 1] <==> x in now[k..segIdx + 1] {
      if x in now && cur < x < now[segIdx + 1] {
        var i :| 0 <= i < |now| && now[i] == x;
        assert k <= i < segIdx + 1;
        assert now[k..segIdx + 1][i - k] == x;
      }
    }
    if k < segIdx + 1 {
      assert now[k] in now && cur < now[k] < now[segIdx + 1];
    }
  }

  // ---- steps --------------------------------------------------------------------------------------

  /** The segment numbers listed last, the position among them, and the offset once the file is open. */
  datatype Tailer = Tailer(listed: seq<nat>, segIdx: nat, file: Option<nat>, fromLsn: nat) {
    predicate Placed() {
      segIdx < |listed|
    }

    function Cur(): nat
      requires Placed()
    {
      listed[segIdx]
    }

    function Off(): nat {
      if file.Some? then file.value else 0
    }
  }

  /**
   `gone`: the segments pruned. `ended`: the reader has hit the end of its segment and is
   about to list the segments.
   */
  datatype State = State(log: Log, gone: set<nat>, reader: Tailer, ended: bool, returned: seq<Entry>) {
    function Now(): seq<nat> {
      Listing(|log.segs|, gone)
    }

    /** A listing makes the reader leave its segment. */
    predicate Moves() {
      |Now()| > |reader.listed|
    }
  }

  datatype Step = Append(payload: Str) | Rotate | Prune(number: nat) | ReadFrame | Relist

  /** The active segment is never pruned; a file that is gone cannot be opened, but one that is open can be read. */
  predicate Enabled(s: State, a: Step) {
    && 0 < |s.log.segs| && s.reader.Placed() && s.reader.Cur() < |s.log.segs|
    && match a
       case ReadFrame => !s.ended && (s.reader.file.Some? || s.reader.Cur() !in s.gone)
       case Relist => s.ended
       case Prune(number) => number + 1 < |s.log.segs|
       case _ => true
  }

  function Rotated(log: Log): Log {
    log.(segs := log.segs + [[]])
  }

  /** The reader after a listing: at the next position if there are more segments than it knew of. */
  function Relisted(s: State): Tailer {
    if s.Moves() then Tailer(s.Now(), s.reader.segIdx + 1, None, s.reader.fromLsn) else s.reader
  }

  function Perform(s: State, a: Step): State
    requires Enabled(s, a)
  {
    match a
    case Append(payload) => s.(log := Appended(s.log, s.log.first + |Flat(s.log.segs)|, payload, false))
    case Rotate => s.(log := Rotated(s.log))
    case Prune(number) => s.(gone := s.gone + {number})
    case Relist => s.(ended := false, reader := Relisted(s))
    case ReadFrame =>
      var seg, pos := s.log.segs[s.reader.Cur()], s.reader.Off();
      if pos >= |seg| then s.(ended := true, reader := s.reader.(file := Some(pos)))
      else s.(reader := s.reader.(file := Some(pos + 1)), returned := s.returned + From([seg[pos]], s.reader.fromLsn))
  }

  ghost predicate Starts(s: State, fromLsn: nat) {
    && s.log.Valid() && (forall x :: x in s.gone ==> x + 1 < |s.log.segs|)
    && s == State(s.log, s.gone, Tailer(s.Now(), 0, None, fromLsn), false, [])
  }

  ghost predicate Run(states: seq<State>, steps: seq<Step>, fromLsn: nat) {
    && |states| == |steps| + 1 && Starts(states[0], fromLsn)
    && forall i {:trigger steps[i]} :: 0 <= i < |steps| ==>
         Enabled(states[i], steps[i]) && states[i + 1] == Perform(states[i], steps[i])
  }

  /** Whatever is listed now and was not listed then is newer; `origin` is where the reader began. */
  ghost predicate Ok(s: State, origin: nat) {
    && s.log.Valid()
    && (forall x :: x in s.gone ==> x + 1 < |s.log.segs|) && s.reader.Placed() && Later(s.reader.listed, s.Now())
    && origin <= s.reader.Cur() && s.reader.listed[|s.reader.listed| - 1] < |s.log.segs|
    && s.reader.Off() <= |s.log.segs[s.reader.Cur()]|
  }

  lemma StartIsOk(s: State, fromLsn: nat)
    requires Starts(s, fromLsn)
    ensures s.reader.Placed() && Ok(s, s.reader.Cur())
  {
    ListingIs(|s.log.segs|, s.gone);
    assert |s.log.segs| - 1 in s.Now();
    assert s.Now()[|s.Now()| - 1] in s.Now();
  }

  lemma CurBelow(s: State, origin: nat)
    requires s.reader.Placed() && Later(s.reader.listed, s.Now())
    ensures s.reader.Cur() <= s.reader.listed[|s.reader.listed| - 1]
  {
    assert s.reader.segIdx < |s.reader.listed| - 1 ==> s.reader.Cur() < s.reader.listed[|s.reader.listed| - 1];
  }

  lemma RotateKeeps(log: Log)
    ensures Flat(Rotated(log).segs) == Flat(log.segs) && (log.Valid() ==> Rotated(log).Valid())
  {
    FlatConcat(log.segs, [[]]);
    assert Flat([[]]) == [];
  }

  /** The listing may only lose old numbers and gain new ones. */
  lemma LaterKept(listed: seq<nat>, n: nat, gone: set<nat>, n': nat, gone': set<nat>)
    requires Later(listed, Listing(n, gone)) && listed[|listed| - 1] < n <= n' && gone <= gone'
    ensures Later(listed, Listing(n', gone'))
  {
    ListingIs(n, gone);
    ListingIs(n', gone');
    forall x | x in Listing(n', gone') && x <= listed[|listed| - 1] ensures x in listed {
      assert x in Listing(n, gone);
    }
  }

  lemma MovedIsOk(s: State, origin: nat)
    requires Ok(s, origin) && s.Moves()
    ensures var r := Relisted(s);
            && r.Placed() && s.reader.Cur() < r.Cur() < |s.log.segs| && Later(r.listed, s.Now())
            && r.listed[|r.listed| - 1] < |s.log.segs|
  {
    var now, n := s.Now(), |s.log.segs|;
    ListingIs(n, s.gone);
    NextIsLarger(s.reader.listed, now, s.reader.segIdx);
    assert now[|now| - 1] in now && now[s.reader.segIdx + 1] in now;
  }

  lemma NextIsLarger(was: seq<nat>, now: seq<nat>, segIdx: nat)
    requires Later(was, now) && segIdx < |was| < |now|
    ensures was[segIdx] < now[segIdx + 1] && Later(now, now)
  {
    PruneShiftsExactly(was, now, segIdx);
  }

  lemma WriterKeepsOk(s: State, a: Step, origin: nat)
    requires Ok(s, origin) && Enabled(s, a) && (a.Append? || a.Rotate? || a.Prune?)
    ensures Ok(Perform(s, a), origin)
  {
    var s' := Perform(s, a);
    LaterKept(s.reader.listed, |s.log.segs|, s.gone, |s'.log.segs|, s'.gone);
    if a.Append? {
      AppendKeepsValid(s.log, a.payload, false);
    } else if a.Rotate? {
      RotateKeeps(s.log);
      CurBelow(s, origin);
      assert s'.log.segs[s.reader.Cur()] == s.log.segs[s.reader.Cur()];
    }
  }

  lemma StepKeepsOk(s: State, a: Step, origin: nat)
    requires Ok(s, origin) && Enabled(s, a)
    ensures Ok(Perform(s, a), origin) && Perform(s, a).reader.fromLsn == s.reader.fromLsn
  {
    if a.Append? || a.Rotate? || a.Prune? {
      WriterKeepsOk(s, a, origin);
    } else if a.Relist? && s.Moves() {
      MovedIsOk(s, origin);
    }
  }

  lemma {:induction false} RunKeepsOk(states: seq<State>, steps: seq<Step>, fromLsn: nat, i: nat)
    requires Run(states, steps, fromLsn) && i <= |steps|
    ensures states[0].reader.Placed() && Ok(states[i], states[0].reader.Cur()) && states[i].reader.fromLsn == fromLsn
  {
    StartIsOk(states[0], fromLsn);
    if i > 0 {
      RunKeepsOk(states, steps, fromLsn, i - 1);
      assert Enabled(states[i - 1], steps[i - 1]);
      StepKeepsOk(states[i - 1], steps[i - 1], states[0].reader.Cur());
    }
  }

  // ---- what a listing skips ---------------------------------------------------------------------------

  /** What lies between where the reader began and where it is. */
  ghost function Consumed(s: State, origin: nat): seq<Entry>
    requires Ok(s, origin)
  {
    Flat(s.log.segs[origin..s.reader.Cur()]) + s.log.segs[s.reader.Cur()][..s.reader.Off()]
  }

  /** What a listing makes the reader leave behind: the rest of its segment and the segments it jumps over. */
  ghost function Skipped(s: State, origin: nat): seq<Entry>
    requires Ok(s, origin)
  {
    if s.Moves() then
      MovedIsOk(s, origin);
      s.log.segs[s.reader.Cur()][s.reader.Off()..] + Flat(s.log.segs[s.reader.Cur() + 1..Relisted(s).Cur()])
    else []
  }

  lemma RelistSkips(s: State, origin: nat)
    requires Ok(s, origin) && Enabled(s, Relist)
    ensures Ok(Perform(s, Relist), origin)
    ensures Consumed(Perform(s, Relist), origin) == Consumed(s, origin) + Skipped(s, origin)
  {
    StepKeepsOk(s, Relist, origin);
    if s.Moves() {
      MovedIsOk(s, origin);
      var segs, next := s.log.segs, Relisted(s).Cur();
      FlatSplits(segs, origin, s.reader.Cur(), s.reader.Off(), next);
      assert segs[next][..0] == [];
    }
  }

  /** Some segments, taken apart within one of them. */
  lemma FlatSplits(segs: Segments, a: nat, cur: nat, off: nat, b: nat)
    requires a <= cur < b <= |segs| && off <= |segs[cur]|
    ensures Flat(segs[a..b]) == Flat(segs[a..cur]) + segs[cur][..off] + (segs[cur][off..] + Flat(segs[cur + 1..b]))
  {
    assert segs[a..b] == segs[a..cur] + ([segs[cur]] + segs[cur + 1..b]);
    FlatConcat(segs[a..cur], [segs[cur]] + segs[cur + 1..b]);
    FlatConcat([segs[cur]], segs[cur + 1..b]);
    assert Flat([segs[cur]]) == segs[cur] && segs[cur] == segs[cur][..off] + segs[cur][off..];
  }

  /** A step other than a skipping listing adds to what is consumed just what it returns. */
  ghost predicate Returns(s: State, s': State, origin: nat)
    requires Ok(s, origin) && Ok(s', origin)
  {
    && s.returned <= s'.returned
    && From(Consumed(s', origin), s.reader.fromLsn) ==
         From(Consumed(s, origin), s.reader.fromLsn) + s'.returned[|s.returned|..]
  }

  lemma WriterReturns(s: State, a: Step, origin: nat)
    requires Ok(s, origin) && Enabled(s, a) && (a.Append? || a.Rotate? || a.Prune?)
    ensures Ok(Perform(s, a), origin) && Consumed(Perform(s, a), origin) == Consumed(s, origin)
  {
    StepKeepsOk(s, a, origin);
    var s', cur := Perform(s, a), s.reader.Cur();
    CurBelow(s, origin);
    assert s'.log.segs[origin..cur] == s.log.segs[origin..cur];
    assert s'.log.segs[cur][..s.reader.Off()] == s.log.segs[cur][..s.reader.Off()];
  }

  lemma FrameReturns(s: State, origin: nat)
    requires Ok(s, origin) && Enabled(s, ReadFrame)
    ensures Ok(Perform(s, ReadFrame), origin) && Returns(s, Perform(s, ReadFrame), origin)
  {
    StepKeepsOk(s, ReadFrame, origin);
    var s', seg, pos := Perform(s, ReadFrame), s.log.segs[s.reader.Cur()], s.reader.Off();
    var more := if pos < |seg| then [seg[pos]] else [];
    assert Consumed(s', origin) == Consumed(s, origin) + more;
    FromConcat(Consumed(s, origin), more, s.reader.fromLsn);
    assert s'.returned == s.returned + From(more, s.reader.fromLsn);
  }

  /** No step so far was a listing that skipped a wanted entry. */
  ghost predicate NothingMissed(states: seq<State>, steps: seq<Step>, fromLsn: nat, i: nat)
    requires Run(states, steps, fromLsn) && i <= |steps|
  {
    forall k {:trigger steps[k]} :: 0 <= k < i && steps[k].Relist? ==> !Misses(states, steps, fromLsn, k)
  }

  /** The listing in step `k` skips a wanted entry. */
  ghost predicate Misses(states: seq<State>, steps: seq<Step>, fromLsn: nat, k: nat)
    requires Run(states, steps, fromLsn) && k < |steps|
  {
    RunKeepsOk(states, steps, fromLsn, k);
    From(Skipped(states[k], states[0].reader.Cur()), fromLsn) != []
  }

  lemma StepReturns(states: seq<State>, steps: seq<Step>, fromLsn: nat, k: nat)
    requires Run(states, steps, fromLsn) && k < |steps| && (steps[k].Relist? ==> !Misses(states, steps, fromLsn, k))
    ensures var o := states[0].reader;
            o.Placed() && Ok(states[k], o.Cur()) && Ok(states[k + 1], o.Cur()) &&
                Returns(states[k], states[k + 1], o.Cur())
  {
    RunKeepsOk(states, steps, fromLsn, k);
    RunKeepsOk(states, steps, fromLsn, k + 1);
    var s, a, origin := states[k], steps[k], states[0].reader.Cur();
    assert Enabled(s, a);
    if a.Relist? {
      RelistSkips(s, origin);
      FromConcat(Consumed(s, origin), Skipped(s, origin), fromLsn);
    } else if a.ReadFrame? {
      FrameReturns(s, origin);
    } else {
      WriterReturns(s, a, origin);
    }
  }

  lemma {:induction false} ReturnedIsConsumed(states: seq<State>, steps: seq<Step>, fromLsn: nat, i: nat)
    requires Run(states, steps, fromLsn) && i <= |steps| && NothingMissed(states, steps, fromLsn, i)
    ensures var o := states[0].reader;
            o.Placed() && Ok(states[i], o.Cur()) && states[i].returned == From(Consumed(states[i], o.Cur()), fromLsn)
  {
    RunKeepsOk(states, steps, fromLsn, i);
    var origin := states[0].reader.Cur();
    if i == 0 {
      assert states[0].log.segs[origin..origin] == [] && Consumed(states[0], origin) == [];
    } else {
      ReturnedIsConsumed(states, steps, fromLsn, i - 1);
      StepReturns(states, steps, fromLsn, i - 1);
      RunKeepsOk(states, steps, fromLsn, i - 1);
    }
  }

  ghost function Wanted(s: State, origin: nat, fromLsn: nat): seq<Entry>
    requires origin <= |s.log.segs|
  {
    From(Flat(s.log.segs[origin..]), fromLsn)
  }

  lemma ConsumedIsFirst(s: State, origin: nat, rest: seq<Entry>)
    requires Ok(s, origin)
    requires rest == s.log.segs[s.reader.Cur()][s.reader.Off()..] + Flat(s.log.segs[s.reader.Cur() + 1..])
    ensures Flat(s.log.segs[origin..]) == Consumed(s, origin) + rest
  {
    var segs, cur := s.log.segs, s.reader.Cur();
    CurBelow(s, origin);
    FlatSplits(segs, origin, cur, s.reader.Off(), |segs|);
    assert segs[origin..|segs|] == segs[origin..] && segs[cur + 1..|segs|] == segs[cur + 1..];
  }

  /**
   Under every interleaving of appends, rotations, prunes, reads and listings: as long as no
   listing skips a wanted entry, what was returned is a prefix of the wanted entries.
   */
  lemma PrefixUnlessMissed(states: seq<State>, steps: seq<Step>, fromLsn: nat, i: nat)
    requires Run(states, steps, fromLsn) && i <= |steps| && NothingMissed(states, steps, fromLsn, i)
    ensures states[0].reader.Placed() && states[0].reader.Cur() <= |states[i].log.segs|
    ensures states[i].returned <= Wanted(states[i], states[0].reader.Cur(), fromLsn)
  {
    ReturnedIsConsumed(states, steps, fromLsn, i);
    var s, origin := states[i], states[0].reader.Cur();
    CurBelow(s, origin);
    var rest := s.log.segs[s.reader.Cur()][s.reader.Off()..] + Flat(s.log.segs[s.reader.Cur() + 1..]);
    ConsumedIsFirst(s, origin, rest);
    FromConcat(Consumed(s, origin), rest, fromLsn);
  }

  // ---- when a listing skips something -------------------------------------------------------------------

  /** The reader hit the end of its segment in step `m`, and only others have acted since. */
  ghost predicate EndedAt(states: seq<State>, steps: seq<Step>, m: nat, i: nat)
    requires i <= |steps| && |states| == |steps| + 1
  {
    && m < i && steps[m].ReadFrame?
    && (forall j {:trigger steps[j]} :: m < j < i ==> steps[j].Append? || steps[j].Rotate? || steps[j].Prune?)
    && (forall j {:trigger states[j]} :: m < j <= i ==> states[j].reader == states[i].reader)
    && var s := states[m + 1];
         s.reader.Placed() && s.reader.Cur() < |s.log.segs| && s.reader.Off() == |s.log.segs[s.reader.Cur()]|
  }

  lemma {:induction false} EndFound(states: seq<State>, steps: seq<Step>, fromLsn: nat, i: nat) returns (m: nat)
    requires Run(states, steps, fromLsn) && i <= |steps| && states[i].ended
    ensures EndedAt(states, steps, m, i)
  {
    assert i > 0;
    var s, a := states[i - 1], steps[i - 1];
    assert Enabled(s, a) && states[i] == Perform(s, a);
    RunKeepsOk(states, steps, fromLsn, i - 1);
    if a.ReadFrame? {
      m := i - 1;
    } else {
      m := EndFound(states, steps, fromLsn, i - 1);
      assert states[i].reader == states[i - 1].reader;
    }
  }

  /** The writer appends to the reader's segment in step `j`. */
  ghost predicate Grows(states: seq<State>, steps: seq<Step>, j: nat)
    requires j < |steps| && |states| == |steps| + 1
  {
    steps[j].Append? && states[j].reader.Placed() && |states[j].log.segs| == states[j].reader.Cur() + 1
  }

  /** The unread rest is what was appended to that segment since the end was hit. */
  lemma {:induction false} RestIsNew(states: seq<State>, steps: seq<Step>, fromLsn: nat, m: nat, i: nat)
    requires Run(states, steps, fromLsn) && i <= |steps| && EndedAt(states, steps, m, i)
    ensures var s := states[i];
            && s.reader.Placed() && s.reader.Cur() < |s.log.segs|
            && (s.reader.Off() < |s.log.segs[s.reader.Cur()]| <==>
                exists j: nat :: m < j < i && Grows(states, steps, j))
    decreases i
  {
    RunKeepsOk(states, steps, fromLsn, i);
    CurBelow(states[i], states[0].reader.Cur());
    if i > m + 1 {
      RunKeepsOk(states, steps, fromLsn, i - 1);
      var s, a := states[i - 1], steps[i - 1];
      assert Enabled(s, a) && states[i] == Perform(s, a);
      assert s.reader == states[i].reader;
      RestIsNew(states, steps, fromLsn, m, i - 1);
      assert s.reader.Off() <= |s.log.segs[s.reader.Cur()]|;
      if Grows(states, steps, i - 1) {
        assert s.reader.Off() < |states[i].log.segs[s.reader.Cur()]|;
      } else {
        assert states[i].log.segs[s.reader.Cur()] == s.log.segs[s.reader.Cur()];
      }
    }
  }

  /** Since the reader hit the end, the writer has appended to its segment. */
  ghost predicate GrownSince(states: seq<State>, steps: seq<Step>, i: nat)
    requires i <= |steps| && |states| == |steps| + 1
  {
    exists m: nat, j: nat :: EndedAt(states, steps, m, i) && m < j < i && Grows(states, steps, j)
  }

  /** The entries in the segments between the one read and the one moved to. */
  ghost function JumpedOver(s: State, origin: nat): seq<Entry>
    requires Ok(s, origin) && s.Moves()
  {
    MovedIsOk(s, origin);
    Flat(s.log.segs[s.reader.Cur() + 1..Relisted(s).Cur()])
  }

  /**
   Over every run: a listing skips entries if and only if the reader moves on, and either
   its segment was appended to since it read the end, or a segment it jumps over has entries.
   */
  lemma SkipsExactly(states: seq<State>, steps: seq<Step>, fromLsn: nat, i: nat)
    requires Run(states, steps, fromLsn) && i < |steps| && steps[i].Relist?
    ensures states[0].reader.Placed() && Ok(states[i], states[0].reader.Cur())
    ensures Skipped(states[i], states[0].reader.Cur()) != [] <==>
              states[i].Moves() && (GrownSince(states, steps, i) || JumpedOver(states[i], states[0].reader.Cur()) != [])
  {
    RunKeepsOk(states, steps, fromLsn, i);
    assert Enabled(states[i], steps[i]);
    var s, origin := states[i], states[0].reader.Cur();
    var m := EndFound(states, steps, fromLsn, i);
    RestIsNew(states, steps, fromLsn, m, i);
    GrownIs(states, steps, fromLsn, m, i);
    if s.Moves() {
      MovedIsOk(s, origin);
      assert Skipped(s, origin) == s.log.segs[s.reader.Cur()][s.reader.Off()..] + JumpedOver(s, origin);
    }
  }

  lemma GrownIs(states: seq<State>, steps: seq<Step>, fromLsn: nat, m: nat, i: nat)
    requires Run(states, steps, fromLsn) && i <= |steps| && EndedAt(states, steps, m, i)
    ensures GrownSince(states, steps, i) <==> exists j: nat :: m < j < i && Grows(states, steps, j)
  {
    if GrownSince(states, steps, i) {
      var m': nat, j: nat :| EndedAt(states, steps, m', i) && m' < j < i && Grows(states, steps, j);
      EndUnique(states, steps, m, m', i);
    }
  }

  lemma EndUnique(states: seq<State>, steps: seq<Step>, m: nat, m': nat, i: nat)
    requires i <= |steps| && |states| == |steps| + 1 && EndedAt(states, steps, m, i) && EndedAt(states, steps, m', i)
    ensures m == m'
  {
  }

  // ---- without prunes -------------------------------------------------------------------------------------

  lemma {:induction false} WholeListing(n: nat)
    ensures |Listing(n, {})| == n && forall i :: 0 <= i < n ==> Listing(n, {})[i] == i
  {
    if n > 0 {
      WholeListing(n - 1);
    }
  }

  /** As long as nothing has been pruned the reader's position is the segment's number. */
  ghost predicate Unpruned(s: State) {
    s.gone == {} && |s.reader.listed| <= |s.log.segs| && forall i :: 0 <= i < |s.reader.listed| ==>
        s.reader.listed[i] == i
  }

  lemma {:induction false} StaysUnpruned(states: seq<State>, steps: seq<Step>, fromLsn: nat, i: nat)
    requires Run(states, steps, fromLsn) && i <= |steps| && states[i].gone == {}
    ensures Unpruned(states[i])
  {
    if i == 0 {
      WholeListing(|states[0].log.segs|);
    } else {
      var s, a := states[i - 1], steps[i - 1];
      assert Enabled(s, a) && states[i] == Perform(s, a);
      StaysUnpruned(states, steps, fromLsn, i - 1);
      WholeListing(|s.log.segs|);
    }
  }

  lemma {:induction false} SegmentsGrow(states: seq<State>, steps: seq<Step>, fromLsn: nat, j: nat, i: nat)
    requires Run(states, steps, fromLsn) && j <= i <= |steps|
    ensures |states[j].log.segs| <= |states[i].log.segs| && states[j].gone <= states[i].gone
    ensures |states[j].log.segs| < |states[i].log.segs| <==> exists k :: j <= k < i && steps[k].Rotate?
  {
    if j < i {
      SegmentsGrow(states, steps, fromLsn, j, i - 1);
      assert Enabled(states[i - 1], steps[i - 1]);
    }
  }

  /** Since the reader hit the end, the writer has appended to its segment and then rotated. */
  ghost predicate AppendedThenRotated(states: seq<State>, steps: seq<Step>, i: nat)
    requires i <= |steps| && |states| == |steps| + 1
  {
    exists m: nat, j: nat, k: nat :: EndedAt(states, steps, m, i) && m < j < k < i && Grows(states, steps, j) &&
        steps[k].Rotate?
  }

  lemma RotatedAfter(states: seq<State>, steps: seq<Step>, fromLsn: nat, m: nat, j: nat, i: nat)
    requires Run(states, steps, fromLsn) && i <= |steps| && EndedAt(states, steps, m, i) && m < j < i &&
             Grows(states, steps, j) && states[i].gone == {}
    ensures states[i].Moves() <==> exists k :: j < k < i && steps[k].Rotate?
  {
    RunKeepsOk(states, steps, fromLsn, j);
    SegmentsGrow(states, steps, fromLsn, j, i);
    assert states[j].gone == {};
    StaysUnpruned(states, steps, fromLsn, j);
    assert states[j].reader == states[i].reader;
    assert |states[i].reader.listed| == |states[j].log.segs|;
    WholeListing(|states[i].log.segs|);
    assert !steps[j].Rotate?;
  }

  /**
   Over every run, as long as nothing has been pruned: a listing skips entries if and only
   if, between the end-of-file read and the listing, the writer appended to the segment being
   read and then rotated.
   */
  lemma PassesOverExactly(states: seq<State>, steps: seq<Step>, fromLsn: nat, i: nat)
    requires Run(states, steps, fromLsn) && i < |steps| && steps[i].Relist? && states[i].gone == {}
    ensures states[0].reader.Placed() && Ok(states[i], states[0].reader.Cur())
    ensures Skipped(states[i], states[0].reader.Cur()) != [] <==> AppendedThenRotated(states, steps, i)
  {
    SkipsExactly(states, steps, fromLsn, i);
    assert Enabled(states[i], steps[i]);
    var s, origin := states[i], states[0].reader.Cur();
    var m := EndFound(states, steps, fromLsn, i);
    GrownIs(states, steps, fromLsn, m, i);
    StaysUnpruned(states, steps, fromLsn, i);
    if s.Moves() {
      NoJump(s, origin);
    }
    if j: nat :| m < j < i && Grows(states, steps, j) {
      RotatedAfter(states, steps, fromLsn, m, j, i);
    }
    if AppendedThenRotated(states, steps, i) {
      var m': nat, j: nat, k: nat :| EndedAt(states, steps, m', i) && m' < j < k < i && Grows(states, steps, j) &&
          steps[k].Rotate?;
      EndUnique(states, steps, m, m', i);
      RotatedAfter(states, steps, fromLsn, m, j, i);
    }
  }

  lemma NoJump(s: State, origin: nat)
    requires Ok(s, origin) && Unpruned(s) && s.Moves()
    ensures JumpedOver(s, origin) == []
  {
    MovedIsOk(s, origin);
    WholeListing(|s.log.segs|);
    assert Relisted(s).Cur() == s.reader.Cur() + 1;
    assert s.log.segs[s.reader.Cur() + 1..s.reader.Cur() + 1] == [];
  }

  // ---- what is missed stays missed ---------------------------------------------------------------------------

  ghost predicate Among(a: seq<Entry>, b: seq<Entry>) {
    forall e :: e in a ==> e in b
  }

  /** Every step leaves what was consumed and returned in place. */
  lemma StepExtends(states: seq<State>, steps: seq<Step>, fromLsn: nat, k: nat)
    requires Run(states, steps, fromLsn) && k < |steps|
    ensures var o := states[0].reader;
            && o.Placed() && Ok(states[k], o.Cur()) && Ok(states[k + 1], o.Cur())
            && Consumed(states[k], o.Cur()) <= Consumed(states[k + 1], o.Cur())
            && states[k].returned <= states[k + 1].returned
            && Among(states[k + 1].returned[|states[k].returned|..],
                     Consumed(states[k + 1], o.Cur())[|Consumed(states[k], o.Cur())|..])
  {
    RunKeepsOk(states, steps, fromLsn, k);
    RunKeepsOk(states, steps, fromLsn, k + 1);
    var s, a, origin := states[k], steps[k], states[0].reader.Cur();
    assert Enabled(s, a);
    if a.Relist? {
      RelistSkips(s, origin);
    } else if a.ReadFrame? {
      FrameExtends(s, origin);
    } else {
      WriterReturns(s, a, origin);
    }
  }

  lemma FrameExtends(s: State, origin: nat)
    requires Ok(s, origin) && Enabled(s, ReadFrame) && Ok(Perform(s, ReadFrame), origin)
    ensures var s' := Perform(s, ReadFrame);
            && Consumed(s, origin) <= Consumed(s', origin) && s.returned <= s'.returned
            && Among(s'.returned[|s.returned|..], Consumed(s', origin)[|Consumed(s, origin)|..])
  {
    var s', seg, pos := Perform(s, ReadFrame), s.log.segs[s.reader.Cur()], s.reader.Off();
    var more := if pos < |seg| then [seg[pos]] else [];
    assert Consumed(s', origin) == Consumed(s, origin) + more;
    assert s'.returned == s.returned + From(more, s.reader.fromLsn);
    assert forall e :: e in From(more, s.reader.fromLsn) ==> e in more;
    assert Consumed(s', origin)[|Consumed(s, origin)|..] == more;
    assert s'.returned[|s.returned|..] == From(more, s.reader.fromLsn);
  }

  /** All that is returned from step `k` on lies beyond what was consumed then. */
  lemma {:induction false} ReadsAhead(states: seq<State>, steps: seq<Step>, fromLsn: nat, k: nat, i: nat)
    requires Run(states, steps, fromLsn) && k <= i <= |steps|
    ensures var o := states[0].reader;
            && o.Placed() && Ok(states[k], o.Cur()) && Ok(states[i], o.Cur())
            && Consumed(states[k], o.Cur()) <= Consumed(states[i], o.Cur()) && states[k].returned <= states[i].returned
            && Among(states[i].returned[|states[k].returned|..],
                     Consumed(states[i], o.Cur())[|Consumed(states[k], o.Cur())|..])
    decreases i
  {
    RunKeepsOk(states, steps, fromLsn, i);
    if k < i {
      ReadsAhead(states, steps, fromLsn, k, i - 1);
      StepExtends(states, steps, fromLsn, i - 1);
      var origin := states[0].reader.Cur();
      TailsJoin(states[k].returned, states[i - 1].returned, states[i].returned,
                Consumed(states[k], origin), Consumed(states[i - 1], origin), Consumed(states[i], origin));
    }
  }

  lemma TailsJoin(r0: seq<Entry>, r1: seq<Entry>, r2: seq<Entry>, c0: seq<Entry>, c1: seq<Entry>, c2: seq<Entry>)
    requires r0 <= r1 <= r2 && c0 <= c1 <= c2
    requires Among(r1[|r0|..], c1[|c0|..]) && Among(r2[|r1|..], c2[|c1|..])
    ensures r0 <= r2 && c0 <= c2 && Among(r2[|r0|..], c2[|c0|..])
  {
    assert r2[|r0|..] == r1[|r0|..] + r2[|r1|..];
    assert c2[|c0|..] == c1[|c0|..] + c2[|c1|..];
  }

  /** Consumed entries have ascending LSNs. */
  lemma ConsumedAscends(s: State, origin: nat, i: nat, j: nat)
    requires Ok(s, origin) && i < j < |Consumed(s, origin)|
    ensures Consumed(s, origin)[i].lsn < Consumed(s, origin)[j].lsn
  {
    var segs, all, c := s.log.segs, Flat(s.log.segs), Consumed(s, origin);
    CurBelow(s, origin);
    var rest := segs[s.reader.Cur()][s.reader.Off()..] + Flat(segs[s.reader.Cur() + 1..]);
    ConsumedIsFirst(s, origin, rest);
    assert segs == segs[..origin] + segs[origin..];
    FlatConcat(segs[..origin], segs[origin..]);
    var n := |Flat(segs[..origin])|;
    assert all == Flat(segs[..origin]) + (c + rest);
    assert all[n + i] == c[i] && all[n + j] == c[j];
  }

  lemma {:induction false} FromMembers(s: seq<Entry>, lsn: nat)
    ensures forall e :: e in From(s, lsn) ==> e in s
  {
    if s != [] {
      FromMembers(s[..|s| - 1], lsn);
      assert s == s[..|s| - 1] + [s[|s| - 1]];
    }
  }

  /** The first entry missed comes next among the wanted ones, and is never returned. */
  lemma MissedIsNext(states: seq<State>, steps: seq<Step>, fromLsn: nat, k: nat, i: nat)
    requires Run(states, steps, fromLsn) && k < i <= |steps| && steps[k].Relist? &&
             NothingMissed(states, steps, fromLsn, k)
    requires Misses(states, steps, fromLsn, k) && |states[k].returned| < |states[i].returned|
    ensures states[0].reader.Placed() && states[0].reader.Cur() <= |states[i].log.segs|
    ensures var n, w := |states[k].returned|, Wanted(states[i], states[0].reader.Cur(), fromLsn);
            n < |w| && states[i].returned[n] != w[n]
  {
    AtMiss(states, steps, fromLsn, k);
    ReadsAhead(states, steps, fromLsn, k + 1, i);
    var origin := states[0].reader.Cur();
    CurBelow(states[i], origin);
    MissedCompared(states[k], states[k + 1], states[i], origin, fromLsn);
  }

  /** The states around a listing that misses something. */
  lemma AtMiss(states: seq<State>, steps: seq<Step>, fromLsn: nat, k: nat)
    requires Run(states, steps, fromLsn) && k < |steps| && steps[k].Relist? && NothingMissed(states, steps, fromLsn, k)
    requires Misses(states, steps, fromLsn, k)
    ensures var s, s1, o := states[k], states[k + 1], states[0].reader;
            && o.Placed() && Ok(s, o.Cur()) && Ok(s1, o.Cur())
            && s1.returned == s.returned == From(Consumed(s, o.Cur()), fromLsn)
            && Consumed(s1, o.Cur()) == Consumed(s, o.Cur()) + Skipped(s, o.Cur())
            && From(Skipped(s, o.Cur()), fromLsn) != []
  {
    ReturnedIsConsumed(states, steps, fromLsn, k);
    assert Enabled(states[k], steps[k]);
    RelistSkips(states[k], states[0].reader.Cur());
  }

  /** The first wanted entry of the skipped ones comes next after those consumed before. */
  lemma NextWanted(c: seq<Entry>, skipped: seq<Entry>, more: seq<Entry>, fromLsn: nat)
    requires From(skipped, fromLsn) != []
    ensures var w, n := From(c + (skipped + more), fromLsn), |From(c, fromLsn)|;
            n < |w| && w[n] == From(skipped, fromLsn)[0] && w[n] in skipped
  {
    FromConcat(c, skipped + more, fromLsn);
    FromConcat(skipped, more, fromLsn);
    FromMembers(skipped, fromLsn);
    assert From(skipped, fromLsn)[0] in From(skipped, fromLsn);
  }

  /** Of an entry among the skipped ones and one consumed later, the second has the larger LSN. */
  lemma LaterIsLarger(t: State, origin: nat, c: seq<Entry>, skipped: seq<Entry>, tail: seq<Entry>, x: Entry, y: Entry)
    requires Ok(t, origin) && Consumed(t, origin) == c + skipped + tail && x in skipped && y in tail
    ensures x.lsn < y.lsn
  {
    var i :| 0 <= i < |skipped| && skipped[i] == x;
    var j :| 0 <= j < |tail| && tail[j] == y;
    var d := Consumed(t, origin);
    assert d[|c| + i] == x && d[|c| + |skipped| + j] == y;
    ConsumedAscends(t, origin, |c| + i, |c| + |skipped| + j);
  }

  lemma MissedCompared(s: State, s1: State, t: State, origin: nat, fromLsn: nat)
    requires Ok(s, origin) && Ok(s1, origin) && Ok(t, origin) && origin <= |t.log.segs|
    requires s.returned == From(Consumed(s, origin), fromLsn) && s1.returned == s.returned
    requires Consumed(s1, origin) == Consumed(s, origin) + Skipped(s, origin) && From(Skipped(s, origin), fromLsn) != []
    requires Consumed(s1, origin) <= Consumed(t, origin) && s1.returned < t.returned
    requires Among(t.returned[|s1.returned|..], Consumed(t, origin)[|Consumed(s1, origin)|..])
    ensures var n, w := |s.returned|, Wanted(t, origin, fromLsn); n < |w| && t.returned[n] != w[n]
  {
    var c, skipped, n := Consumed(s, origin), Skipped(s, origin), |s.returned|;
    var tail := Consumed(t, origin)[|Consumed(s1, origin)|..];
    var rest := t.log.segs[t.reader.Cur()][t.reader.Off()..] + Flat(t.log.segs[t.reader.Cur() + 1..]);
    ConsumedIsFirst(t, origin, rest);
    assert Consumed(t, origin) == c + skipped + tail;
    assert Consumed(t, origin) + rest == c + (skipped + (tail + rest));
    NextWanted(c, skipped, tail + rest, fromLsn);
    assert t.returned[n..][0] == t.returned[n] && t.returned[n] in t.returned[n..];
    LaterIsLarger(t, origin, c, skipped, tail, Wanted(t, origin, fromLsn)[n], t.returned[n]);
  }

  /** So once a wanted entry has been missed and another returned, what was returned is no prefix any more. */
  lemma NoPrefixOnceMissed(states: seq<State>, steps: seq<Step>, fromLsn: nat, k: nat, i: nat)
    requires Run(states, steps, fromLsn) && k < i <= |steps| && steps[k].Relist? &&
             NothingMissed(states, steps, fromLsn, k)
    requires Misses(states, steps, fromLsn, k) && |states[k].returned| < |states[i].returned|
    ensures states[0].reader.Placed() && states[0].reader.Cur() <= |states[i].log.segs|
    ensures !(states[i].returned <= Wanted(states[i], states[0].reader.Cur(), fromLsn))
  {
    MissedIsNext(states, steps, fromLsn, k, i);
  }

  // ---- two runs in which an entry is missed -----------------------------------------------------------------------

  predicate Leads(s: State, a: Step, s': State) {
    Enabled(s, a) && Perform(s, a) == s'
  }

  /** A state of a log that starts with LSN 1 and a reader from there. */
  function At(segs: Segments, gone: set<nat>, listed: seq<nat>, segIdx: nat, file: Option<nat>, ended: bool,
      returned: seq<Entry>): State {
    State(Log(segs, 1), gone, Tailer(listed, segIdx, file, 1), ended, returned)
  }

  const E1: Entry := Entry(1, [])
  const E2: Entry := Entry(2, [])
  const E3: Entry := Entry(3, [])

  lemma FlatTwo(a: seq<Entry>, b: seq<Entry>)
    ensures Flat([a]) == a && Flat([b]) == b && Flat([a, b]) == a + b
  {
    var none: Segments := [];
    assert Flat(none) == [];
    assert [a][1..] == none && a + [] == a;
    assert [b][1..] == none && b + [] == b;
    assert [a, b][1..] == [b];
  }

  lemma FlatThree(a: seq<Entry>, b: seq<Entry>, c: seq<Entry>)
    ensures Flat([a]) == a && Flat([a, b]) == a + b && Flat([a, b, c]) == a + b + c
  {
    FlatTwo(a, b);
    FlatTwo(b, c);
    assert [a, b, c][1..] == [b, c];
    assert a + (b + c) == a + b + c;
  }

  lemma Listings()
    ensures Listing(1, {}) == [0] && Listing(2, {}) == [0, 1] && Listing(3, {0}) == [1, 2]
  {
    assert Listing(0, {}) == [] && Listing(1, {0}) == [] && Listing(2, {0}) == [1];
  }

  /** Both runs begin alike: the reader returns entry 1 and hits the end. */
  function Opening(): seq<State> {
    [At([[]], {}, [0], 0, None, false, []), At([[E1]], {}, [0], 0, None, false, []),
     At([[E1]], {}, [0], 0, Some(1), false, [E1]),
     At([[E1]], {}, [0], 0, Some(1), true, [E1])]
  }

  lemma OpeningLeads()
    ensures LeadsAll(Opening(), [Append([]), ReadFrame, ReadFrame]) && Starts(Opening()[0], 1)
  {
    FlatThree([], [], []);
    Listings();
    assert From([E1], 1) == [E1] && [] + [E1] == [E1];
    assert [[]][0 := [] + [E1]] == [[E1]];
  }

  /** Entry 2 is appended to the segment being read and the log rotated before the listing. */
  function PassedOver(): seq<State> {
    [At([[E1]], {}, [0], 0, Some(1), true, [E1]), At([[E1, E2]], {}, [0], 0, Some(1), true, [E1]),
     At([[E1, E2], []], {}, [0], 0, Some(1), true, [E1]), At([[E1, E2], [E3]], {}, [0], 0, Some(1), true, [E1]),
     At([[E1, E2], [E3]], {}, [0, 1], 1, None, false, [E1]),
         At([[E1, E2], [E3]], {}, [0, 1], 1, Some(1), false, [E1, E3])]
  }

  lemma PassedOverWrites()
    ensures var m := PassedOver();
            Leads(m[0], Append([]), m[1]) && Leads(m[1], Rotate, m[2]) && Leads(m[2], Append([]), m[3])
  {
    FlatThree([E1], [], []);
    FlatThree([E1, E2], [], []);
    assert [E1] + [E2] == [E1, E2] && [] + [E3] == [E3];
    assert [[E1]][0 := [E1] + [E2]] == [[E1, E2]];
    assert [[E1, E2]] + [[]] == [[E1, E2], []] && [[E1, E2], []][1 := [] + [E3]] == [[E1, E2], [E3]];
  }

  lemma PassedOverReads()
    ensures var m := PassedOver(); Leads(m[3], Relist, m[4]) && Leads(m[4], ReadFrame, m[5])
  {
    Listings();
    assert From([E3], 1) == [E3] && [E1] + [E3] == [E1, E3];
  }

  lemma PassedOverLeads()
    ensures var m, steps := PassedOver(), [Append([]), Rotate, Append([]), Relist, ReadFrame];
            m[0] == Opening()[3] && LeadsAll(m, steps)
  {
    PassedOverWrites();
    PassedOverReads();
  }

  lemma EntryPassedOver() returns (states: seq<State>, steps: seq<Step>)
    ensures Run(states, steps, 1) && Flat(states[|steps|].log.segs) == [E1, E2, E3] &&
            states[|steps|].returned == [E1, E3]
  {
    PassedOverLeads();
    RunsJoin(PassedOver(), [Append([]), Rotate, Append([]), Relist, ReadFrame]);
    states := Opening()[..3] + PassedOver();
    steps := [Append([]), ReadFrame, ReadFrame] + [Append([]), Rotate, Append([]), Relist, ReadFrame];
    FlatThree([E1, E2], [E3], []);
  }

  ghost predicate LeadsAll(states: seq<State>, steps: seq<Step>) {
    |states| == |steps| + 1 && forall i {:trigger steps[i]} :: 0 <= i < |steps| ==>
        Leads(states[i], steps[i], states[i + 1])
  }

  lemma LeadsJoin(s: seq<State>, a: seq<Step>, t: seq<State>, b: seq<Step>)
    requires LeadsAll(s, a) && LeadsAll(t, b) && s[|a|] == t[0]
    ensures LeadsAll(s[..|a|] + t, a + b)
  {
    var states, steps := s[..|a|] + t, a + b;
    forall i {:trigger steps[i]} | 0 <= i < |steps| ensures Leads(states[i], steps[i], states[i + 1]) {
      if i < |a| {
        assert steps[i] == a[i] && states[i] == s[i] && states[i + 1] == s[i + 1];
      } else {
        assert steps[i] == b[i - |a|] && states[i] == t[i - |a|] && states[i + 1] == t[i + 1 - |a|];
      }
    }
  }

  lemma RunsJoin(later: seq<State>, rest: seq<Step>)
    requires LeadsAll(later, rest) && later[0] == Opening()[3]
    ensures Run(Opening()[..3] + later, [Append([]), ReadFrame, ReadFrame] + rest, 1)
  {
    var first := [Append([]), ReadFrame, ReadFrame];
    OpeningLeads();
    LeadsJoin(Opening(), first, later, rest);
    var states, steps := Opening()[..3] + later, first + rest;
    forall i {:trigger steps[i]} | 0 <= i < |steps|
      ensures Enabled(states[i], steps[i]) && states[i + 1] == Perform(states[i], steps[i])
    {
      assert Leads(states[i], steps[i], states[i + 1]);
    }
  }

  /** The log rotates twice and the segment read is pruned: position 1 is then segment 2, past entry 2. */
  function PrunedPast(): seq<State> {
    [At([[E1]], {}, [0], 0, Some(1), true, [E1]), At([[E1], []], {}, [0], 0, Some(1), true, [E1]),
     At([[E1], [E2]], {}, [0], 0, Some(1), true, [E1]), At([[E1], [E2], []], {}, [0], 0, Some(1), true, [E1]),
     At([[E1], [E2], [E3]], {}, [0], 0, Some(1), true, [E1]), At([[E1], [E2], [E3]], {0}, [0], 0, Some(1), true, [E1]),
     At([[E1], [E2], [E3]], {0}, [1, 2], 1, None, false, [E1]),
         At([[E1], [E2], [E3]], {0}, [1, 2], 1, Some(1), false, [E1, E3])]
  }

  lemma PrunedPastWrites()
    ensures var m := PrunedPast();
            Leads(m[0], Rotate, m[1]) && Leads(m[1], Append([]), m[2]) && Leads(m[2], Rotate, m[3]) &&
                Leads(m[3], Append([]), m[4])
  {
    FlatThree([E1], [], []);
    FlatThree([E1], [E2], []);
    assert [] + [E2] == [E2] && [] + [E3] == [E3];
    assert [[E1]] + [[]] == [[E1], []] && [[E1], []][1 := [] + [E2]] == [[E1], [E2]];
    assert [[E1], [E2]] + [[]] == [[E1], [E2], []] && [[E1], [E2], []][2 := [] + [E3]] == [[E1], [E2], [E3]];
  }

  lemma PrunedPastReads()
    ensures var m := PrunedPast();
            Leads(m[4], Prune(0), m[5]) && Leads(m[5], Relist, m[6]) && Leads(m[6], ReadFrame, m[7])
  {
    Listings();
    assert {} + {0} == {0};
    assert From([E3], 1) == [E3] && [E1] + [E3] == [E1, E3];
  }

  lemma PrunedPastLeads()
    ensures var m, steps := PrunedPast(), [Rotate, Append([]), Rotate, Append([]), Prune(0), Relist, ReadFrame];
            m[0] == Opening()[3] && LeadsAll(m, steps)
  {
    PrunedPastWrites();
    PrunedPastReads();
  }

  lemma EntryPrunedPast() returns (states: seq<State>, steps: seq<Step>)
    ensures Run(states, steps, 1) && Flat(states[|steps|].log.segs) == [E1, E2, E3] &&
            states[|steps|].returned == [E1, E3]
    ensures states[|steps|].gone == {0}
  {
    PrunedPastLeads();
    RunsJoin(PrunedPast(), [Rotate, Append([]), Rotate, Append([]), Prune(0), Relist, ReadFrame]);
    states := Opening()[..3] + PrunedPast();
    steps := [Append([]), ReadFrame, ReadFrame] + [Rotate, Append([]), Rotate, Append([]), Prune(0), Relist, ReadFrame];
    FlatThree([E1], [E2], [E3]);
  }
}
