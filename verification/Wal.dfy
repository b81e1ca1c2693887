/**
 The write-ahead log: segments appended and rotated by the writer, tailed by
 readers, pruned from the front, framed on disk, recovered on open.
 */
module Wal {
  import opened Types
  import opened Keys

  datatype Entry = Entry(lsn: nat, payload: Str)

  type Segments = seq<seq<Entry>>

  function Flat(segs: Segments): seq<Entry> {
    if segs == [] then [] else segs[0] + Flat(segs[1..])
  }

  lemma {:induction false} FlatConcat(a: Segments, b: Segments)
    ensures Flat(a + b) == Flat(a) + Flat(b)
  {
    if a == [] {
      assert a + b == b;
    } else {
      assert (a + b)[1..] == a[1..] + b;
      FlatConcat(a[1..], b);
    }
  }

  function From(s: seq<Entry>, lsn: nat): seq<Entry> {
    if s == [] then []
    else From(s[..|s| - 1], lsn) + if s[|s| - 1].lsn >= lsn then [s[|s| - 1]] else []
  }

  lemma {:induction false} FromConcat(a: seq<Entry>, b: seq<Entry>, lsn: nat)
    ensures From(a + b, lsn) == From(a, lsn) + From(b, lsn)
  {
    if b == [] {
      assert a + b == a;
    } else {
      var n := |b| - 1;
      assert (a + b)[..|a| + n] == a + b[..n];
      FromConcat(a, b[..n], lsn);
    }
  }

  // ---- the writer -----------------------------------------------------------------

  /** A log that has not been pruned: at least one segment, LSNs consecutive from `first`. */
  datatype Log = Log(segs: Segments, first: nat) {
    ghost predicate Valid() {
      |segs| > 0 && forall i {:trigger Flat(segs)[i]} :: 0 <= i < |Flat(segs)| ==> Flat(segs)[i].lsn == first + i
    }

    ghost function NextLsn(): nat {
      first + |Flat(segs)|
    }
  }

  /** Append: the entry goes to the last segment; a full segment is followed by a fresh one. */
  function Appended(log: Log, lsn: nat, payload: Str, rotate: bool): Log
    requires |log.segs| > 0
  {
    var n := |log.segs| - 1;
    var grown := log.segs[n := log.segs[n] + [Entry(lsn, payload)]];
    log.(segs := if rotate then grown + [[]] else grown)
  }

  lemma AppendFlat(log: Log, lsn: nat, payload: Str, rotate: bool)
    requires |log.segs| > 0
    ensures Flat(Appended(log, lsn, payload, rotate).segs) == Flat(log.segs) + [Entry(lsn, payload)]
  {
    var n := |log.segs| - 1;
    var front, last := log.segs[..n], log.segs[n];
    var e := Entry(lsn, payload);
    assert log.segs == front + [last];
    assert log.segs[n := last + [e]] == front + [last + [e]];
    FlatConcat(front, [last]);
    FlatConcat(front, [last + [e]]);
    FlatConcat(front + [last + [e]], [[]]);
    assert Flat([last]) == last && Flat([last + [e]]) == last + [e] && Flat([[]]) == [];
  }

  lemma AppendKeepsValid(log: Log, payload: Str, rotate: bool)
    requires log.Valid()
    ensures Appended(log, log.NextLsn(), payload, rotate).Valid()
    ensures Appended(log, log.NextLsn(), payload, rotate).NextLsn() == log.NextLsn() + 1
  {
    AppendFlat(log, log.NextLsn(), payload, rotate);
  }

  const SEGMENT_MAX: nat := 64 * 1024 * 1024

  function SizeOf(frame: Entry -> nat, entries: seq<Entry>): nat {
    if entries == [] then 0 else SizeOf(frame, entries[..|entries| - 1]) + frame(entries[|entries| - 1])
  }

  lemma SizeAppended(frame: Entry -> nat, entries: seq<Entry>, e: Entry)
    ensures SizeOf(frame, entries + [e]) == SizeOf(frame, entries) + frame(e)
  {
    assert (entries + [e])[..|entries|] == entries;
  }

  /** The writer's fields; `frame` gives the encoded size of an entry, overhead included. */
  class Writer {
    const frame: Entry -> nat
    var segs: Segments
    var currentSize: nat
    var nextLsn: nat
    const first: nat

    ghost predicate Valid()
      reads this
    {
      && Log(segs, first).Valid() && nextLsn == Log(segs, first).NextLsn()
      && currentSize == SizeOf(frame, segs[|segs| - 1]) && currentSize < SEGMENT_MAX
    }

    constructor (frame: Entry -> nat)
      ensures Valid() && segs == [[]] && nextLsn == 1 && first == 1 && this.frame == frame
    {
      this.frame := frame;
      segs, currentSize, nextLsn, first := [[]], 0, 1, 1;
    }

    /** Rotates exactly when the entry brings the segment to the maximum size. */
    method Append(payload: Str) returns (lsn: nat)
      requires Valid()
      modifies this
      ensures Valid() && lsn == old(nextLsn) && nextLsn == old(nextLsn) + 1
      ensures var last := old(segs)[|old(segs)| - 1] + [Entry(lsn, payload)];
              Log(segs, first) == Appended(old(Log(segs, first)), lsn, payload, SizeOf(frame, last) >= SEGMENT_MAX)
    {
      lsn := nextLsn;
      nextLsn := nextLsn + 1;
      var entry := Entry(lsn, payload);
      ghost var before := Log(segs, first);
      var n := |segs| - 1;
      SizeAppended(frame, segs[n], entry);
      segs := segs[n := segs[n] + [entry]];
      currentSize := currentSize + frame(entry);
      ghost var rotated := currentSize >= SEGMENT_MAX;
      if currentSize >= SEGMENT_MAX {
        segs := segs + [[]];
        currentSize := 0;
      }
      AppendKeepsValid(before, payload, rotated);
      assert Log(segs, first) == Appended(before, lsn, payload, rotated);
    }
  }

  // ---- the reader -------------------------------------------------------------------

  /** `known` segments listed so far, the one being read, and the offset in it when its file is open. */
  datatype Reader = Reader(known: nat, segIdx: nat, file: Option<nat>, fromLsn: nat)

  function NewReader(log: Log, fromLsn: nat): Reader {
    Reader(|log.segs|, 0, None, fromLsn)
  }

  ghost predicate ReaderOk(log: Log, r: Reader) {
    && r.segIdx < r.known <= |log.segs|
    && (r.file.Some? ==> r.file.value <= |log.segs[r.segIdx]|)
  }

  function Offset(r: Reader): nat {
    if r.file.Some? then r.file.value else 0
  }

  /** One call of Next; None is io.EOF. */
  function ReadNext(log: Log, r: Reader): (Reader, Option<Entry>)
    requires ReaderOk(log, r)
    decreases |log.segs| - r.segIdx, |log.segs[r.segIdx]| - Offset(r)
  {
    var pos := Offset(r);
    if pos == |log.segs[r.segIdx]| then
      if |log.segs| > r.known then ReadNext(log, Reader(|log.segs|, r.segIdx + 1, None, r.fromLsn))
      else (r.(file := Some(pos)), None)
    else
      var e := log.segs[r.segIdx][pos];
      var r' := r.(file := Some(pos + 1));
      if e.lsn < r.fromLsn then ReadNext(log, r') else (r', Some(e))
  }

  /** The same call as the source runs it: a loop over the reader's fields. */
  class WalReader {
    var known: nat
    var segIdx: nat
    var file: Option<nat>
    const fromLsn: nat

    constructor (log: Log, fromLsn: nat)
      ensures View() == NewReader(log, fromLsn)
    {
      known, segIdx, file := |log.segs|, 0, None;
      this.fromLsn := fromLsn;
    }

    ghost function View(): Reader
      reads this
    {
      Reader(known, segIdx, file, fromLsn)
    }

    method Next(log: Log) returns (e: Option<Entry>)
      requires ReaderOk(log, View())
      modifies this
      ensures ReaderOk(log, View()) && ReadNext(log, old(View())) == (View(), e)
    {
      ghost var start := View();
      while true
        invariant ReaderOk(log, View()) && ReadNext(log, View()) == ReadNext(log, start)
        decreases |log.segs| - segIdx, |log.segs[segIdx]| - Offset(View())
      {
        if file.None? {
          file := Some(0);
        }
        if file.value == |log.segs[segIdx]| {
          if |log.segs| > known {
            file := None;
            known := |log.segs|;
            segIdx := segIdx + 1;
            continue;
          }
          return None;
        }
        var entry := log.segs[segIdx][file.value];
        file := Some(file.value + 1);
        if entry.lsn < fromLsn {
          continue;
        }
        return Some(entry);
      }
    }
  }

  /** What lies before the reader's position. */
  ghost function Consumed(log: Log, r: Reader): seq<Entry>
    requires ReaderOk(log, r)
  {
    Flat(log.segs[..r.segIdx]) + log.segs[r.segIdx][..Offset(r)]
  }

  lemma {:induction false} NextAdvances(log: Log, r: Reader)
    requires ReaderOk(log, r)
    ensures var (r', e) := ReadNext(log, r);
            && ReaderOk(log, r') && r'.fromLsn == r.fromLsn
            && From(Consumed(log, r'), r.fromLsn) ==
               From(Consumed(log, r), r.fromLsn) + (if e.Some? then [e.value] else [])
    decreases |log.segs| - r.segIdx, |log.segs[r.segIdx]| - Offset(r)
  {
    var pos := Offset(r);
    var seg := log.segs[r.segIdx];
    if pos == |seg| {
      if |log.segs| > r.known {
        ConsumedAcross(log, r);
        NextAdvances(log, Reader(|log.segs|, r.segIdx + 1, None, r.fromLsn));
      }
    } else {
      ConsumedNext(log, r);
      if seg[pos].lsn < r.fromLsn {
        NextAdvances(log, r.(file := Some(pos + 1)));
      }
    }
  }

  /** Moving on from the end of a segment consumes nothing. */
  lemma ConsumedAcross(log: Log, r: Reader)
    requires ReaderOk(log, r) && Offset(r) == |log.segs[r.segIdx]| && |log.segs| > r.known
    ensures Consumed(log, Reader(|log.segs|, r.segIdx + 1, None, r.fromLsn)) == Consumed(log, r)
  {
    var seg := log.segs[r.segIdx];
    assert log.segs[..r.segIdx + 1] == log.segs[..r.segIdx] + [seg];
    FlatConcat(log.segs[..r.segIdx], [seg]);
    assert Flat([seg]) == seg && seg[..|seg|] == seg;
  }

  lemma ConsumedNext(log: Log, r: Reader)
    requires ReaderOk(log, r) && Offset(r) < |log.segs[r.segIdx]|
    ensures var e := log.segs[r.segIdx][Offset(r)];
            From(Consumed(log, r.(file := Some(Offset(r) + 1))), r.fromLsn) ==
              From(Consumed(log, r), r.fromLsn) + if e.lsn >= r.fromLsn then [e] else []
  {
    var seg, pos := log.segs[r.segIdx], Offset(r);
    assert Consumed(log, r.(file := Some(pos + 1))) == Consumed(log, r) + [seg[pos]];
    FromConcat(Consumed(log, r), [seg[pos]], r.fromLsn);
    assert From([seg[pos]], r.fromLsn) == if seg[pos].lsn >= r.fromLsn then [seg[pos]] else [];
  }

  /** Appending and rotating leave everything before a reader in place. */
  lemma AppendKeepsConsumed(log: Log, r: Reader, payload: Str, rotate: bool)
    requires log.Valid() && ReaderOk(log, r)
    ensures var log' := Appended(log, log.NextLsn(), payload, rotate);
            ReaderOk(log', r) && Consumed(log', r) == Consumed(log, r)
  {
    var log' := Appended(log, log.NextLsn(), payload, rotate);
    assert log'.segs[..r.segIdx] == log.segs[..r.segIdx];
  }

  // ---- interleaved runs ---------------------------------------------------------------

  datatype Action = Write(payload: Str, rotate: bool) | Read

  datatype World = World(log: Log, reader: Reader, returned: seq<Entry>)

  function Act(w: World, a: Action): World
    requires |w.log.segs| > 0 && ReaderOk(w.log, w.reader)
  {
    match a
    case Write(payload, rotate) => w.(log := Appended(w.log, w.log.first + |Flat(w.log.segs)|, payload, rotate))
    case Read =>
      var (r, e) := ReadNext(w.log, w.reader);
      w.(reader := r, returned := w.returned + if e.Some? then [e.value] else [])
  }

  ghost predicate Inv(w: World) {
    w.log.Valid() && ReaderOk(w.log, w.reader) && w.returned == From(Consumed(w.log, w.reader), w.reader.fromLsn)
  }

  lemma ActKeepsInv(w: World, a: Action)
    requires Inv(w)
    ensures Inv(Act(w, a)) && Act(w, a).reader.fromLsn == w.reader.fromLsn && Act(w, a).log.first == w.log.first
  {
    match a
    case Write(payload, rotate) =>
      AppendKeepsValid(w.log, payload, rotate);
      AppendKeepsConsumed(w.log, w.reader, payload, rotate);
    case Read => NextAdvances(w.log, w.reader);
  }

  ghost predicate Run(worlds: seq<World>, actions: seq<Action>, log0: Log, fromLsn: nat) {
    && |worlds| == |actions| + 1 && log0.Valid() && worlds[0] == World(log0, NewReader(log0, fromLsn), [])
    && forall i {:trigger actions[i]} :: 0 <= i < |actions| ==>
         |worlds[i].log.segs| > 0 && ReaderOk(worlds[i].log, worlds[i].reader) &&
             worlds[i + 1] == Act(worlds[i], actions[i])
  }

  lemma {:induction false} RunKeepsInv(worlds: seq<World>, actions: seq<Action>, log0: Log, fromLsn: nat, i: nat)
    requires Run(worlds, actions, log0, fromLsn) && i < |worlds|
    ensures Inv(worlds[i]) && worlds[i].reader.fromLsn == fromLsn && worlds[i].log.first == log0.first
  {
    if i > 0 {
      RunKeepsInv(worlds, actions, log0, fromLsn, i - 1);
      assert worlds[i - 1 + 1] == Act(worlds[i - 1], actions[i - 1]);
      ActKeepsInv(worlds[i - 1], actions[i - 1]);
    } else {
      assert Consumed(log0, NewReader(log0, fromLsn)) == [];
    }
  }

  lemma ConsumedIsPrefix(log: Log, r: Reader)
    requires ReaderOk(log, r)
    ensures Consumed(log, r) <= Flat(log.segs)
  {
    var seg := log.segs[r.segIdx];
    assert log.segs == log.segs[..r.segIdx] + [seg] + log.segs[r.segIdx + 1..];
    FlatConcat(log.segs[..r.segIdx] + [seg], log.segs[r.segIdx + 1..]);
    FlatConcat(log.segs[..r.segIdx], [seg]);
    assert Flat([seg]) == seg;
  }

  /** Consecutive LSNs stay consecutive above a bound. */
  lemma {:induction false} FromIsConsecutive(s: seq<Entry>, first: nat, lsn: nat)
    requires forall i {:trigger s[i]} :: 0 <= i < |s| ==> s[i].lsn == first + i
    ensures var f := From(s, lsn); var low := if lsn > first then lsn else first;
            forall i {:trigger f[i]} :: 0 <= i < |f| ==> f[i].lsn == low + i
    ensures first + |s| > lsn ==> |From(s, lsn)| == first + |s| - (if lsn > first then lsn else first)
    ensures first + |s| <= lsn ==> From(s, lsn) == []
  {
    if s != [] {
      FromIsConsecutive(s[..|s| - 1], first, lsn);
      assert s[|s| - 1].lsn == first + |s| - 1;
    }
  }

  /**
   In every interleaving of appends, rotations and reads, what a reader has
   returned is a prefix of the log's entries with LSN >= fromLsn: in order, no
   repeats, no gaps, across segment boundaries.
   */
  lemma ShippingIsPrefixSafe(worlds: seq<World>, actions: seq<Action>, log0: Log, fromLsn: nat, i: nat)
    requires Run(worlds, actions, log0, fromLsn) && i < |worlds|
    ensures worlds[i].returned <= From(Flat(worlds[i].log.segs), fromLsn)
    ensures var low := if fromLsn > log0.first then fromLsn else log0.first;
            forall k {:trigger worlds[i].returned[k]} :: 0 <= k < |worlds[i].returned| ==>
                worlds[i].returned[k].lsn == low + k
  {
    RunKeepsInv(worlds, actions, log0, fromLsn, i);
    var w := worlds[i];
    ConsumedIsPrefix(w.log, w.reader);
    var all, seen := Flat(w.log.segs), Consumed(w.log, w.reader);
    assert all == seen + all[|seen|..];
    FromConcat(seen, all[|seen|..], fromLsn);
    FromIsConsecutive(all, log0.first, fromLsn);
  }

  // ---- when a read reports EOF -----------------------------------------------------------

  /**
   What a call can see: the rest of the open segment and, only if a segment appeared since
   the last listing, the next one.
   */
  ghost function InSight(log: Log, r: Reader): seq<Entry>
    requires ReaderOk(log, r)
  {
    log.segs[r.segIdx][Offset(r)..] + if |log.segs| > r.known then log.segs[r.segIdx + 1] else []
  }

  /** Next reports EOF exactly when nothing in sight is wanted, even if later segments hold entries. */
  lemma {:induction false} EofExactly(log: Log, r: Reader)
    requires ReaderOk(log, r)
    ensures ReadNext(log, r).1.None? <==> From(InSight(log, r), r.fromLsn) == []
    decreases |log.segs| - r.segIdx, |log.segs[r.segIdx]| - Offset(r)
  {
    var pos := Offset(r);
    var seg := log.segs[r.segIdx];
    if pos == |seg| {
      assert seg[pos..] == [];
      if |log.segs| > r.known {
        var r1 := Reader(|log.segs|, r.segIdx + 1, None, r.fromLsn);
        assert InSight(log, r1) == log.segs[r.segIdx + 1] == InSight(log, r);
        EofExactly(log, r1);
      }
    } else {
      var r1 := r.(file := Some(pos + 1));
      assert InSight(log, r) == [seg[pos]] + InSight(log, r1);
      FromConcat([seg[pos]], InSight(log, r1), r.fromLsn);
      assert From([seg[pos]], r.fromLsn) == if seg[pos].lsn >= r.fromLsn then [seg[pos]] else [];
      if seg[pos].lsn < r.fromLsn {
        EofExactly(log, r1);
      }
    }
  }

  /** A reader created over two segments stops at the end of the first, though the second holds the next entry. */
  lemma StallsAtKnownBoundary()
    ensures var log := Log([[Entry(1, [])], [Entry(2, [])]], 1);
            var (r, e) := ReadNext(log, NewReader(log, 1));
            log.Valid() && e == Some(Entry(1, [])) && ReaderOk(log, r) && ReadNext(log, r).1.None?
  {
    var log := Log([[Entry(1, [])], [Entry(2, [])]], 1);
    assert Flat(log.segs) == [Entry(1, []), Entry(2, [])] by {
      assert log.segs[1..] == [[Entry(2, [])]] && log.segs[1..][1..] == [];
    }
  }

  // ---- scanning, pruning and recovery -----------------------------------------------------

  /** scanSegmentForLastLSN over whole frames: the highest LSN, 0 for an empty segment. */
  method ScanLast(entries: seq<Entry>) returns (last: nat)
    ensures forall e :: e in entries ==> e.lsn <= last
    ensures last == 0 || exists e :: e in entries && e.lsn == last
  {
    last := 0;
    for i := 0 to |entries|
      invariant forall k :: 0 <= k < i ==> entries[k].lsn <= last
      invariant last == 0 || exists e :: e in entries && e.lsn == last
    {
      if entries[i].lsn > last {
        last := entries[i].lsn;
      }
    }
  }

  datatype Segment = Segment(number: nat, entries: seq<Entry>)

  /** A segment to delete: below the active one, readable, and holding only entries older than `minLsn`. */
  ghost predicate Doomed(s: Segment, active: nat, minLsn: nat, removable: nat -> bool) {
    && s.number < active && removable(s.number)
    && (exists e :: e in s.entries && e.lsn > 0) && forall e :: e in s.entries ==> e.lsn < minLsn
  }

  ghost function Surviving(segs: seq<Segment>, active: nat, minLsn: nat, removable: nat -> bool): seq<Segment> {
    if segs == [] then []
    else
      var n := |segs| - 1;
      Surviving(segs[..n], active, minLsn, removable) + if Doomed(segs[n], active, minLsn, removable) then []
        else [segs[n]]
  }

  /**
   PruneSegmentsBefore; `removable` says which files the system lets go. The loop
   stops at the active segment, which is sound because segments are listed in order.
   */
  method Prune(segs: seq<Segment>, active: nat, minLsn: nat, removable: nat -> bool)
    returns (kept: seq<Segment>, pruned: nat)
    requires forall i, j :: 0 <= i < j < |segs| ==> segs[i].number < segs[j].number
    ensures kept == Surviving(segs, active, minLsn, removable)
    ensures |kept| + pruned == |segs|
  {
    kept, pruned := [], 0;
    for i := 0 to |segs|
      invariant |kept| + pruned == i
      invariant kept == Surviving(segs[..i], active, minLsn, removable)
    {
      var s := segs[i];
      if s.number >= active {
        NothingDoomed(segs, i, active, minLsn, removable, |segs|);
        assert segs[..|segs|] == segs;
        kept := kept + segs[i..];
        return;
      }
      assert segs[..i + 1][..i] == segs[..i];
      var last := ScanLast(s.entries);
      if last != 0 && last < minLsn && removable(s.number) {
        pruned := pruned + 1;
      } else {
        kept := kept + [s];
      }
    }
    assert segs[..|segs|] == segs;
  }

  lemma {:induction false} NothingDoomed(segs: seq<Segment>, i: nat, active: nat, minLsn: nat, removable: nat -> bool,
      n: nat)
    requires i <= n <= |segs| && forall k :: i <= k < |segs| ==> segs[k].number >= active
    ensures Surviving(segs[..n], active, minLsn, removable) ==
              Surviving(segs[..i], active, minLsn, removable) + segs[i..n]
    decreases n
  {
    if i < n {
      NothingDoomed(segs, i, active, minLsn, removable, n - 1);
      assert segs[..n][..n - 1] == segs[..n - 1] && segs[i..n] == segs[i..n - 1] + [segs[n - 1]];
    }
  }

  /** Pruning removes nothing at or above `minLsn`, nor the active segment, and adds nothing. */
  lemma {:induction false} PruneIsSafe(segs: seq<Segment>, active: nat, minLsn: nat, removable: nat -> bool, s: Segment)
    ensures var kept := Surviving(segs, active, minLsn, removable);
            && (s in kept <==> s in segs && !Doomed(s, active, minLsn, removable))
            && (s in segs && (s.number >= active || exists e :: e in s.entries && e.lsn >= minLsn) ==> s in kept)
  {
    if segs != [] {
      var n := |segs| - 1;
      PruneIsSafe(segs[..n], active, minLsn, removable, s);
      assert segs == segs[..n] + [segs[n]];
    }
  }

  /** OpenWAL reads only the last segment to find the next LSN. */
  method RecoverNextLsn(segs: Segments) returns (next: nat)
    requires |segs| > 0
    ensures forall e :: e in segs[|segs| - 1] ==> e.lsn < next
    ensures next == 1 || exists e :: e in segs[|segs| - 1] && e.lsn + 1 == next
  {
    var last := ScanLast(segs[|segs| - 1]);
    next := last + 1;
  }

  lemma {:induction false} InFlat(segs: Segments, k: nat)
    requires k < |segs|
    ensures Flat(segs) == Flat(segs[..k]) + segs[k] + Flat(segs[k + 1..])
  {
    assert segs == segs[..k] + [segs[k]] + segs[k + 1..];
    FlatConcat(segs[..k] + [segs[k]], segs[k + 1..]);
    FlatConcat(segs[..k], [segs[k]]);
    assert Flat([segs[k]]) == segs[k];
  }

  /**
   The recovered LSN continues the log exactly when the last segment holds an
   entry (or the log is empty). After a rotation with nothing appended since, it
   starts again at 1.
   */
  lemma RecoveryExactly(log: Log, next: nat)
    requires log.Valid() && log.first == 1
    requires var last := log.segs[|log.segs| - 1];
             (forall e :: e in last ==> e.lsn < next) && (next == 1 || exists e :: e in last && e.lsn + 1 == next)
    ensures next == log.NextLsn() <==> log.segs[|log.segs| - 1] != [] || Flat(log.segs) == []
  {
    var n := |log.segs| - 1;
    var last, all := log.segs[n], Flat(log.segs);
    InFlat(log.segs, n);
    assert Flat(log.segs[n + 1..]) == [];
    var before := Flat(log.segs[..n]);
    assert all == before + last;
    forall i | 0 <= i < |last| ensures last[i].lsn == 1 + |before| + i {
      assert last[i] == all[|before| + i];
    }
    if last != [] {
      assert last[|last| - 1] in last;
    }
  }

  // ---- frames on disk ------------------------------------------------------------------------

  /** frameLen(4) + data + crc32(4), with the checksum an arbitrary function. */
  function Frame(data: Str, crc: Str -> nat): Str {
    BigEndian(|data|, 4) + data + BigEndian(crc(data), 4)
  }

  function Frames(datas: seq<Str>, crc: Str -> nat): Str {
    if datas == [] then [] else Frame(datas[0], crc) + Frames(datas[1..], crc)
  }

  /** Read frames until one is incomplete or its checksum is wrong. */
  function Parse(bytes: Str, crc: Str -> nat): seq<Str>
    decreases |bytes|
  {
    if |bytes| < 4 then []
    else
      var n := FromBigEndian(bytes[..4]);
      if |bytes| < 4 + n + 4 then []
      else if FromBigEndian(bytes[4 + n..8 + n]) != crc(bytes[4..4 + n]) then []
      else [bytes[4..4 + n]] + Parse(bytes[8 + n..], crc)
  }

  lemma FrameParts(data: Str, rest: Str, crc: Str -> nat)
    requires |data| < Pow256(4) && crc(data) < Pow256(4)
    ensures var b := Frame(data, crc) + rest; var n := |data|;
            && |b| >= 8 + n && FromBigEndian(b[..4]) == n && b[4..4 + n] == data
            && FromBigEndian(b[4 + n..8 + n]) == crc(data) && b[8 + n..] == rest
  {
    var b, n := Frame(data, crc) + rest, |data|;
    BigEndianRoundTrip(n, 4);
    BigEndianRoundTrip(crc(data), 4);
    assert b[..4] == BigEndian(n, 4);
    assert b[4 + n..8 + n] == BigEndian(crc(data), 4);
  }

  /** A strict prefix of a frame, as a crash in mid-write leaves it, parses to nothing. */
  lemma TornFrame(data: Str, torn: Str, crc: Str -> nat)
    requires |data| < Pow256(4) && crc(data) < Pow256(4) && torn < Frame(data, crc)
    ensures Parse(torn, crc) == []
  {
    if |torn| >= 4 {
      FrameParts(data, [], crc);
      assert Frame(data, crc) + [] == Frame(data, crc);
      assert torn[..4] == Frame(data, crc)[..4];
    }
  }

  lemma ParseOne(data: Str, rest: Str, crc: Str -> nat)
    requires |data| < Pow256(4) && crc(data) < Pow256(4)
    ensures Parse(Frame(data, crc) + rest, crc) == [data] + Parse(rest, crc)
  {
    FrameParts(data, rest, crc);
  }

  ghost predicate Framable(d: Str, crc: Str -> nat) {
    |d| < Pow256(4) && crc(d) < Pow256(4)
  }

  lemma FramesFirst(datas: seq<Str>, tail: Str, crc: Str -> nat)
    requires datas != []
    ensures Frames(datas, crc) + tail == Frame(datas[0], crc) + (Frames(datas[1..], crc) + tail)
  {
  }

  /** Whole frames followed by a torn one read back as exactly the data written. */
  lemma {:induction false} FramesRoundTrip(datas: seq<Str>, last: Str, torn: Str, crc: Str -> nat)
    requires (forall i :: 0 <= i < |datas| ==> Framable(datas[i], crc)) && Framable(last, crc)
    requires torn < Frame(last, crc)
    ensures Parse(Frames(datas, crc) + torn, crc) == datas
    decreases |datas|
  {
    if datas == [] {
      assert Frames(datas, crc) + torn == torn;
      TornFrame(last, torn, crc);
    } else {
      FramesRoundTrip(datas[1..], last, torn, crc);
      FramesFirst(datas, torn, crc);
      assert Framable(datas[0], crc);
      ParseOne(datas[0], Frames(datas[1..], crc) + torn, crc);
      assert datas == [datas[0]] + datas[1..];
    }
  }

  // ---- appending behind a torn frame -----------------------------------------------------------------

  /** The bytes start with a whole frame whose checksum is right. */
  predicate StartsWhole(bytes: Str, crc: Str -> nat) {
    && |bytes| >= 4
    && var n := FromBigEndian(bytes[..4]);
       |bytes| >= 8 + n && FromBigEndian(bytes[4 + n..8 + n]) == crc(bytes[4..4 + n])
  }

  lemma {:induction false} ParseBehind(datas: seq<Str>, rest: Str, crc: Str -> nat)
    requires forall i :: 0 <= i < |datas| ==> Framable(datas[i], crc)
    ensures Parse(Frames(datas, crc) + rest, crc) == datas + Parse(rest, crc)
    decreases |datas|
  {
    if datas == [] {
      assert Frames(datas, crc) + rest == rest;
    } else {
      ParseBehind(datas[1..], rest, crc);
      FramesFirst(datas, rest, crc);
      assert Framable(datas[0], crc);
      ParseOne(datas[0], Frames(datas[1..], crc) + rest, crc);
      FirstApart(datas, Parse(rest, crc));
    }
  }

  lemma FirstApart(a: seq<Str>, b: seq<Str>)
    requires a != []
    ensures a + b == [a[0]] + (a[1..] + b)
  {
  }

  /**
   Reopening appends behind a torn frame. Without one everything written reads back; with
   one, what was appended since is lost, all of it, unless the torn bytes and what follows
   happen to start with a whole frame.
   */
  lemma AppendBehindTear(datas: seq<Str>, torn: Str, nexts: seq<Str>, crc: Str -> nat)
    requires forall i :: 0 <= i < |datas| ==> Framable(datas[i], crc)
    requires forall i :: 0 <= i < |nexts| ==> Framable(nexts[i], crc)
    ensures torn == [] ==> Parse(Frames(datas, crc) + (torn + Frames(nexts, crc)), crc) == datas + nexts
    ensures Parse(Frames(datas, crc) + (torn + Frames(nexts, crc)), crc) == datas <==>
              !StartsWhole(torn + Frames(nexts, crc), crc)
  {
    var rest := torn + Frames(nexts, crc);
    ParseBehind(datas, rest, crc);
    if torn == [] {
      assert rest == Frames(nexts, crc) + [];
      ParseBehind(nexts, [], crc);
      assert nexts + [] == nexts;
    }
    assert Parse(rest, crc) == [] <==> !StartsWhole(rest, crc);
    assert datas + Parse(rest, crc) == datas ==> |Parse(rest, crc)| == 0;
  }

  /** In particular as long as less has been appended than the torn frame was still to hold. */
  lemma LostUntilLongEnough(last: Str, torn: Str, nexts: seq<Str>, crc: Str -> nat)
    requires Framable(last, crc) && torn < Frame(last, crc) && |torn| >= 4 &&
             |torn| + |Frames(nexts, crc)| < |Frame(last, crc)|
    ensures !StartsWhole(torn + Frames(nexts, crc), crc)
  {
    var bytes := torn + Frames(nexts, crc);
    FrameParts(last, [], crc);
    assert Frame(last, crc) + [] == Frame(last, crc);
    assert bytes[..4] == torn[..4] == Frame(last, crc)[..4];
    assert |Frame(last, crc)| == 8 + |last|;
  }
}
