/**
 MATCH (n …) WHERE … LIMIT …: the strategies that answer a single-node pattern, each shown
 to return the nodes a filtered full scan returns.
 */
module Plans {
  import opened Types
  import opened Values
  import opened Keys
  import opened Cursor
  import opened Store
  import opened Leader
  import opened Replay
  import opened Commute
  import opened NodeState
  import opened Indexes
  import opened Lookups
  import opened Conditions
  import P = Parser

  // ---- queries ----------------------------------------------------------------------------------------

  /** MATCH (x:labels {props}) WHERE cond RETURN … LIMIT limit; no limit unless positive. */
  datatype Query = Query(x: Str, labels: seq<Str>, props: Props, cond: Option<P.Expr>, limit: int)

  predicate LabelsMatch(have: seq<Str>, want: seq<Str>) {
    forall l :: l in want ==> l in have
  }

  predicate PropsMatch(r: Render, props: Props, want: Props) {
    forall p :: p in want ==> p in props && Compare(r, props[p], want[p]) == 0
  }

  /** WHERE of a bound node; None is an error. */
  function Where(env: Env, q: Query, n: Node): Option<bool> {
    if q.cond.None? then Some(true)
    else
      var v := Eval(env, q.x, n, q.cond.value);
      if v.None? then None else Some(Truth(v.value))
  }

  /** The nodes of a shard that satisfy the pattern and WHERE. */
  ghost function Wanted(env: Env, q: Query, sh: Shard): set<NodeID> {
    set id | id in sh.nodes && LabelsMatch(Labels(sh, id), q.labels) && PropsMatch(env.r, sh.nodes[id], q.props)
             && Where(env, q, NodeIn(sh, id)) == Some(true)
  }

  function Limited(s: seq<NodeID>, limit: int): seq<NodeID> {
    if limit > 0 && |s| > limit then s[..limit] else s
  }

  /** Filter a full scan, then take LIMIT. */
  ghost function Answer(env: Env, db: DB, q: Query): seq<NodeID> {
    Limited(PerShard(db.shards, sh => Wanted(env, q, sh)), q.limit)
  }

  // ---- filtering candidates ---------------------------------------------------------------------------

  /** Which filters a strategy applies, and whether its candidates carry their labels. */
  datatype Filter = Filter(byLabels: bool, byProps: bool, labelled: bool)

  predicate Passes(env: Env, db: DB, q: Query, f: Filter, id: NodeID)
    requires db.Valid() && db.HasNode(id)
  {
    var n := NodeIn(db.ShardOf(id), id);
    && (f.byLabels ==> LabelsMatch(n.labels, q.labels))
    && (f.byProps ==> PropsMatch(env.r, n.props, q.props))
    && Where(env, q, if f.labelled then n else n.(labels := [])) == Some(true)
  }

  ghost function Passing(env: Env, db: DB, q: Query, f: Filter): set<NodeID>
    requires RecordsOk(db)
  {
    set i, id | 0 <= i < |db.shards| && id in db.shards[i].nodes && (AtHome(db, i, id); Passes(env, db, q, f, id)) :: id
  }

  lemma AtHome(db: DB, i: nat, id: NodeID)
    requires RecordsOk(db) && i < |db.shards| && id in db.shards[i].nodes
    ensures db.HasNode(id) && db.Home(id) == i
  {
    assert RecordsAt(db, i);
  }

  ghost predicate AllStored(db: DB, ids: seq<NodeID>)
    requires db.Valid()
  {
    forall j :: 0 <= j < |ids| ==> db.HasNode(ids[j])
  }

  /** WHERE fails on no stored node, with or without its labels. */
  ghost predicate NeverErrs(env: Env, db: DB, q: Query)
    requires db.Valid()
  {
    forall id: NodeID {:trigger db.HasNode(id)} :: db.HasNode(id) ==>
      Where(env, q, NodeIn(db.ShardOf(id), id)).Some? && Where(env, q, NodeIn(db.ShardOf(id), id).(labels := [])).Some?
  }

  /** The loop over candidates: filters in order, an early stop at `stop` if positive, None on an error. */
  method FilterNodes(env: Env, db: DB, q: Query, f: Filter, cands: seq<NodeID>, stop: int)
    returns (kept: Option<seq<NodeID>>)
    requires RecordsOk(db) && AllStored(db, cands)
    ensures kept.Some? ==> kept.value == Limited(Select(cands, Passing(env, db, q, f)), stop)
    ensures NeverErrs(env, db, q) ==> kept.Some?
  {
    ghost var good := Passing(env, db, q, f);
    var list := [];
    for j := 0 to |cands|
      invariant list == Select(cands[..j], good) && (stop > 0 ==> |list| < stop)
    {
      SelectStep(cands, good, j);
      var ok := Judge(env, db, q, f, cands[j]);
      if ok.None? {
        return None;
      }
      if ok.value {
        list := list + [cands[j]];
        if stop > 0 && |list| >= stop {
          StopsHere(cands, good, j + 1, stop);
          return Some(list);
        }
      }
    }
    assert cands[..|cands|] == cands;
    return Some(list);
  }

  /** One candidate: labels, inline properties, WHERE; None if WHERE errs. */
  method Judge(env: Env, db: DB, q: Query, f: Filter, id: NodeID) returns (ok: Option<bool>)
    requires RecordsOk(db) && db.HasNode(id)
    ensures ok.Some? ==> (ok.value <==> id in Passing(env, db, q, f))
    ensures NeverErrs(env, db, q) ==> ok.Some?
  {
    PassingIs(env, db, q, f, id);
    var n := NodeIn(db.ShardOf(id), id);
    if (f.byLabels && !LabelsMatch(n.labels, q.labels)) || (f.byProps && !PropsMatch(env.r, n.props, q.props)) {
      return Some(false);
    }
    return Where(env, q, if f.labelled then n else n.(labels := []));
  }

  lemma PassingIs(env: Env, db: DB, q: Query, f: Filter, id: NodeID)
    requires RecordsOk(db) && db.HasNode(id)
    ensures id in Passing(env, db, q, f) <==> Passes(env, db, q, f, id)
  {
    if Passes(env, db, q, f, id) {
      assert id in db.shards[db.Home(id)].nodes;
    }
  }

  /** Selecting from a prefix gives a prefix of the selection. */
  lemma {:induction false} SelectPrefix(s: seq<uint64>, keep: set<uint64>, j: nat)
    requires j <= |s|
    ensures Select(s[..j], keep) <= Select(s, keep)
    decreases |s| - j
  {
    if j == |s| {
      assert s[..j] == s;
    } else {
      SelectStep(s, keep, j);
      SelectPrefix(s, keep, j + 1);
    }
  }

  /** A selection that has reached the limit is the whole selection cut to it. */
  lemma StopsHere(s: seq<uint64>, keep: set<uint64>, j: nat, stop: int)
    requires j <= |s| && stop > 0 && |Select(s[..j], keep)| == stop
    ensures Select(s[..j], keep) == Limited(Select(s, keep), stop)
  {
    SelectPrefix(s, keep, j);
  }

  // ---- selections of gathered candidates -----------------------------------------------------------------

  lemma {:induction false} SelectConcat(s: seq<uint64>, t: seq<uint64>, keep: set<uint64>)
    ensures Select(s + t, keep) == Select(s, keep) + Select(t, keep)
  {
    if t == [] {
      assert s + t == s;
    } else {
      var rest, x := t[..|t| - 1], t[|t| - 1];
      SelectConcat(s, rest, keep);
      SelectLast(s + rest, x, keep);
      SelectLast(rest, x, keep);
      assert t == rest + [x] && s + t == (s + rest) + [x];
      var a, b, c := Select(s, keep), Select(rest, keep), if x in keep then [x] else [];
      assert (a + b) + c == a + (b + c);
    }
  }

  lemma SelectLast(s: seq<uint64>, x: uint64, keep: set<uint64>)
    ensures Select(s + [x], keep) == Select(s, keep) + (if x in keep then [x] else [])
  {
    assert (s + [x])[..|s|] == s;
  }

  /** Selecting among each shard's hits is walking the shard's selected hits. */
  lemma {:induction false} SelectGathered(shards: seq<Shard>, hits: Shard -> set<NodeID>, keep: set<NodeID>,
      want: Shard -> set<NodeID>)
    requires forall i :: 0 <= i < |shards| ==> hits(shards[i]) * keep == want(shards[i])
    ensures Select(PerShard(shards, hits), keep) == PerShard(shards, want)
  {
    if shards != [] {
      var last := |shards| - 1;
      SelectGathered(shards[..last], hits, keep, want);
      SelectConcat(PerShard(shards[..last], hits), Ascending(hits(shards[last])), keep);
      SelectOfSet(hits(shards[last]), keep);
    }
  }

  lemma {:induction false} GatherStored(db: DB, give: Shard -> seq<NodeID>, k: nat)
    requires RecordsOk(db) && k <= |db.shards|
    requires forall i, id :: 0 <= i < |db.shards| && id in give(db.shards[i]) ==> id in db.shards[i].nodes
    ensures AllStored(db, Gather(db.shards[..k], give))
  {
    if k > 0 {
      GatherStored(db, give, k - 1);
      assert db.shards[..k][..k - 1] == db.shards[..k - 1];
      var part := give(db.shards[k - 1]);
      forall j | 0 <= j < |part| ensures db.HasNode(part[j]) {
        assert part[j] in part;
        AtHome(db, k - 1, part[j]);
      }
    }
  }

  lemma {:induction false} DecodedStored(nodes: map<NodeID, Props>, prefix: Str, walk: seq<Str>)
    ensures forall id :: id in Decoded(nodes, prefix, walk) ==> id in nodes
  {
    if walk != [] {
      DecodedStored(nodes, prefix, walk[..|walk| - 1]);
    }
  }

  lemma {:induction false} DecodedLastStored(nodes: map<NodeID, Props>, walk: seq<Str>)
    ensures forall id :: id in DecodedLast(nodes, walk) ==> id in nodes
  {
    if walk != [] {
      DecodedLastStored(nodes, walk[..|walk| - 1]);
    }
  }

  // ---- strategies -------------------------------------------------------------------------------------

  lemma LabelsDontMatter(env: Env, q: Query, n: Node)
    requires q.cond.Some? ==> ValuesOnly(q.cond.value)
    ensures Where(env, q, n.(labels := [])) == Where(env, q, n)
  {
    if q.cond.Some? {
      LabelsUnseen(env, q.x, n, [], q.cond.value);
    }
  }

  /** A strategy is right if in every shard its hits that pass are the wanted nodes. */
  ghost predicate Fitting(env: Env, db: DB, q: Query, f: Filter, hits: Shard -> set<NodeID>, i: nat)
    requires RecordsOk(db) && i < |db.shards|
  {
    hits(db.shards[i]) * Passing(env, db, q, f) == Wanted(env, q, db.shards[i])
  }

  lemma FittingFrom(env: Env, db: DB, q: Query, f: Filter, hits: Shard -> set<NodeID>, i: nat)
    requires RecordsOk(db) && i < |db.shards| && hits(db.shards[i]) <= db.shards[i].nodes.Keys
    requires forall id {:trigger id in hits(db.shards[i])} :: id in db.shards[i].nodes && db.HasNode(id) ==>
               ((id in hits(db.shards[i]) && Passes(env, db, q, f, id)) <==> id in Wanted(env, q, db.shards[i]))
    ensures Fitting(env, db, q, f, hits, i)
  {
    forall id: NodeID
      ensures id in hits(db.shards[i]) * Passing(env, db, q, f) <==> id in Wanted(env, q, db.shards[i])
    {
      if id in db.shards[i].nodes {
        AtHome(db, i, id);
        PassingIs(env, db, q, f, id);
        assert id in hits(db.shards[i]) || id !in hits(db.shards[i]);
      }
    }
  }

  lemma StrategyAnswers(env: Env, db: DB, q: Query, f: Filter, hits: Shard -> set<NodeID>, stop: int)
    requires RecordsOk(db) && (stop == 0 || stop == q.limit)
    requires forall i {:trigger Fitting(env, db, q, f, hits, i)} :: 0 <= i < |db.shards| ==>
               Fitting(env, db, q, f, hits, i)
    ensures Limited(Limited(Select(PerShard(db.shards, hits), Passing(env, db, q, f)), stop), q.limit) ==
              Answer(env, db, q)
  {
    var want := sh => Wanted(env, q, sh);
    forall i | 0 <= i < |db.shards| ensures hits(db.shards[i]) * Passing(env, db, q, f) == want(db.shards[i]) {
      assert Fitting(env, db, q, f, hits, i);
    }
    SelectGathered(db.shards, hits, Passing(env, db, q, f), want);
  }

  /** Rendering tells the stored values of a property from the literal exactly as comparison does. */
  ghost predicate RendersFit(r: Render, db: DB, p: Str, lit: Value) {
    forall i, id :: 0 <= i < |db.shards| && id in db.shards[i].nodes && p in db.shards[i].nodes[id] ==>
      (r(db.shards[i].nodes[id][p]) == r(lit) <==> Compare(r, db.shards[i].nodes[id][p], lit) == 0)
  }

  lemma LabelFits(env: Env, db: DB, q: Query, i: nat)
    requires RecordsOk(db) && i < |db.shards| && q.labels != []
    ensures Fitting(env, db, q, Filter(true, true, true), sh => Labelled(sh, q.labels[0]), i)
  {
    forall id | id in db.shards[i].nodes && db.HasNode(id)
      ensures (id in Labelled(db.shards[i], q.labels[0]) && Passes(env, db, q, Filter(true, true, true), id)) <==>
                id in Wanted(env, q, db.shards[i])
    {
      AtHome(db, i, id);
    }
    FittingFrom(env, db, q, Filter(true, true, true), sh => Labelled(sh, q.labels[0]), i);
  }

  lemma CompositeFits(env: Env, db: DB, q: Query, i: nat)
    requires RecordsOk(db) && i < |db.shards| && q.labels == []
    requires forall p :: p in q.props ==> RendersFit(env.r, db, p, q.props[p])
    ensures Fitting(env, db, q, Filter(false, false, true), sh => Matching(env.r, sh, q.props), i)
  {
    forall id | id in db.shards[i].nodes && db.HasNode(id)
      ensures (id in Matching(env.r, db.shards[i], q.props) && Passes(env, db, q, Filter(false, false, true), id)) <==>
                id in Wanted(env, q, db.shards[i])
    {
      AtHome(db, i, id);
      assert MatchesAll(env.r, q.props, db.shards[i].nodes[id]) <==> PropsMatch(env.r, db.shards[i].nodes[id], q.props);
    }
    FittingFrom(env, db, q, Filter(false, false, true), sh => Matching(env.r, sh, q.props), i);
  }

  lemma IndexFits(env: Env, db: DB, q: Query, i: nat, p: Str)
    requires RecordsOk(db) && i < |db.shards| && q.labels == [] && (q.cond.Some? ==> ValuesOnly(q.cond.value))
    requires p in q.props && RendersFit(env.r, db, p, q.props[p])
    ensures Fitting(env, db, q, Filter(false, true, false), sh => Having(env.r, sh, p, env.r(q.props[p])), i)
  {
    forall id | id in db.shards[i].nodes && db.HasNode(id)
      ensures (id in Having(env.r, db.shards[i], p, env.r(q.props[p])) &&
               Passes(env, db, q, Filter(false, true, false), id)) <==> id in Wanted(env, q, db.shards[i])
    {
      AtHome(db, i, id);
      LabelsDontMatter(env, q, NodeIn(db.shards[i], id));
    }
    FittingFrom(env, db, q, Filter(false, true, false), sh => Having(env.r, sh, p, env.r(q.props[p])), i);
  }

  lemma WhereFits(env: Env, db: DB, q: Query, i: nat, p: Str, v: Value)
    requires RecordsOk(db) && i < |db.shards| && q.labels == [] && q.cond.Some? && ValuesOnly(q.cond.value)
    requires Extract(env, q.x, q.cond.value) == Some((p, v)) && v != Nil && RendersFit(env.r, db, p, v)
    ensures Fitting(env, db, q, Filter(false, true, false), sh => Having(env.r, sh, p, env.r(v)), i)
  {
    forall id | id in db.shards[i].nodes && db.HasNode(id)
      ensures (id in Having(env.r, db.shards[i], p, env.r(v)) &&
               Passes(env, db, q, Filter(false, true, false), id)) <==> id in Wanted(env, q, db.shards[i])
    {
      AtHome(db, i, id);
      var n := NodeIn(db.shards[i], id);
      LabelsDontMatter(env, q, n);
      if Where(env, q, n) == Some(true) {
        ExtractSound(env, q.x, n, q.cond.value);
      }
    }
    FittingFrom(env, db, q, Filter(false, true, false), sh => Having(env.r, sh, p, env.r(v)), i);
  }

  lemma ScanFits(env: Env, db: DB, q: Query, i: nat)
    requires RecordsOk(db) && i < |db.shards| && q.labels == []
    ensures Fitting(env, db, q, Filter(false, true, true), (sh: Shard) => sh.nodes.Keys, i)
  {
    forall id | id in db.shards[i].nodes && db.HasNode(id)
      ensures (id in db.shards[i].nodes.Keys && Passes(env, db, q, Filter(false, true, true), id)) <==>
                id in Wanted(env, q, db.shards[i])
    {
      AtHome(db, i, id);
    }
    FittingFrom(env, db, q, Filter(false, true, true), (sh: Shard) => sh.nodes.Keys, i);
  }

  // ---- the choice of a strategy -----------------------------------------------------------------------

  /** The property may be looked up: its index, if any, is complete, its text encodable, and renderings fit. */
  ghost predicate Searchable(env: Env, db: DB, p: Str, v: Value, staleP: set<Str>) {
    && (p in db.reg.indexed ==> p !in staleP) && NulFree(p) && NulFree(env.r(v)) && RendersFit(env.r, db, p, v)
  }

  /** What makes every strategy give the scan's answer. */
  ghost predicate Answerable(env: Env, db: DB, q: Query, staleP: set<Str>, staleC: set<Str>) {
    && IndexInv(env.r, db, staleP, staleC) && Encodable(env.r, db) && NeverErrs(env, db, q)
    && (q.cond.Some? ==> ValuesOnly(q.cond.value)) && AllNulFree(q.labels)
    && (forall p :: p in q.props ==> Searchable(env, db, p, q.props[p], staleP))
    && (forall names :: multiset(names) == multiset(q.props.Keys) ==> DefKey(Definition(names)) !in staleC)
    && (q.cond.Some? && Extract(env, q.x, q.cond.value).Some? ==>
          var (p, v) := Extract(env, q.x, q.cond.value).value; Searchable(env, db, p, v, staleP))
  }

  // ---- equality with null ---------------------------------------------------------------------------------

  ghost function Bearers(db: DB, p: Str): set<NodeID> {
    set i, id | 0 <= i < |db.shards| && id in db.shards[i].nodes && p in db.shards[i].nodes[id] :: id
  }

  /** The wanted nodes that have the property. */
  ghost function WantedBearing(env: Env, q: Query, p: Str, sh: Shard): set<NodeID> {
    set id | id in Wanted(env, q, sh) && p in sh.nodes[id]
  }

  /** The WHERE index is chosen for an equality with null, and the scan's answer has a node without the property. */
  ghost predicate NullLost(env: Env, db: DB, q: Query) {
    && q.labels == [] && q.props == map[] && q.cond.Some? && Extract(env, q.x, q.cond.value).Some?
    && var (p, v) := Extract(env, q.x, q.cond.value).value;
       v == Nil && p in db.reg.indexed && exists id :: id in Answer(env, db, q) && id !in Bearers(db, p)
  }

  lemma BearerIs(db: DB, p: Str, i: nat, id: NodeID)
    requires RecordsOk(db) && i < |db.shards| && id in db.shards[i].nodes
    ensures id in Bearers(db, p) <==> p in db.shards[i].nodes[id]
  {
    if id in Bearers(db, p) {
      var j: nat :| j < |db.shards| && id in db.shards[j].nodes && p in db.shards[j].nodes[id];
      AtHome(db, i, id);
      AtHome(db, j, id);
    }
  }

  /** With a null literal the index strategy's hits that pass are the wanted nodes that have the property. */
  lemma NullHits(env: Env, db: DB, q: Query, i: nat, p: Str)
    requires RecordsOk(db) && i < |db.shards| && q.labels == [] && q.cond.Some? && ValuesOnly(q.cond.value)
    requires Extract(env, q.x, q.cond.value) == Some((p, Nil)) && RendersFit(env.r, db, p, Nil)
    ensures Having(env.r, db.shards[i], p, env.r(Nil)) * Passing(env, db, q, Filter(false, true, false)) ==
              WantedBearing(env, q, p, db.shards[i])
  {
    var sh, f := db.shards[i], Filter(false, true, false);
    forall id: NodeID
      ensures id in Having(env.r, sh, p, env.r(Nil)) * Passing(env, db, q, f) <==> id in WantedBearing(env, q, p, sh)
    {
      if id in sh.nodes {
        AtHome(db, i, id);
        PassingIs(env, db, q, f, id);
        var n := NodeIn(sh, id);
        LabelsDontMatter(env, q, n);
        if Where(env, q, n) == Some(true) {
          ExtractSound(env, q.x, n, q.cond.value);
        }
      }
    }
  }

  lemma {:induction false} SelectKeepsAll(s: seq<uint64>, keep: set<uint64>)
    requires forall x :: x in s ==> x in keep
    ensures Select(s, keep) == s
  {
    if s != [] {
      SelectKeepsAll(s[..|s| - 1], keep);
      assert s == s[..|s| - 1] + [s[|s| - 1]];
    }
  }

  /** Selecting before the cut changes the cut result exactly when the cut result has an element not selected. */
  lemma LimitedSelection(s: seq<uint64>, keep: set<uint64>, limit: int)
    ensures Limited(Select(s, keep), limit) == Limited(s, limit) <==> forall x :: x in Limited(s, limit) ==> x in keep
  {
    SelectIn(s, keep);
    if forall x :: x in Limited(s, limit) ==> x in keep {
      if limit > 0 && |s| > limit {
        SelectKeepsAll(s[..limit], keep);
        SelectPrefix(s, keep, limit);
      } else {
        SelectKeepsAll(s, keep);
      }
    }
    if Limited(Select(s, keep), limit) == Limited(s, limit) {
      forall x | x in Limited(s, limit) ensures x in keep {
        assert x in Select(s, keep);
      }
    }
  }

  /** The strategy's answer for a null literal, and when it is the scan's. */
  lemma NullAnswers(env: Env, db: DB, q: Query, p: Str)
    requires RecordsOk(db) && q.labels == [] && q.cond.Some? && ValuesOnly(q.cond.value)
    requires Extract(env, q.x, q.cond.value) == Some((p, Nil)) && RendersFit(env.r, db, p, Nil)
    ensures var given :=
              Limited(Limited(Select(PerShard(db.shards, sh => Having(env.r, sh, p, env.r(Nil))),
                                     Passing(env, db, q, Filter(false, true, false))), 0), q.limit);
            && given == Limited(PerShard(db.shards, sh => WantedBearing(env, q, p, sh)), q.limit)
            && (given == Answer(env, db, q) <==> forall id :: id in Answer(env, db, q) ==> id in Bearers(db, p))
  {
    var hits, wanted, bearing :=
      sh => Having(env.r, sh, p, env.r(Nil)), sh => Wanted(env, q, sh), sh => WantedBearing(env, q, p, sh);
    var good := Passing(env, db, q, Filter(false, true, false));
    forall i | 0 <= i < |db.shards| ensures hits(db.shards[i]) * good == bearing(db.shards[i]) {
      NullHits(env, db, q, i, p);
    }
    SelectGathered(db.shards, hits, good, bearing);
    forall i | 0 <= i < |db.shards| ensures wanted(db.shards[i]) * Bearers(db, p) == bearing(db.shards[i]) {
      forall id | id in wanted(db.shards[i]) ensures id in Bearers(db, p) <==> p in db.shards[i].nodes[id] {
        BearerIs(db, p, i, id);
      }
    }
    SelectGathered(db.shards, wanted, Bearers(db, p), bearing);
    LimitedSelection(PerShard(db.shards, wanted), Bearers(db, p), q.limit);
  }

  /** Label strategy: candidates from the label index, all filters, early stop. */
  method ByLabel(env: Env, db: DB, q: Query, ghost staleP: set<Str>, ghost staleC: set<Str>)
    returns (found: Option<seq<NodeID>>)
    requires RecordsOk(db) && q.labels != []
    ensures Answerable(env, db, q, staleP, staleC) ==> found == Some(Answer(env, db, q))
  {
    var cands := FindByLabel(db, q.labels[0]);
    ghost var give := (sh: Shard) => LabelHits(q.labels[0], sh);
    forall i, id | 0 <= i < |db.shards| && id in give(db.shards[i]) ensures id in db.shards[i].nodes {
      DecodedStored(db.shards[i].nodes, IndexPrefix(q.labels[0]),
                    Walk(Met(db.shards[i].labelIdx, IndexPrefix(q.labels[0]))));
    }
    GatherStored(db, give, |db.shards|);
    assert db.shards[..|db.shards|] == db.shards;
    var kept := FilterNodes(env, db, q, Filter(true, true, true), cands, q.limit);
    found := if kept.Some? then Some(Limited(kept.value, q.limit)) else None;
    if Answerable(env, db, q, staleP, staleC) {
      ghost var hits := (sh: Shard) => Labelled(sh, q.labels[0]);
      LabelHitsExact(env.r, db, q.labels[0]);
      forall i | 0 <= i < |db.shards| ensures Fitting(env, db, q, Filter(true, true, true), hits, i) {
        LabelFits(env, db, q, i);
      }
      StrategyAnswers(env, db, q, Filter(true, true, true), hits, q.limit);
    }
  }

  /** Composite strategy: candidates match all inline properties already; only WHERE is left. */
  method ByComposite(env: Env, db: DB, q: Query, ghost staleP: set<Str>, ghost staleC: set<Str>)
    returns (found: Option<seq<NodeID>>)
    requires RecordsOk(db) && q.labels == [] && |q.props| >= 2
    ensures Answerable(env, db, q, staleP, staleC) ==> found == Some(Answer(env, db, q))
  {
    var cands, names := FindByComposite(env.r, db, q.props);
    ghost var def := Definition(names);
    ghost var give := (sh: Shard) => CompositeHits(env.r, db.reg, def, q.props, sh);
    forall i, id | 0 <= i < |db.shards| && id in give(db.shards[i]) ensures id in db.shards[i].nodes {
      DecodedLastStored(db.shards[i].nodes, Walk(Met(db.shards[i].compIdx, CompPrefix(env.r, def, q.props))));
    }
    GatherStored(db, give, |db.shards|);
    assert db.shards[..|db.shards|] == db.shards;
    var kept := FilterNodes(env, db, q, Filter(false, false, true), cands.value, 0);
    found := if kept.Some? then Some(Limited(kept.value, q.limit)) else None;
    if Answerable(env, db, q, staleP, staleC) {
      ghost var hits := (sh: Shard) => Matching(env.r, sh, q.props);
      CompositeHitsExact(env.r, db, names, q.props, staleP, staleC);
      forall i | 0 <= i < |db.shards| ensures Fitting(env, db, q, Filter(false, false, true), hits, i) {
        CompositeFits(env, db, q, i);
      }
      StrategyAnswers(env, db, q, Filter(false, false, true), hits, 0);
    }
  }

  /** Candidates from a property index carry no labels; the remaining filters follow. */
  method ByProperty(env: Env, db: DB, q: Query, p: Str, v: Value) returns (found: Option<seq<NodeID>>)
    requires RecordsOk(db)
    ensures var cands := Gather(db.shards, sh => PropertyHits(env.r, db.reg, p, v, sh));
            && (found.Some? ==>
                found.value == Limited(Limited(Select(cands, Passing(env, db, q, Filter(false, true, false))), 0),
                                       q.limit))
            && (NeverErrs(env, db, q) ==> found.Some?)
  {
    var cands := FindByProperty(env.r, db, p, v);
    ghost var give := (sh: Shard) => PropertyHits(env.r, db.reg, p, v, sh);
    forall i, id | 0 <= i < |db.shards| && id in give(db.shards[i]) ensures id in db.shards[i].nodes {
      var prefix := IndexPrefix(PropText(p, env.r(v)));
      DecodedStored(db.shards[i].nodes, prefix, Walk(Met(db.shards[i].propIdx, prefix)));
    }
    GatherStored(db, give, |db.shards|);
    assert db.shards[..|db.shards|] == db.shards;
    var kept := FilterNodes(env, db, q, Filter(false, true, false), cands, 0);
    found := if kept.Some? then Some(Limited(kept.value, q.limit)) else None;
  }

  /** Inline index strategy, on whichever indexed property. */
  method ByInlineIndex(env: Env, db: DB, q: Query, p: Str, ghost staleP: set<Str>, ghost staleC: set<Str>)
    returns (found: Option<seq<NodeID>>)
    requires RecordsOk(db) && q.labels == [] && p in q.props
    ensures Answerable(env, db, q, staleP, staleC) ==> found == Some(Answer(env, db, q))
  {
    found := ByProperty(env, db, q, p, q.props[p]);
    if Answerable(env, db, q, staleP, staleC) {
      ghost var hits := (sh: Shard) => Having(env.r, sh, p, env.r(q.props[p]));
      PropertyHitsExact(env.r, db, p, q.props[p], staleP, staleC);
      forall i | 0 <= i < |db.shards| ensures Fitting(env, db, q, Filter(false, true, false), hits, i) {
        IndexFits(env, db, q, i, p);
      }
      StrategyAnswers(env, db, q, Filter(false, true, false), hits, 0);
    }
  }

  /**
   WHERE index strategy: an equality taken out of WHERE, which is then evaluated in full. With
   a null literal it returns the wanted nodes that have the property, which is the scan's
   answer exactly when that answer has no node without it.
   */
  method ByWhereIndex(env: Env, db: DB, q: Query, p: Str, v: Value, ghost staleP: set<Str>, ghost staleC: set<Str>)
    returns (found: Option<seq<NodeID>>)
    requires RecordsOk(db) && q.labels == [] && q.cond.Some? && Extract(env, q.x, q.cond.value) == Some((p, v))
    ensures Answerable(env, db, q, staleP, staleC) && v != Nil ==> found == Some(Answer(env, db, q))
    ensures Answerable(env, db, q, staleP, staleC) && v == Nil ==>
              && found == Some(Limited(PerShard(db.shards, sh => WantedBearing(env, q, p, sh)), q.limit))
              && (found == Some(Answer(env, db, q)) <==> forall id :: id in Answer(env, db, q) ==> id in Bearers(db, p))
  {
    found := ByProperty(env, db, q, p, v);
    if Answerable(env, db, q, staleP, staleC) {
      PropertyHitsExact(env.r, db, p, v, staleP, staleC);
      if v == Nil {
        NullAnswers(env, db, q, p);
      } else {
        ghost var hits := (sh: Shard) => Having(env.r, sh, p, env.r(v));
        forall i | 0 <= i < |db.shards| ensures Fitting(env, db, q, Filter(false, true, false), hits, i) {
          WhereFits(env, db, q, i, p, v);
        }
        StrategyAnswers(env, db, q, Filter(false, true, false), hits, 0);
      }
    }
  }

  /** forEachNode's order: shard by shard, records in ID order. */
  method AllNodes(db: DB) returns (ids: seq<NodeID>)
    ensures ids == PerShard(db.shards, (sh: Shard) => sh.nodes.Keys)
  {
    ghost var hits := (sh: Shard) => sh.nodes.Keys;
    ids := [];
    for i := 0 to |db.shards|
      invariant ids == PerShard(db.shards[..i], hits)
    {
      assert db.shards[..i + 1][..i] == db.shards[..i];
      ids := ids + Ascending(db.shards[i].nodes.Keys);
    }
    assert db.shards[..|db.shards|] == db.shards;
  }

  /** Fallback: a full scan with early stop. */
  method ByScan(env: Env, db: DB, q: Query, ghost staleP: set<Str>, ghost staleC: set<Str>)
    returns (found: Option<seq<NodeID>>)
    requires RecordsOk(db) && q.labels == []
    ensures Answerable(env, db, q, staleP, staleC) ==> found == Some(Answer(env, db, q))
  {
    var cands := AllNodes(db);
    ghost var hits := (sh: Shard) => sh.nodes.Keys;
    ghost var give := (sh: Shard) => Ascending(hits(sh));
    forall i, id | 0 <= i < |db.shards| && id in give(db.shards[i]) ensures id in db.shards[i].nodes {
      assert id in Ascending(db.shards[i].nodes.Keys);
    }
    GatherStored(db, give, |db.shards|);
    assert db.shards[..|db.shards|] == db.shards;
    var kept := FilterNodes(env, db, q, Filter(false, true, true), cands, q.limit);
    found := if kept.Some? then Some(Limited(kept.value, q.limit)) else None;
    if Answerable(env, db, q, staleP, staleC) {
      forall i | 0 <= i < |db.shards| ensures Fitting(env, db, q, Filter(false, true, true), hits, i) {
        ScanFits(env, db, q, i);
      }
      StrategyAnswers(env, db, q, Filter(false, true, true), hits, q.limit);
    }
  }

  // ---- the answer over the stored values ---------------------------------------------------------------

  ghost predicate Understood(q: Query) {
    q.cond.Some? ==> Plain(q.x, q.cond.value)
  }

  /** Holds every label of the pattern, stores an equal value for each of its properties, and WHERE says so. */
  ghost predicate Meets(env: Env, q: Query, n: Node)
    requires Understood(q)
  {
    && (forall l :: l in q.labels ==> l in n.labels)
    && (forall p :: p in q.props ==> p in n.props && Equals(env.r, n.props[p], q.props[p]))
    && (q.cond.Some? ==> Says(env, q.x, n, q.cond.value))
  }

  ghost function Meeting(env: Env, q: Query, sh: Shard): set<NodeID>
    requires Understood(q)
  {
    set id | id in sh.nodes && Meets(env, q, Node(id, Labels(sh, id), sh.nodes[id]))
  }

  lemma WantedMeets(env: Env, q: Query, sh: Shard)
    requires Understood(q)
    ensures Wanted(env, q, sh) == Meeting(env, q, sh)
  {
    forall id | id in sh.nodes ensures id in Wanted(env, q, sh) <==> id in Meeting(env, q, sh) {
      var n := NodeIn(sh, id);
      if q.cond.Some? {
        PlainMeans(env, q.x, n, q.cond.value);
      }
      forall p | p in q.props && p in n.props
        ensures Compare(env.r, n.props[p], q.props[p]) == 0 <==> Equals(env.r, n.props[p], q.props[p])
      {
        CompareMeans(env.r, n.props[p], q.props[p]);
      }
    }
  }

  /** With a plain WHERE the scan's answer is the nodes that meet the query, cut to LIMIT; WHERE never errs. */
  lemma AnswerMeets(env: Env, db: DB, q: Query)
    requires Understood(q)
    ensures var all := PerShard(db.shards, sh => Meeting(env, q, sh));
            Answer(env, db, q) == if q.limit > 0 && |all| > q.limit then all[..q.limit] else all
    ensures q.cond.Some? ==> ValuesOnly(q.cond.value)
    ensures db.Valid() ==> NeverErrs(env, db, q)
  {
    forall i | 0 <= i < |db.shards|
      ensures Ascending(Wanted(env, q, db.shards[i])) == Ascending(Meeting(env, q, db.shards[i]))
    {
      WantedMeets(env, q, db.shards[i]);
    }
    var wanted, meeting := sh => Wanted(env, q, sh), sh => Meeting(env, q, sh);
    GatherSame(db.shards, sh => Ascending(wanted(sh)), sh => Ascending(meeting(sh)));
    if q.cond.Some? {
      PlainSeesValues(q.x, q.cond.value);
      forall n: Node ensures Where(env, q, n).Some? {
        PlainMeans(env, q.x, n, q.cond.value);
      }
    }
  }

  /** The nodes whose number under `p` stands in the relation to `b`; a missing property is below every number. */
  ghost function Numerically(sh: Shard, p: Str, op: P.CompOp, b: real): set<NodeID> {
    set id | id in sh.nodes &&
      if p !in sh.nodes[id] then op == P.Lt || op == P.Lte || op == P.Neq
      else sh.nodes[id][p].Num? && var a := sh.nodes[id][p].num;
        match op
        case Lt => a < b
        case Gt => a > b
        case Lte => a <= b
        case Gte => a >= b
        case Eq => a == b
        case Neq => a != b
  }

  /** `WHERE x.p op number` over nodes whose `p` is a number if they have it. */
  lemma NumbersAnswer(env: Env, db: DB, x: Str, p: Str, op: P.CompOp, l: P.Literal, limit: int)
    requires env.lit(l).Num? && RecordsOk(db)
    requires forall i, id :: 0 <= i < |db.shards| && id in db.shards[i].nodes && p in db.shards[i].nodes[id] ==>
               db.shards[i].nodes[id][p].Num?
    ensures var q := Query(x, [], map[], Some(P.Comp(P.Prop(x, p), op, P.Lit(l))), limit);
            var all := PerShard(db.shards, sh => Numerically(sh, p, op, env.lit(l).num));
            && Answer(env, db, q) == (if limit > 0 && |all| > limit then all[..limit] else all)
            && !NullLost(env, db, q)
  {
    var cond := P.Comp(P.Prop(x, p), op, P.Lit(l));
    var q := Query(x, [], map[], Some(cond), limit);
    assert Plain(x, cond);
    AnswerMeets(env, db, q);
    var meeting, stands := sh => Meeting(env, q, sh), sh => Numerically(sh, p, op, env.lit(l).num);
    forall i | 0 <= i < |db.shards| ensures Ascending(meeting(db.shards[i])) == Ascending(stands(db.shards[i])) {
      assert meeting(db.shards[i]) == stands(db.shards[i]);
    }
    GatherSame(db.shards, sh => Ascending(meeting(sh)), sh => Ascending(stands(sh)));
  }

  /**
   execNodeMatch: whichever strategy the registries and the pattern select, and whichever
   indexed key is picked, the answer is the filtered full scan cut to LIMIT, unless and only
   unless the WHERE index is chosen for an equality with null and that scan's answer has a
   node without the property.
   */
  method ExecNodeMatch(env: Env, db: DB, q: Query, ghost staleP: set<Str>, ghost staleC: set<Str>)
    returns (found: Option<seq<NodeID>>)
    requires RecordsOk(db)
    ensures Answerable(env, db, q, staleP, staleC) ==>
              found.Some? && (found.value == Answer(env, db, q) <==> !NullLost(env, db, q))
    ensures Answerable(env, db, q, staleP, staleC) && Understood(q) ==>
              var all := PerShard(db.shards, sh => Meeting(env, q, sh));
              found.Some? && (!NullLost(env, db, q) <==>
                              found.value == if q.limit > 0 && |all| > q.limit then all[..q.limit] else all)
  {
    if Understood(q) {
      AnswerMeets(env, db, q);
    }
    if q.labels != [] {
      found := ByLabel(env, db, q, staleP, staleC);
      return;
    }
    if |q.props| >= 2 {
      var names := NamesOf(q.props);
      if DefKey(Definition(names)) in db.reg.composite {
        found := ByComposite(env, db, q, staleP, staleC);
        return;
      }
    }
    var indexed := set p | p in q.props && p in db.reg.indexed;
    if indexed != {} {
      var p :| p in indexed;
      found := ByInlineIndex(env, db, q, p, staleP, staleC);
      return;
    }
    if q.cond.Some? && q.props == map[] {
      var eq := Extract(env, q.x, q.cond.value);
      if eq.Some? && eq.value.0 in db.reg.indexed {
        found := ByWhereIndex(env, db, q, eq.value.0, eq.value.1, staleP, staleC);
        return;
      }
    }
    found := ByScan(env, db, q, staleP, staleC);
  }

  // ---- candidates for longer patterns ---------------------------------------------------------------------

  lemma BareLabelFits(env: Env, db: DB, q: Query, i: nat)
    requires RecordsOk(db) && i < |db.shards| && |q.labels| == 1 && q.props == map[] && q.cond.None?
    ensures Fitting(env, db, q, Filter(false, false, true), sh => Labelled(sh, q.labels[0]), i)
  {
    forall id | id in db.shards[i].nodes && db.HasNode(id)
      ensures (id in Labelled(db.shards[i], q.labels[0]) && Passes(env, db, q, Filter(false, false, true), id)) <==>
                id in Wanted(env, q, db.shards[i])
    {
      AtHome(db, i, id);
    }
    FittingFrom(env, db, q, Filter(false, false, true), sh => Labelled(sh, q.labels[0]), i);
  }

  lemma BareIndexFits(env: Env, db: DB, q: Query, i: nat, p: Str)
    requires RecordsOk(db) && i < |db.shards| && q.labels == [] && q.cond.None?
    requires q.props.Keys == {p} && RendersFit(env.r, db, p, q.props[p])
    ensures Fitting(env, db, q, Filter(false, false, false), sh => Having(env.r, sh, p, env.r(q.props[p])), i)
  {
    forall id | id in db.shards[i].nodes && db.HasNode(id)
      ensures (id in Having(env.r, db.shards[i], p, env.r(q.props[p])) &&
               Passes(env, db, q, Filter(false, false, false), id)) <==> id in Wanted(env, q, db.shards[i])
    {
      AtHome(db, i, id);
    }
    FittingFrom(env, db, q, Filter(false, false, false), sh => Having(env.r, sh, p, env.r(q.props[p])), i);
  }

  /** One label and nothing else: the label index's answer as it stands. */
  method CandidatesByLabel(env: Env, db: DB, q: Query, ghost staleP: set<Str>, ghost staleC: set<Str>)
    returns (found: Option<seq<NodeID>>)
    requires RecordsOk(db) && |q.labels| == 1 && q.props == map[] && q.cond.None? && q.limit == 0
    ensures Answerable(env, db, q, staleP, staleC) ==> found == Some(Answer(env, db, q))
  {
    var cands := FindByLabel(db, q.labels[0]);
    ghost var give := (sh: Shard) => LabelHits(q.labels[0], sh);
    forall i, id | 0 <= i < |db.shards| && id in give(db.shards[i]) ensures id in db.shards[i].nodes {
      DecodedStored(db.shards[i].nodes, IndexPrefix(q.labels[0]),
                    Walk(Met(db.shards[i].labelIdx, IndexPrefix(q.labels[0]))));
    }
    GatherStored(db, give, |db.shards|);
    assert db.shards[..|db.shards|] == db.shards;
    found := FilterNodes(env, db, q, Filter(false, false, true), cands, 0);
    if Answerable(env, db, q, staleP, staleC) {
      ghost var hits := (sh: Shard) => Labelled(sh, q.labels[0]);
      LabelHitsExact(env.r, db, q.labels[0]);
      forall i | 0 <= i < |db.shards| ensures Fitting(env, db, q, Filter(false, false, true), hits, i) {
        BareLabelFits(env, db, q, i);
      }
      StrategyAnswers(env, db, q, Filter(false, false, true), hits, 0);
    }
  }

  /** One indexed property and nothing else: the property index's answer as it stands. */
  method CandidatesByProperty(env: Env, db: DB, q: Query, p: Str, ghost staleP: set<Str>, ghost staleC: set<Str>)
    returns (found: Option<seq<NodeID>>)
    requires RecordsOk(db) && q.labels == [] && q.props.Keys == {p} && q.cond.None? && q.limit == 0
    ensures Answerable(env, db, q, staleP, staleC) ==> found == Some(Answer(env, db, q))
  {
    var cands := FindByProperty(env.r, db, p, q.props[p]);
    ghost var give := (sh: Shard) => PropertyHits(env.r, db.reg, p, q.props[p], sh);
    forall i, id | 0 <= i < |db.shards| && id in give(db.shards[i]) ensures id in db.shards[i].nodes {
      var prefix := IndexPrefix(PropText(p, env.r(q.props[p])));
      DecodedStored(db.shards[i].nodes, prefix, Walk(Met(db.shards[i].propIdx, prefix)));
    }
    GatherStored(db, give, |db.shards|);
    assert db.shards[..|db.shards|] == db.shards;
    found := FilterNodes(env, db, q, Filter(false, false, false), cands, 0);
    if Answerable(env, db, q, staleP, staleC) {
      ghost var hits := (sh: Shard) => Having(env.r, sh, p, env.r(q.props[p]));
      PropertyHitsExact(env.r, db, p, q.props[p], staleP, staleC);
      forall i | 0 <= i < |db.shards| ensures Fitting(env, db, q, Filter(false, false, false), hits, i) {
        BareIndexFits(env, db, q, i, p);
      }
      StrategyAnswers(env, db, q, Filter(false, false, false), hits, 0);
    }
  }

  /** findCandidates: the nodes of a pattern's end, by whichever index, are those of a filtered scan. */
  method FindCandidates(env: Env, db: DB, x: Str, labels: seq<Str>, props: Props, ghost staleP: set<Str>,
      ghost staleC: set<Str>) returns (found: Option<seq<NodeID>>)
    requires RecordsOk(db)
    ensures Answerable(env, db, Query(x, labels, props, None, 0), staleP, staleC) ==>
              found == Some(Answer(env, db, Query(x, labels, props, None, 0)))
    ensures Answerable(env, db, Query(x, labels, props, None, 0), staleP, staleC) ==>
              found == Some(PerShard(db.shards, sh => Meeting(env, Query(x, labels, props, None, 0), sh)))
  {
    var q := Query(x, labels, props, None, 0);
    AnswerMeets(env, db, q);
    if labels != [] {
      if |labels| > 1 || props != map[] {
        found := ByLabel(env, db, q, staleP, staleC);
      } else {
        found := CandidatesByLabel(env, db, q, staleP, staleC);
      }
      return;
    }
    var indexed := set p | p in props && p in db.reg.indexed;
    if indexed != {} {
      var p :| p in indexed;
      if props.Keys == {p} {
        found := CandidatesByProperty(env, db, q, p, staleP, staleC);
      } else {
        found := ByInlineIndex(env, db, q, p, staleP, staleC);
      }
      return;
    }
    found := ByScan(env, db, q, staleP, staleC);
  }

  /** `x.p = null`. */
  function NullQuery(x: Str, p: Str, limit: int): Query {
    Query(x, [], map[], Some(P.Comp(P.Prop(x, p), P.Eq, P.Lit(P.NullLit))), limit)
  }

  lemma LackingIsWanted(env: Env, x: Str, p: Str, limit: int, sh: Shard, id: NodeID)
    requires env.lit(P.NullLit) == Nil && id in sh.nodes && p !in sh.nodes[id]
    ensures id in Wanted(env, NullQuery(x, p, limit), sh)
  {
    assert Eval(env, x, NodeIn(sh, id), NullQuery(x, p, limit).cond.value) == Some(Val(Bool(true)));
  }

  lemma {:induction false} GatheredIn(shards: seq<Shard>, hits: Shard -> set<NodeID>, i: nat, id: NodeID)
    requires i < |shards| && id in hits(shards[i])
    ensures id in PerShard(shards, hits)
  {
    var last := |shards| - 1;
    if i < last {
      GatheredIn(shards[..last], hits, i, id);
    } else {
      assert id in Ascending(hits(shards[last]));
    }
  }

  lemma {:induction false} GatheredFrom(shards: seq<Shard>, hits: Shard -> set<NodeID>, id: NodeID) returns (i: nat)
    requires id in PerShard(shards, hits)
    ensures i < |shards| && id in hits(shards[i])
  {
    var last := |shards| - 1;
    if id in PerShard(shards[..last], hits) {
      i := GatheredFrom(shards[..last], hits, id);
    } else {
      i := last;
    }
  }

  /**
   For `x.p = null` on an indexed property, without LIMIT: the index strategy loses the
   answer exactly when some stored node does not have the property.
   */
  lemma NullEqualityExactly(env: Env, db: DB, x: Str, p: Str, limit: int)
    requires env.lit(P.NullLit) == Nil && RecordsOk(db) && p in db.reg.indexed && limit <= 0
    ensures Extract(env, x, NullQuery(x, p, limit).cond.value) == Some((p, Nil))
    ensures NullLost(env, db, NullQuery(x, p, limit)) <==>
              exists i, id :: 0 <= i < |db.shards| && id in db.shards[i].nodes && p !in db.shards[i].nodes[id]
  {
    var q := NullQuery(x, p, limit);
    var wanted := sh => Wanted(env, q, sh);
    if i, id :| 0 <= i < |db.shards| && id in db.shards[i].nodes && p !in db.shards[i].nodes[id] {
      LackingIsWanted(env, x, p, limit, db.shards[i], id);
      GatheredIn(db.shards, wanted, i, id);
      BearerIs(db, p, i, id);
      assert id in Answer(env, db, q) && id !in Bearers(db, p);
    }
    if NullLost(env, db, q) {
      var id :| id in Answer(env, db, q) && id !in Bearers(db, p);
      var i := GatheredFrom(db.shards, wanted, id);
      BearerIs(db, p, i, id);
      assert p !in db.shards[i].nodes[id];
    }
  }
}
