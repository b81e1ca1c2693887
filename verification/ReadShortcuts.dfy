/**
 The two read shortcuts over runs of the write methods: GetNode through the node cache
 returns what the buckets hold, whatever was evicted, and HasEdge through the bloom
 filter is true exactly when such an edge is stored.
 */
module ReadShortcuts {
  import opened Types
  import opened Keys
  import opened Store
  import opened Leader
  import opened Replay
  import opened Commute
  import opened NodeState
  import opened Adjacency
  import C = NodeCache
  import B = Bloom
  import R = EdgeReads
  import Cursor

  /** What the node and label buckets hold. */
  function Truth(db: DB, id: NodeID): Option<Node>
    requires db.Valid()
  {
    if db.HasNode(id) then Some(NodeIn(db.ShardOf(id), id)) else None
  }

  // ---- recency lists --------------------------------------------------------------------------------

  /** Every cached node is the stored one. */
  ghost predicate Truthful(db: DB, s: C.Recency)
    requires db.Valid()
  {
    forall k {:trigger s[k]} :: 0 <= k < |s| ==> Truth(db, s[k].key) == Some(s[k].node)
  }

  lemma {:induction false} WithoutIn(s: C.Recency, key: NodeID)
    ensures forall c :: c in C.Without(s, key) ==> c in s && c.key != key
  {
    if s != [] {
      WithoutIn(s[..|s| - 1], key);
    }
  }

  lemma {:induction false} FindIn(s: C.Recency, key: NodeID)
    ensures C.Find(s, key).Some? ==> C.Find(s, key).value in s && C.Find(s, key).value.key == key
  {
    if s != [] {
      FindIn(s[..|s| - 1], key);
    }
  }

  lemma SubsetTruthful(db: DB, s: C.Recency, t: C.Recency)
    requires db.Valid() && Truthful(db, s) && forall c :: c in t ==> c in s
    ensures Truthful(db, t)
  {
    forall k | 0 <= k < |t| ensures Truth(db, t[k].key) == Some(t[k].node) {
      assert t[k] in s;
    }
  }

  lemma TouchKeeps(db: DB, s: C.Recency, id: NodeID)
    requires db.Valid() && Truthful(db, s)
    ensures Truthful(db, C.Touched(s, id))
    ensures C.Find(s, id).Some? ==> Some(C.Find(s, id).value.node) == Truth(db, id)
  {
    WithoutIn(s, id);
    FindIn(s, id);
    SubsetTruthful(db, s, C.Touched(s, id));
  }

  /** Storing a true node keeps the list true, whatever is evicted. */
  lemma StoreKeeps(db: DB, s: C.Recency, c: C.Cached, budget: nat)
    requires db.Valid() && Truth(db, c.key) == Some(c.node)
    requires forall k :: 0 <= k < |s| && s[k].key != c.key ==> Truth(db, s[k].key) == Some(s[k].node)
    ensures Truthful(db, C.Stored(s, c, budget))
  {
    var t := [c] + C.Without(s, c.key);
    WithoutIn(s, c.key);
    C.EvictsFromTheEnd(t, budget);
    forall k | 0 <= k < |t| ensures Truth(db, t[k].key) == Some(t[k].node) {
      assert t[k] == c || t[k] in C.Without(s, c.key);
    }
    SubsetTruthful(db, t, C.Stored(s, c, budget));
  }

  lemma DropKeeps(db: DB, s: C.Recency, id: NodeID)
    requires db.Valid() && forall k :: 0 <= k < |s| && s[k].key != id ==> Truth(db, s[k].key) == Some(s[k].node)
    ensures Truthful(db, C.Without(s, id))
  {
    var t := C.Without(s, id);
    WithoutIn(s, id);
    forall k | 0 <= k < |t| ensures Truth(db, t[k].key) == Some(t[k].node) {
      assert t[k] in t;
    }
  }

  // ---- the reads, on the real cache and filter ------------------------------------------------------

  ghost predicate CacheTruthful(db: DB, cache: C.Cache)
    requires db.Valid()
    reads cache.shards
  {
    forall j {:trigger cache.shards[j]} :: 0 <= j < |cache.shards| ==> Truthful(db, cache.shards[j].contents)
  }

  /** getNode: the cache first, then the buckets, filling the cache. */
  method GetNode(db: DB, cache: C.Cache, id: NodeID) returns (n: Option<Node>)
    requires db.Valid() && cache.Valid() && CacheTruthful(db, cache)
    modifies cache.shards[id % C.SHARDS], cache.shards[id % C.SHARDS].list
    ensures n == Truth(db, id)
    ensures cache.Valid() && CacheTruthful(db, cache)
  {
    ghost var j := id % C.SHARDS;
    ghost var s := cache.shards[j].contents;
    assert Truthful(db, s);
    TouchKeeps(db, s, id);
    n := cache.Get(id);
    if n.None? && db.HasNode(id) {
      n := Some(NodeIn(db.ShardOf(id), id));
      Fill(db, cache, n.value);
    }
  }

  /** Populate the cache on a successful read. */
  method Fill(db: DB, cache: C.Cache, n: Node)
    requires db.Valid() && cache.Valid() && CacheTruthful(db, cache) && Truth(db, n.id) == Some(n)
    modifies cache.shards[n.id % C.SHARDS], cache.shards[n.id % C.SHARDS].list
    ensures cache.Valid() && CacheTruthful(db, cache)
  {
    ghost var j := n.id % C.SHARDS;
    assert Truthful(db, cache.shards[j].contents);
    StoreKeeps(db, cache.shards[j].contents, C.Cached(n.id, n, cache.estimate(n)), cache.perShard);
    cache.Put(n);
  }

  /** Every stored edge has been added to the filter. */
  ghost predicate Covers(added: set<(NodeID, NodeID)>, G: Edges) {
    forall eid :: eid in G ==> (G[eid].from, G[eid].to) in added
  }

  ghost predicate Joined(G: Edges, source: NodeID, target: NodeID) {
    exists eid :: eid in G && G[eid].from == source && G[eid].to == target
  }

  /** HasEdge: a negative from the filter is final, a positive is checked against the adjacency list. */
  method HasEdge(db: DB, ghost G: Edges, bloom: B.BloomFilter, source: NodeID, target: NodeID) returns (found: bool)
    requires Mirrors(db, G) && bloom.Valid() && Covers(bloom.added, G)
    ensures found <==> Joined(G, source, target)
  {
    var maybe := bloom.Test(source, target);
    if !maybe {
      return false;
    }
    var es := R.GetEdgesForNode(db, G, source, Outgoing);
    ListsOuts(G, source, es);
    for k := 0 to |es|
      invariant forall m :: 0 <= m < k ==> es[m].to != target
    {
      if es[k].to == target {
        assert es[k] in es;
        return true;
      }
    }
    return false;
  }

  lemma ListsOuts(G: Edges, id: NodeID, es: seq<Edge>)
    requires Stored(G, es) && Ids(es) == Cursor.Ascending(Outs(G, id)) && forall eid :: eid in G ==> G[eid].id == eid
    ensures forall e :: e in es <==> e.id in G && G[e.id] == e && e.from == id
  {
    forall e ensures e in es <==> e.id in G && G[e.id] == e && e.from == id {
      if e in es {
        var k :| 0 <= k < |es| && es[k] == e;
        assert Ids(es)[k] in Ids(es);
      }
      if e.id in G && G[e.id] == e && e.from == id {
        assert e.id in Ids(es);
        var k :| 0 <= k < |es| && Ids(es)[k] == e.id;
        assert es[k] in es;
      }
    }
  }

  /** initBloomFilter: one pair per adj_out entry of every shard. */
  method InitBloomFilter(db: DB, ghost G: Edges, hash: B.Hash) returns (bloom: B.BloomFilter)
    requires Mirrors(db, G)
    ensures fresh(bloom) && fresh(bloom.bits) && bloom.Valid() && Covers(bloom.added, G)
  {
    var total := 0;
    for i := 0 to |db.shards| {
      total := total + db.shards[i].edgeCount;
    }
    var expected := if total * 2 < 1000 then 1000 else total * 2;
    bloom := new B.BloomFilter(expected, hash);
    for i := 0 to |db.shards|
      invariant fresh(bloom) && fresh(bloom.bits) && bloom.Valid()
      invariant forall eid :: eid in G && G[eid].from % |db.shards| < i ==> (G[eid].from, G[eid].to) in bloom.added
    {
      assert MirrorsAt(db.shards[i], G, |db.shards|, i);
      AddShard(db, G, i, bloom);
    }
  }

  method AddShard(db: DB, ghost G: Edges, i: nat, bloom: B.BloomFilter)
    requires i < |db.shards| && bloom.Valid() && MirrorsAt(db.shards[i], G, |db.shards|, i)
    modifies bloom, bloom.bits
    ensures bloom.Valid() && old(bloom.added) <= bloom.added
    ensures forall eid :: eid in G && G[eid].from % |db.shards| == i ==> (G[eid].from, G[eid].to) in bloom.added
  {
    var adj := db.shards[i].adjOut;
    var todo := adj.Keys;
    while todo != {}
      invariant bloom.Valid() && old(bloom.added) <= bloom.added && todo <= adj.Keys
      invariant forall k :: k in adj && k !in todo ==> (k.0, adj[k].node) in bloom.added
      decreases |todo|
    {
      var k :| k in todo;
      bloom.Add(k.0, adj[k].node);
      todo := todo - {k};
    }
    forall eid | eid in G && G[eid].from % |db.shards| == i ensures (G[eid].from, G[eid].to) in bloom.added {
      assert (G[eid].from, eid) in adj;
    }
  }

  // ---- runs -------------------------------------------------------------------------------------------

  /** Cache budget per shard and size estimate. */
  datatype Config = Config(enabled: bool, perShard: nat, estimate: Node -> nat)

  /** The database, its abstract edges, the cache's recency lists, and the pairs the filter was given. */
  datatype System = System(db: DB, G: Edges, lists: seq<C.Recency>, added: set<(NodeID, NodeID)>)

  datatype Step = Write(call: Call) | Read(id: NodeID) | Reopen

  ghost function Put(cfg: Config, lists: seq<C.Recency>, n: Node): (after: seq<C.Recency>)
    requires |lists| == C.SHARDS
    ensures |after| == C.SHARDS && (!cfg.enabled ==> after == lists)
  {
    var j := n.id % C.SHARDS;
    if cfg.enabled then lists[j := C.Stored(lists[j], C.Cached(n.id, n, cfg.estimate(n)), cfg.perShard)] else lists
  }

  ghost function Invalidate(cfg: Config, lists: seq<C.Recency>, id: NodeID): (after: seq<C.Recency>)
    requires |lists| == C.SHARDS
    ensures |after| == C.SHARDS && (!cfg.enabled ==> after == lists)
  {
    var j := id % C.SHARDS;
    if cfg.enabled then lists[j := C.Without(lists[j], id)] else lists
  }

  /** Writes that add a node cache it; successful changes of a node drop it from the cache. */
  ghost function CacheAfter(cfg: Config, r: Render, db: DB, call: Call, lists: seq<C.Recency>): (after: seq<C.Recency>)
    requires db.Valid() && Room(db, call) && |lists| == C.SHARDS
    ensures |after| == C.SHARDS && (!cfg.enabled ==> after == lists)
  {
    match NodeOp(r, db, call)
    case Some(OpAddNode(id, props)) => Put(cfg, lists, Node(id, [], props))
    case Some(OpAddNodeWithLabels(id, names, props)) => Put(cfg, lists, Node(id, names, props))
    case Some(op) => if IsNodeOp(op) then Invalidate(cfg, lists, op.id) else lists
    case None => lists
  }

  ghost function Pairs(es: seq<Edge>): set<(NodeID, NodeID)> {
    set i | 0 <= i < |es| :: (es[i].from, es[i].to)
  }

  /** Added edges go into the filter; deleted ones stay. */
  ghost function FilterAfter(db: DB, call: Call, added: set<(NodeID, NodeID)>): set<(NodeID, NodeID)>
    requires db.Valid()
  {
    match call
    case AddEdgeCall(s, t, _, _) => if db.HasNode(s) && db.HasNode(t) then added + {(s, t)} else added
    case AddEdgeBatchCall(es) => added + Pairs(es)
    case _ => added
  }

  ghost predicate Enabled(sys: System, step: Step) {
    step.Write? ==> sys.db.Valid() && Room(sys.db, step.call) && WellRead(sys.G, step.call)
  }

  ghost function After(cfg: Config, r: Render, sys: System, step: Step): System
    requires sys.db.Valid() && Enabled(sys, step) && |sys.lists| == C.SHARDS
  {
    match step
    case Write(call) =>
      System(Execute(r, sys.db, call).db, Next(sys.db, sys.G, call), CacheAfter(cfg, r, sys.db, call, sys.lists),
             FilterAfter(sys.db, call, sys.added))
    case Read(id) =>
      var j := id % C.SHARDS;
      if !cfg.enabled then sys
      else if C.Find(sys.lists[j], id).Some? then sys.(lists := sys.lists[j := C.Touched(sys.lists[j], id)])
      else if Truth(sys.db, id).Some? then sys.(lists := Put(cfg, sys.lists, Truth(sys.db, id).value))
      else sys
    case Reopen => System(sys.db, sys.G, seq(C.SHARDS, _ => []), set eid | eid in sys.G ::
                          (sys.G[eid].from, sys.G[eid].to))
  }

  ghost predicate TruthfulAt(db: DB, lists: seq<C.Recency>, j: nat)
    requires db.Valid() && j < |lists|
  {
    Truthful(db, lists[j]) && KeysIn(lists[j], j)
  }

  /** A list holds keys of its own cache shard only. */
  ghost predicate KeysIn(s: C.Recency, j: nat) {
    forall k {:trigger s[k]} :: 0 <= k < |s| ==> s[k].key % C.SHARDS == j
  }

  ghost predicate AllTruthful(db: DB, lists: seq<C.Recency>)
    requires db.Valid()
  {
    forall j {:trigger TruthfulAt(db, lists, j)} :: 0 <= j < |lists| ==> TruthfulAt(db, lists, j)
  }

  /** Records in place, buckets mirrored, every cached node true, every edge in the filter. */
  ghost predicate Transparent(cfg: Config, sys: System) {
    && RecordsOk(sys.db) && Mirrors(sys.db, sys.G) && |sys.lists| == C.SHARDS
    && AllTruthful(sys.db, sys.lists) && Covers(sys.added, sys.G)
    && (!cfg.enabled ==> forall j :: 0 <= j < |sys.lists| ==> sys.lists[j] == [])
  }

  lemma MirrorsPlaced(db: DB, G: Edges)
    requires Mirrors(db, G)
    ensures Placed(db)
  {
    forall i | 0 <= i < |db.shards| ensures PlacedIn(db, i) {
      assert MirrorsAt(db.shards[i], G, |db.shards|, i);
      forall eid | eid in db.shards[i].edges ensures PlacedAt(db, i, eid) {
        assert eid in G;
      }
    }
  }

  /** A node entry changes the record it names and no other. */
  lemma OthersUnchanged(r: Render, db: DB, db': DB, op: Op, j: NodeID)
    requires db.Valid() && IsNodeOp(op) && StepsBy(r, db, db', op) && j != op.id
    ensures db'.Valid() && Truth(db', j) == Truth(db, j)
  {
    var i := db.Home(j);
    if i == db.Home(op.id) {
      NodePatchWithin(r, db.reg, db.shards[i], op);
      UnpatchedRecord(db.shards[i], NodePatch(r, db.reg, db.shards[i], op), op.id, j);
      assert NodeSide(db'.shards[i]) == NodeSide(Patched(db.shards[i], NodePatch(r, db.reg, db.shards[i], op)));
    } else {
      assert NodeSide(db'.shards[i]) == NodeSide(db.shards[i]);
    }
  }

  lemma UnpatchedRecord(sh: Shard, p: Patch, id: NodeID, j: NodeID)
    requires Within(p, {id}, {}) && j != id
    ensures (j in Patched(sh, p).nodes <==> j in sh.nodes) && Labels(Patched(sh, p), j) == Labels(sh, j)
    ensures j in sh.nodes ==> Patched(sh, p).nodes[j] == sh.nodes[j]
  {
    assert Itself(j) !in {id};
  }

  lemma SameSideTruth(db: DB, db': DB, j: NodeID)
    requires db.Valid() && NodeSideSame(db, db')
    ensures db'.Valid() && Truth(db', j) == Truth(db, j)
  {
    assert NodeSide(db'.shards[db.Home(j)]) == NodeSide(db.shards[db.Home(j)]);
  }

  lemma DefinitionTruth(db: DB, db': DB, j: NodeID)
    requires db.Valid() && RecordsSame(db, db')
    ensures db'.Valid() && Truth(db', j) == Truth(db, j)
  {
    assert db'.shards[db.Home(j)].nodes == db.shards[db.Home(j)].nodes;
  }

  lemma BatchTruth(db: DB, list: seq<Props>, j: NodeID)
    requires RecordsOk(db) && db.nextNode + |list| < TWO64 && db.HasNode(j)
    ensures Truth(AddNodeBatch(db, list).db, j) == Truth(db, j)
  {
    BatchCall(db, list, db.Home(j));
    assert RecordsAt(db, db.Home(j));
  }

  /** The true state of every existing node that the call does not name is as before. */
  lemma CallTruth(r: Render, db: DB, call: Call, j: NodeID)
    requires Placed(db) && RecordsOk(db) && Room(db, call) && db.HasNode(j)
    requires NodeOp(r, db, call).Some? ==> IsNodeOp(NodeOp(r, db, call).value) && NodeOp(r, db, call).value.id != j
    ensures Execute(r, db, call).db.Valid() && Truth(Execute(r, db, call).db, j) == Truth(db, j)
  {
    var db' := Execute(r, db, call).db;
    if IsNodeCall(call) {
      NodeCallSteps(r, db, call);
      if NodeOp(r, db, call).Some? {
        OthersUnchanged(r, db, db', NodeOp(r, db, call).value, j);
      } else {
        SameSideTruth(db, db', j);
      }
    } else if IsEdgeCall(call) {
      EdgeCallKeepsNodeSide(r, db, call);
      SameSideTruth(db, db', j);
    } else if call.AddNodeBatchCall? {
      BatchTruth(db, call.list, j);
    } else {
      DefinitionsKeepRecords(r, db, call);
      DefinitionTruth(db, db', j);
    }
  }

  lemma AddTruth(r: Render, db: DB, call: Call)
    requires Placed(db) && RecordsOk(db) && Room(db, call) && (call.AddNodeCall? || call.AddNodeWithLabelsCall?) &&
             NodeOp(r, db, call).Some?
    ensures var db', id := Execute(r, db, call).db, db.nextNode + 1;
            && db'.Valid() && !db.HasNode(id)
            && Truth(db', id) == Some(Node(id, if call.AddNodeCall? then [] else call.names, call.props))
  {
    assert RecordsAt(db, db.Home(db.nextNode + 1));
  }

  /** True but possibly for the node `id`. */
  ghost predicate TruthfulOff(db: DB, s: C.Recency, id: NodeID)
    requires db.Valid()
  {
    forall k {:trigger s[k]} :: 0 <= k < |s| && s[k].key != id ==> Truth(db, s[k].key) == Some(s[k].node)
  }

  /** After a call the entries of all other nodes are still true. */
  lemma OthersStayTrue(r: Render, db: DB, call: Call, s: C.Recency, id: NodeID)
    requires Placed(db) && RecordsOk(db) && Room(db, call) && Truthful(db, s)
    requires NodeOp(r, db, call).Some? ==> IsNodeOp(NodeOp(r, db, call).value) && NodeOp(r, db, call).value.id == id
    ensures Execute(r, db, call).db.Valid() && TruthfulOff(Execute(r, db, call).db, s, id)
    ensures NodeOp(r, db, call).None? ==> Truthful(Execute(r, db, call).db, s)
  {
    CallKeepsRecords(r, db, call);
    var db' := Execute(r, db, call).db;
    forall k | 0 <= k < |s| && (s[k].key != id || NodeOp(r, db, call).None?)
      ensures Truth(db', s[k].key) == Some(s[k].node)
    {
      CallTruth(r, db, call, s[k].key);
    }
  }

  lemma PutAt(cfg: Config, db: DB, lists: seq<C.Recency>, n: Node)
    requires db.Valid() && |lists| == C.SHARDS && cfg.enabled && Truth(db, n.id) == Some(n)
    requires forall j :: 0 <= j < |lists| ==> TruthfulOff(db, lists[j], n.id) && KeysIn(lists[j], j)
    ensures AllTruthful(db, Put(cfg, lists, n))
  {
    var i, lists' := n.id % C.SHARDS, Put(cfg, lists, n);
    var c := C.Cached(n.id, n, cfg.estimate(n));
    StoreKeeps(db, lists[i], c, cfg.perShard);
    forall j | 0 <= j < |lists'| ensures TruthfulAt(db, lists', j) {
      if j == i {
        StoredKeys(lists[i], c, cfg.perShard, i);
      } else {
        assert TruthfulOff(db, lists[j], n.id) && KeysIn(lists[j], j);
      }
    }
  }

  lemma StoredKeys(s: C.Recency, c: C.Cached, budget: nat, j: nat)
    requires KeysIn(s, j) && c.key % C.SHARDS == j
    ensures KeysIn(C.Stored(s, c, budget), j) && KeysIn(C.Without(s, c.key), j) && KeysIn(C.Touched(s, c.key), j)
  {
    var t := [c] + C.Without(s, c.key);
    WithoutIn(s, c.key);
    FindIn(s, c.key);
    C.EvictsFromTheEnd(t, budget);
    SubsetKeys(s, C.Without(s, c.key), j);
    SubsetKeys(s, C.Touched(s, c.key), j);
    assert forall k :: 0 <= k < |C.Stored(s, c, budget)| ==> C.Stored(s, c, budget)[k] == t[k];
  }

  lemma SubsetKeys(s: C.Recency, t: C.Recency, j: nat)
    requires KeysIn(s, j) && forall c :: c in t ==> c in s
    ensures KeysIn(t, j)
  {
    forall k | 0 <= k < |t| ensures t[k].key % C.SHARDS == j {
      assert t[k] in s;
    }
  }

  lemma DropAt(cfg: Config, db: DB, lists: seq<C.Recency>, id: NodeID)
    requires db.Valid() && |lists| == C.SHARDS && cfg.enabled
    requires forall j :: 0 <= j < |lists| ==> TruthfulOff(db, lists[j], id) && KeysIn(lists[j], j)
    ensures AllTruthful(db, Invalidate(cfg, lists, id))
  {
    var i, lists' := id % C.SHARDS, Invalidate(cfg, lists, id);
    DropKeeps(db, lists[i], id);
    forall j | 0 <= j < |lists'| ensures TruthfulAt(db, lists', j) {
      if j == i {
        WithoutIn(lists[i], id);
        SubsetKeys(lists[i], C.Without(lists[i], id), i);
      } else {
        assert TruthfulOff(db, lists[j], id) && KeysIn(lists[j], j);
      }
    }
  }

  /** The node whose cache entry a call replaces or drops. */
  ghost function Touched(r: Render, db: DB, call: Call): NodeID
    requires db.Valid() && Room(db, call)
  {
    match NodeOp(r, db, call)
    case Some(op) => if IsNodeOp(op) then op.id else 0
    case None => 0
  }

  lemma ListsStayTrue(r: Render, db: DB, call: Call, lists: seq<C.Recency>, j: nat)
    requires Placed(db) && RecordsOk(db) && Room(db, call) && AllTruthful(db, lists) && j < |lists|
    ensures var db' := Execute(r, db, call).db;
            && db'.Valid() && TruthfulOff(db', lists[j], Touched(r, db, call)) && KeysIn(lists[j], j)
            && (NodeOp(r, db, call).None? ==> Truthful(db', lists[j]))
  {
    if NodeOp(r, db, call).Some? {
      NodeOpIsNodeOp(r, db, call);
    }
    assert TruthfulAt(db, lists, j);
    OthersStayTrue(r, db, call, lists[j], Touched(r, db, call));
  }

  /** A write leaves every cached node true. */
  lemma WriteKeepsTruth(cfg: Config, r: Render, db: DB, call: Call, lists: seq<C.Recency>)
    requires Placed(db) && RecordsOk(db) && Room(db, call) && |lists| == C.SHARDS && AllTruthful(db, lists) &&
             cfg.enabled
    ensures Execute(r, db, call).db.Valid() && AllTruthful(Execute(r, db, call).db, CacheAfter(cfg, r, db, call, lists))
  {
    var db', op := Execute(r, db, call).db, NodeOp(r, db, call);
    CallKeepsRecords(r, db, call);
    forall j: nat | j < |lists|
      ensures TruthfulOff(db', lists[j], Touched(r, db, call)) && KeysIn(lists[j], j)
      ensures op.None? ==> TruthfulAt(db', lists, j)
    {
      ListsStayTrue(r, db, call, lists, j);
    }
    if op.Some? {
      NodeOpIsNodeOp(r, db, call);
      NodeWriteKeepsTruth(cfg, r, db, call, lists);
    }
  }

  lemma NodeWriteKeepsTruth(cfg: Config, r: Render, db: DB, call: Call, lists: seq<C.Recency>)
    requires Placed(db) && RecordsOk(db) && Room(db, call) && |lists| == C.SHARDS && cfg.enabled
    requires NodeOp(r, db, call).Some? && Execute(r, db, call).db.Valid()
    requires forall j :: 0 <= j < |lists| ==>
               TruthfulOff(Execute(r, db, call).db, lists[j], Touched(r, db, call)) && KeysIn(lists[j], j)
    ensures AllTruthful(Execute(r, db, call).db, CacheAfter(cfg, r, db, call, lists))
  {
    var db', id := Execute(r, db, call).db, Touched(r, db, call);
    NodeOpIsNodeOp(r, db, call);
    if call.AddNodeCall? || call.AddNodeWithLabelsCall? {
      AddTruth(r, db, call);
      PutAt(cfg, db', lists, Truth(db', id).value);
    } else {
      DropAt(cfg, db', lists, id);
    }
  }

  lemma NodeOpIsNodeOp(r: Render, db: DB, call: Call)
    requires db.Valid() && Room(db, call) && NodeOp(r, db, call).Some?
    ensures IsNodeCall(call) && IsNodeOp(NodeOp(r, db, call).value)
    ensures (NodeOp(r, db, call).value.OpAddNode? <==> call.AddNodeCall?) &&
            (NodeOp(r, db, call).value.OpAddNodeWithLabels? <==> call.AddNodeWithLabelsCall?)
    ensures call.AddNodeCall? || call.AddNodeWithLabelsCall? ==> NodeOp(r, db, call).value.id == db.nextNode + 1
  {
  }

  lemma {:induction false} FreshCovered(G: Edges, es: seq<Edge>, added: set<(NodeID, NodeID)>)
    requires Covers(added, G)
    ensures Covers(added + Pairs(es), Fresh(G, es))
  {
    if es != [] {
      var es', e := es[..|es| - 1], es[|es| - 1];
      FreshCovered(G, es', added);
      var pairs, pairs' := Pairs(es), Pairs(es');
      forall p | p in pairs' ensures p in pairs {
        var i :| 0 <= i < |es'| && p == (es'[i].from, es'[i].to);
        assert es[i] == es'[i];
      }
      assert (e.from, e.to) in pairs;
    }
  }

  /** The filter keeps covering the edges: additions are added, and nothing is ever taken out. */
  lemma WriteKeepsCover(r: Render, db: DB, G: Edges, call: Call, added: set<(NodeID, NodeID)>)
    requires Mirrors(db, G) && Room(db, call) && Covers(added, G)
    ensures Covers(FilterAfter(db, call, added), Next(db, G, call))
  {
    if call.AddEdgeBatchCall? {
      var es := NumberedEdges(db.nextEdge + 1, call.edges);
      FreshCovered(G, es, added);
      forall p | p in Pairs(es) ensures p in Pairs(call.edges) {
        var i :| 0 <= i < |es| && p == (es[i].from, es[i].to);
        assert call.edges[i].from == es[i].from && call.edges[i].to == es[i].to;
      }
    }
  }

  lemma ReadKeeps(cfg: Config, r: Render, sys: System, id: NodeID)
    requires Transparent(cfg, sys)
    ensures Transparent(cfg, After(cfg, r, sys, Read(id)))
  {
    var i := id % C.SHARDS;
    assert TruthfulAt(sys.db, sys.lists, i);
    var sys' := After(cfg, r, sys, Read(id));
    if cfg.enabled && C.Find(sys.lists[i], id).Some? {
      TouchKeeps(sys.db, sys.lists[i], id);
      FindIn(sys.lists[i], id);
      StoredKeys(sys.lists[i], C.Find(sys.lists[i], id).value, 0, i);
      forall j | 0 <= j < |sys'.lists| ensures TruthfulAt(sys.db, sys'.lists, j) {
        assert TruthfulAt(sys.db, sys.lists, j);
      }
    } else if cfg.enabled && Truth(sys.db, id).Some? {
      forall j | 0 <= j < |sys.lists| ensures TruthfulOff(sys.db, sys.lists[j], id) && KeysIn(sys.lists[j], j) {
        assert TruthfulAt(sys.db, sys.lists, j);
      }
      PutAt(cfg, sys.db, sys.lists, Truth(sys.db, id).value);
    }
  }

  lemma CacheStaysTrue(cfg: Config, r: Render, sys: System, call: Call)
    requires Transparent(cfg, sys) && Room(sys.db, call)
    ensures Execute(r, sys.db, call).db.Valid() &&
            AllTruthful(Execute(r, sys.db, call).db, CacheAfter(cfg, r, sys.db, call, sys.lists))
  {
    MirrorsPlaced(sys.db, sys.G);
    CallKeepsRecords(r, sys.db, call);
    if cfg.enabled {
      WriteKeepsTruth(cfg, r, sys.db, call, sys.lists);
    } else {
      forall j | 0 <= j < |sys.lists| ensures TruthfulAt(Execute(r, sys.db, call).db, sys.lists, j) {
        assert sys.lists[j] == [];
      }
    }
  }

  lemma WriteKeeps(cfg: Config, r: Render, sys: System, call: Call)
    requires Transparent(cfg, sys) && Room(sys.db, call) && WellRead(sys.G, call)
    ensures Transparent(cfg, After(cfg, r, sys, Write(call)))
  {
    MirrorsPlaced(sys.db, sys.G);
    CallKeepsRecords(r, sys.db, call);
    CallMirrors(r, sys.db, sys.G, call);
    WriteKeepsCover(r, sys.db, sys.G, call, sys.added);
    CacheStaysTrue(cfg, r, sys, call);
    var sys' := After(cfg, r, sys, Write(call));
    assert sys'.db == Execute(r, sys.db, call).db && sys'.lists == CacheAfter(cfg, r, sys.db, call, sys.lists);
  }

  /** Every step keeps both shortcuts truthful. */
  lemma StepKeepsTransparent(cfg: Config, r: Render, sys: System, step: Step)
    requires Transparent(cfg, sys) && Enabled(sys, step)
    ensures Transparent(cfg, After(cfg, r, sys, step))
  {
    match step
    case Read(id) => ReadKeeps(cfg, r, sys, id);
    case Reopen =>
      var sys' := After(cfg, r, sys, step);
      forall j | 0 <= j < |sys'.lists| ensures TruthfulAt(sys'.db, sys'.lists, j) {
        assert sys'.lists[j] == [];
      }
    case Write(call) => WriteKeeps(cfg, r, sys, call);
  }

  ghost predicate RunEnabled(cfg: Config, r: Render, sys: System, steps: seq<Step>)
    requires Transparent(cfg, sys)
    decreases |steps|
  {
    steps == [] ||
    (Enabled(sys, steps[0]) &&
     (StepKeepsTransparent(cfg, r, sys, steps[0]); RunEnabled(cfg, r, After(cfg, r, sys, steps[0]), steps[1..])))
  }

  ghost function RunOf(cfg: Config, r: Render, sys: System, steps: seq<Step>): System
    requires Transparent(cfg, sys) && RunEnabled(cfg, r, sys, steps)
    decreases |steps|
  {
    if steps == [] then sys
    else
      StepKeepsTransparent(cfg, r, sys, steps[0]);
      RunOf(cfg, r, After(cfg, r, sys, steps[0]), steps[1..])
  }

  /** GetNode's result: the cached node if there is one, else what the buckets hold. */
  ghost function ReadNode(sys: System, id: NodeID): Option<Node>
    requires sys.db.Valid() && |sys.lists| == C.SHARDS
  {
    match C.Find(sys.lists[id % C.SHARDS], id)
    case Some(c) => Some(c.node)
    case None => Truth(sys.db, id)
  }

  /**
   In every state of every run of writes, reads and reopens: a read through the cache is
   the stored node, and a pair the filter was never given joins no stored edge.
   */
  lemma {:induction false} ShortcutsAreTransparent(cfg: Config, r: Render, sys: System, steps: seq<Step>, id: NodeID,
      target: NodeID)
    requires Transparent(cfg, sys) && RunEnabled(cfg, r, sys, steps)
    ensures var end := RunOf(cfg, r, sys, steps);
            && Transparent(cfg, end) && ReadNode(end, id) == Truth(end.db, id)
            && ((id, target) !in end.added ==> !Joined(end.G, id, target))
    decreases |steps|
  {
    if steps == [] {
      assert TruthfulAt(sys.db, sys.lists, id % C.SHARDS);
      TouchKeeps(sys.db, sys.lists[id % C.SHARDS], id);
    } else {
      StepKeepsTransparent(cfg, r, sys, steps[0]);
      ShortcutsAreTransparent(cfg, r, After(cfg, r, sys, steps[0]), steps[1..], id, target);
    }
  }

  /** A new database, with an empty cache and an empty filter, is a state to start from. */
  lemma NewIsTransparent(cfg: Config, n: nat)
    requires n > 0
    ensures Transparent(cfg, System(NewDB(n), map[], seq(C.SHARDS, _ => []), {}))
    ensures EndpointsExist(NewDB(n), map[])
  {
    var db, lists := NewDB(n), seq(C.SHARDS, _ => []);
    forall i | 0 <= i < n ensures RecordsAt(db, i) && MirrorsAt(db.shards[i], map[], n, i) {
      assert db.shards[i] == EMPTY;
      assert AllLabelKeys(map[]) == {} && OwnTypes(map[], n, i) == {};
    }
    forall j | 0 <= j < |lists| ensures TruthfulAt(db, lists, j) {
      assert lists[j] == [];
    }
  }

  // ---- reading what was written -------------------------------------------------------------------------

  /** UpdateNode merges, SetNodeProps overwrites, both keep the labels; DeleteNode removes. */
  lemma PropsAreRead(r: Render, db: DB, id: NodeID, props: Props, es: seq<Edge>)
    requires Placed(db) && RecordsOk(db) && db.HasNode(id)
    ensures var n, o := Truth(db, id).value, UpdateNode(r, db, id, props);
            o.ok ==> o.db.Valid() && Truth(o.db, id) == Some(Node(id, n.labels, n.props + props))
    ensures var n, o := Truth(db, id).value, SetNodeProps(r, db, id, props);
            o.ok ==> o.db.Valid() && Truth(o.db, id) == Some(Node(id, n.labels, props))
    ensures var o := DeleteNode(r, db, id, es); o.ok && o.db.Valid() && Truth(o.db, id) == None
  {
    EraseEdgesKeepNodeSide(db, es);
    assert NodeSide(EraseEdges(db, es).db.ShardOf(id)) == NodeSide(db.ShardOf(id));
  }

  lemma AddedLabelsAreRead(r: Render, db: DB, id: NodeID, names: seq<Str>)
    requires RecordsOk(db) && db.HasNode(id) && AddLabel(r, db, id, names).ok
    ensures var n, db' := Truth(db, id).value, AddLabel(r, db, id, names).db;
            db'.Valid() && Truth(db', id) == Some(Node(id, n.labels + NewLabels(n.labels, names), n.props))
  {
    var held := Labels(db.ShardOf(id), id);
    assert held + [] == held;
  }

  lemma KeptLabelsAreRead(db: DB, id: NodeID, names: seq<Str>)
    requires RecordsOk(db) && db.HasNode(id)
    ensures var n, o := Truth(db, id).value, RemoveLabel(db, id, names);
            o.ok && o.db.Valid() && Truth(o.db, id) == Some(Node(id, KeptLabels(n.labels, names), n.props))
  {
    if names == [] {
      AllKept(Labels(db.ShardOf(id), id));
    }
  }

  /**
   AddLabel keeps the labels held, in order, and appends the requested ones not yet held, in
   their order and with repeats; RemoveLabel takes exactly the named ones and keeps the rest
   in order.
   */
  lemma LabelsAreRead(r: Render, db: DB, id: NodeID, names: seq<Str>)
    requires Placed(db) && RecordsOk(db) && db.HasNode(id)
    ensures var n, o := Truth(db, id).value, AddLabel(r, db, id, names);
            o.ok ==> o.db.Valid() && Truth(o.db, id).Some? && Truth(o.db, id).value.props == n.props
                     && n.labels <= Truth(o.db, id).value.labels
                     && Filtered(names, n.labels, Truth(o.db, id).value.labels[|n.labels|..])
    ensures var n, o := Truth(db, id).value, RemoveLabel(db, id, names);
            o.ok && o.db.Valid() && Truth(o.db, id).Some? && Truth(o.db, id).value.props == n.props
            && Filtered(n.labels, names, Truth(o.db, id).value.labels)
  {
    var held := Truth(db, id).value.labels;
    NewLabelsFiltered(held, names);
    KeptLabelsFiltered(held, names);
    KeptLabelsAreRead(db, id, names);
    if AddLabel(r, db, id, names).ok {
      AddedLabelsAreRead(r, db, id, names);
      assert (held + NewLabels(held, names))[|held|..] == NewLabels(held, names);
    }
  }

  lemma {:induction false} AllKept(held: seq<Str>)
    ensures KeptLabels(held, []) == held
  {
    if held != [] {
      AllKept(held[..|held| - 1]);
    }
  }
}
