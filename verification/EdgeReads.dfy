/**
 Reading edges back: the adjacency cursor, the fetch of incoming edges from their
 source shards, and the searches' view of a stored graph.
 */
module EdgeReads {
  import opened Types
  import opened Keys
  import opened Store
  import opened Cursor
  import opened Adjacency
  import Graph
  import AllPaths

  /** The edge IDs under one node in an adjacency bucket. */
  function Under(adj: map<AdjKey, AdjVal>, id: NodeID): set<EdgeID> {
    set k | k in adj && k.0 == id :: k.1
  }

  lemma UnderExact(db: DB, G: Edges, id: NodeID)
    requires Mirrors(db, G)
    ensures Under(db.ShardOf(id).adjOut, id) == Outs(G, id) && Under(db.ShardOf(id).adjIn, id) == Ins(G, id)
  {
    var n, i, sh := |db.shards|, db.Home(id), db.ShardOf(id);
    assert MirrorsAt(db.shards[i], G, n, i);
    forall eid: EdgeID
      ensures eid in Under(sh.adjOut, id) <==> eid in Outs(G, id)
      ensures eid in Under(sh.adjIn, id) <==> eid in Ins(G, id)
    {
      assert (id, eid) in sh.adjOut <==> eid in Outs(G, id);
      assert (id, eid) in sh.adjIn <==> eid in Ins(G, id);
      assert eid in Under(sh.adjOut, id) <==> (id, eid) in sh.adjOut;
      assert eid in Under(sh.adjIn, id) <==> (id, eid) in sh.adjIn;
    }
  }

  /** The bucket holds the record of each listed ID. */
  ghost predicate AllIn(edges: Edges, G: Edges, ids: seq<EdgeID>) {
    forall j :: 0 <= j < |ids| ==> ids[j] in edges && ids[j] in G && edges[ids[j]] == G[ids[j]]
  }

  /** Look up each ID, skipping those without a record. */
  method Fetch(edges: Edges, ghost G: Edges, ids: seq<EdgeID>) returns (es: seq<Edge>)
    requires AllIn(edges, G, ids) && forall eid :: eid in G ==> G[eid].id == eid
    ensures Ids(es) == ids && Stored(G, es)
  {
    es := [];
    for j := 0 to |ids|
      invariant |es| == j && forall k :: 0 <= k < j ==> es[k] == edges[ids[k]]
    {
      if ids[j] in edges {
        es := es + [edges[ids[j]]];
      }
    }
  }

  /** Every entry under the node has its edge record in the same shard. */
  ghost predicate Fetchable(sh: Shard, adj: map<AdjKey, AdjVal>, G: Edges, id: NodeID) {
    forall eid {:trigger eid in Under(adj, id)} :: eid in Under(adj, id) ==>
        eid in sh.edges && eid in G && sh.edges[eid] == G[eid]
  }

  lemma LocalReads(db: DB, G: Edges, id: NodeID)
    requires Mirrors(db, G)
    ensures Fetchable(db.ShardOf(id), db.ShardOf(id).adjOut, G, id)
    ensures |db.shards| == 1 ==> Fetchable(db.ShardOf(id), db.ShardOf(id).adjIn, G, id)
  {
    UnderExact(db, G, id);
    assert MirrorsAt(db.shards[db.Home(id)], G, |db.shards|, db.Home(id));
  }

  /** Entries and edge records in the same shard: the cursor order is the result order. */
  method CollectLocal(sh: Shard, adj: map<AdjKey, AdjVal>, ghost G: Edges, id: NodeID) returns (es: seq<Edge>)
    requires forall eid :: eid in G ==> G[eid].id == eid
    requires Fetchable(sh, adj, G, id)
    ensures Ids(es) == Ascending(Under(adj, id)) && Stored(G, es)
  {
    var ids := Ascending(Under(adj, id));
    forall j | 0 <= j < |ids| ensures ids[j] in sh.edges && ids[j] in G && sh.edges[ids[j]] == G[ids[j]] {
      assert ids[j] in ids;
    }
    es := Fetch(sh.edges, G, ids);
  }

  // ---- incoming edges, grouped by the shard of their source -------------------------------------------

  /** The incoming edges whose source lies in shard `g`. */
  ghost function InsFrom(G: Edges, id: NodeID, n: nat, g: nat): set<EdgeID>
    requires n > 0
  {
    set eid | eid in G && G[eid].to == id && G[eid].from % n == g
  }

  ghost predicate Known(G: Edges, ids: seq<EdgeID>) {
    forall j :: 0 <= j < |ids| ==> ids[j] in G
  }

  /** Those among the first `k` adjacency entries. */
  ghost function Grouped(G: Edges, ids: seq<EdgeID>, n: nat, g: nat): set<EdgeID>
    requires n > 0 && Known(G, ids)
  {
    set j | 0 <= j < |ids| && G[ids[j]].from % n == g :: ids[j]
  }

  /** Each group lists its members once. */
  ghost predicate GroupsExact(groups: map<nat, seq<EdgeID>>, G: Edges, ids: seq<EdgeID>, n: nat)
    requires n > 0 && Known(G, ids)
  {
    && (forall g :: g in groups ==> g < n && multiset(groups[g]) == multiset(Grouped(G, ids, n, g)))
    && (forall g {:trigger Grouped(G, ids, n, g)} :: g !in groups ==> Grouped(G, ids, n, g) == {})
  }

  lemma GroupedOneMore(G: Edges, ids: seq<EdgeID>, n: nat, g: nat)
    requires n > 0 && ids != [] && Known(G, ids)
    ensures Known(G, ids[..|ids| - 1])
    ensures var eid, was := ids[|ids| - 1], ids[..|ids| - 1];
            Grouped(G, ids, n, g) == Grouped(G, was, n, g) + (if G[eid].from % n == g then {eid} else {})
  {
    var eid, was := ids[|ids| - 1], ids[..|ids| - 1];
    assert ids == was + [eid];
    forall x ensures x in Grouped(G, ids, n, g) <==> x in Grouped(G, was, n, g) || (G[eid].from % n == g && x == eid) {
      if x in Grouped(G, was, n, g) {
        var j :| 0 <= j < |was| && G[was[j]].from % n == g && was[j] == x;
        assert ids[j] == x;
      }
    }
  }

  lemma GroupOneMore(groups: map<nat, seq<EdgeID>>, G: Edges, ids: seq<EdgeID>, n: nat)
    requires n > 0 && ids != [] && Known(G, ids) && StrictlyAscending(ids) && Known(G, ids[..|ids| - 1])
    requires GroupsExact(groups, G, ids[..|ids| - 1], n)
    ensures
      var eid := ids[|ids| - 1];
      var g := G[eid].from % n;
      GroupsExact(groups[g := (if g in groups then groups[g] else []) + [eid]], G, ids, n)
  {
    var eid, was := ids[|ids| - 1], ids[..|ids| - 1];
    var h := G[eid].from % n;
    var groups' := groups[h := (if h in groups then groups[h] else []) + [eid]];
    assert eid !in Grouped(G, was, n, h);
    forall g | g in groups' ensures g < n && multiset(groups'[g]) == multiset(Grouped(G, ids, n, g)) {
      GroupedOneMore(G, ids, n, g);
      if g == h {
        assert multiset(Grouped(G, was, n, h) + {eid}) == multiset(Grouped(G, was, n, h)) + multiset{eid};
      }
    }
    forall g: nat | g !in groups' ensures Grouped(G, ids, n, g) == {} {
      GroupedOneMore(G, ids, n, g);
    }
  }

  /** Group the entries by source shard, then read each shard. */
  method CollectIncoming(db: DB, ghost G: Edges, id: NodeID) returns (es: seq<Edge>)
    requires Mirrors(db, G)
    ensures multiset(Ids(es)) == multiset(Ins(G, id)) && Stored(G, es)
  {
    var sh, n := db.ShardOf(id), |db.shards|;
    UnderExact(db, G, id);
    var ids := Ascending(Under(sh.adjIn, id));
    forall j | 0 <= j < |ids|
      ensures ids[j] in G && (id, ids[j]) in sh.adjIn && sh.adjIn[(id, ids[j])].node == G[ids[j]].from
    {
      assert ids[j] in Ins(G, id);
      assert MirrorsAt(db.shards[db.Home(id)], G, n, db.Home(id));
    }
    var groups: map<nat, seq<EdgeID>> := map[];
    for j := 0 to |ids|
      invariant Known(G, ids[..j]) && GroupsExact(groups, G, ids[..j], n)
    {
      var g := sh.adjIn[(id, ids[j])].node % n;
      assert ids[..j + 1][..j] == ids[..j];
      GroupOneMore(groups, G, ids[..j + 1], n);
      groups := groups[g := (if g in groups then groups[g] else []) + [ids[j]]];
    }
    assert ids[..|ids|] == ids;
    es := FetchGroups(db, G, id, ids, groups);
  }

  lemma GroupIs(G: Edges, id: NodeID, ids: seq<EdgeID>, n: nat, g: nat)
    requires n > 0 && Lists(ids, Ins(G, id)) && Known(G, ids)
    ensures Grouped(G, ids, n, g) == InsFrom(G, id, n, g)
  {
    forall eid: EdgeID ensures eid in Grouped(G, ids, n, g) <==> eid in InsFrom(G, id, n, g) {
      assert eid in ids <==> eid in Ins(G, id);
      if eid in InsFrom(G, id, n, g) {
        var j :| 0 <= j < |ids| && ids[j] == eid;
      }
    }
  }

  lemma GroupIsFetched(db: DB, G: Edges, id: NodeID, list: seq<EdgeID>, g: nat)
    requires Mirrors(db, G) && g < |db.shards| && multiset(list) == multiset(InsFrom(G, id, |db.shards|, g))
    ensures AllIn(db.shards[g].edges, G, list)
  {
    assert MirrorsAt(db.shards[g], G, |db.shards|, g);
    forall j | 0 <= j < |list|
      ensures list[j] in db.shards[g].edges && list[j] in G && db.shards[g].edges[list[j]] == G[list[j]]
    {
      assert list[j] in multiset(list);
    }
  }

  lemma Joined(es: seq<Edge>, got: set<EdgeID>, part: seq<Edge>, own: set<EdgeID>)
    requires multiset(Ids(es)) == multiset(got) && multiset(Ids(part)) == multiset(own) && got !! own
    ensures multiset(Ids(es + part)) == multiset(got + own)
  {
    assert Ids(es + part) == Ids(es) + Ids(part);
    assert multiset(got + own) == multiset(got) + multiset(own);
  }

  /** One read per source shard, in whatever order the groups come. */
  method FetchGroups(db: DB, ghost G: Edges, id: NodeID, ghost ids: seq<EdgeID>, groups: map<nat, seq<EdgeID>>)
    returns (es: seq<Edge>)
    requires Mirrors(db, G) && Lists(ids, Ins(G, id)) && Known(G, ids)
    requires GroupsExact(groups, G, ids, |db.shards|)
    ensures multiset(Ids(es)) == multiset(Ins(G, id)) && Stored(G, es)
  {
    es := [];
    var todo := groups.Keys;
    ghost var got: set<EdgeID> := {};
    forall g: nat ensures Grouped(G, ids, |db.shards|, g) == InsFrom(G, id, |db.shards|, g) {
      GroupIs(G, id, ids, |db.shards|, g);
    }
    forall eid | eid in Ins(G, id) ensures G[eid].from % |db.shards| in todo {
      assert eid in InsFrom(G, id, |db.shards|, G[eid].from % |db.shards|);
    }
    while todo != {}
      invariant todo <= groups.Keys && Stored(G, es) && multiset(Ids(es)) == multiset(got)
      invariant Collected(got, G, id, |db.shards|, todo)
      decreases |todo|
    {
      var g :| g in todo;
      ghost var own := InsFrom(G, id, |db.shards|, g);
      assert Grouped(G, ids, |db.shards|, g) == own;
      GroupIsFetched(db, G, id, groups[g], g);
      var part := Fetch(db.shards[g].edges, G, groups[g]);
      Joined(es, got, part, own);
      es, got, todo := es + part, got + own, todo - {g};
    }
    assert got == Ins(G, id);
  }

  /** The incoming edges of all groups but those to do. */
  ghost predicate Collected(got: set<EdgeID>, G: Edges, id: NodeID, n: nat, todo: set<nat>)
    requires n > 0
  {
    forall eid {:trigger eid in got} {:trigger eid in G} :: eid in got <==>
        eid in G && G[eid].to == id && G[eid].from % n !in todo
  }

  lemma BothLists(G: Edges, id: NodeID, outs: seq<Edge>, ins: seq<Edge>)
    requires Stored(G, outs) && Stored(G, ins) && Ids(outs) == Ascending(Outs(G, id)) &&
             multiset(Ids(ins)) == multiset(Ins(G, id))
    ensures Listing(G, id, outs + ins)
  {
    EachOnce(Ascending(Outs(G, id)), Outs(G, id));
    assert Ids(outs + ins) == Ids(outs) + Ids(ins);
  }

  /** Incoming edges: from the node's own shard when it is the only one, else from the source shards. */
  method ReadIncoming(db: DB, ghost G: Edges, id: NodeID) returns (es: seq<Edge>)
    requires Mirrors(db, G)
    ensures multiset(Ids(es)) == multiset(Ins(G, id)) && Stored(G, es)
  {
    if |db.shards| == 1 {
      LocalReads(db, G, id);
      UnderExact(db, G, id);
      es := CollectLocal(db.ShardOf(id), db.ShardOf(id).adjIn, G, id);
      EachOnce(Ascending(Ins(G, id)), Ins(G, id));
    } else {
      es := CollectIncoming(db, G, id);
    }
  }

  /**
   getEdgesForNode on a store of any number of shards: exactly the outgoing edges in ID
   order, exactly the incoming ones, or both lists, in which a self-loop stands twice.
   */
  method GetEdgesForNode(db: DB, ghost G: Edges, id: NodeID, dir: Direction) returns (es: seq<Edge>)
    requires Mirrors(db, G)
    ensures Stored(G, es)
    ensures dir == Outgoing ==> Ids(es) == Ascending(Outs(G, id))
    ensures dir == Incoming ==> multiset(Ids(es)) == multiset(Ins(G, id))
    ensures dir == Both ==> Listing(G, id, es)
  {
    es := [];
    if dir == Outgoing || dir == Both {
      LocalReads(db, G, id);
      UnderExact(db, G, id);
      es := CollectLocal(db.ShardOf(id), db.ShardOf(id).adjOut, G, id);
    }
    if dir == Incoming || dir == Both {
      var more := ReadIncoming(db, G, id);
      if dir == Both {
        BothLists(G, id, es, more);
      } else {
        assert es + more == more;
      }
      es := es + more;
    }
  }

  // ---- the searches' view of the store ---------------------------------------------------------------

  ghost function Records(G: Edges, ids: seq<EdgeID>): (es: seq<Edge>)
    requires Known(G, ids)
    ensures |es| == |ids|
  {
    seq(|ids|, j requires 0 <= j < |ids| => G[ids[j]])
  }

  ghost function Listed(G: Edges, ids: set<EdgeID>): seq<Edge>
    requires forall eid :: eid in ids ==> eid in G
  {
    assert forall j :: 0 <= j < |Ascending(ids)| ==> Ascending(ids)[j] in ids;
    Records(G, Ascending(ids))
  }

  lemma ListedAre(G: Edges, ids: set<EdgeID>)
    requires forall eid :: eid in ids ==> eid in G && G[eid].id == eid
    ensures forall e :: e in Listed(G, ids) <==> e.id in ids && G[e.id] == e
  {
    var order := Ascending(ids);
    forall e ensures e in Listed(G, ids) <==> e.id in ids && G[e.id] == e {
      if e in Listed(G, ids) {
        var j :| 0 <= j < |order| && Listed(G, ids)[j] == e;
        assert order[j] in order;
      }
      if e.id in ids && G[e.id] == e {
        assert e.id in order;
        var j :| 0 <= j < |order| && order[j] == e.id;
        assert Listed(G, ids)[j] == e;
      }
    }
  }

  ghost function NodeIds(db: DB): set<NodeID> {
    set i, id | 0 <= i < |db.shards| && id in db.shards[i].nodes :: id
  }

  /** What the path searches see of a stored graph. */
  ghost function GraphOf(db: DB, G: Edges): Graph.Graph {
    Graph.Graph(NodeIds(db), map id | id in NodeIds(db) :: Listed(G, Outs(G, id)), map id | id in NodeIds(db) ::
                Listed(G, Ins(G, id)))
  }

  lemma OutList(db: DB, G: Edges, id: NodeID, e: Edge)
    requires Mirrors(db, G)
    ensures e in Listed(G, Outs(G, id)) <==> e.id in G && G[e.id] == e && e.from == id
  {
    ListedAre(G, Outs(G, id));
  }

  lemma InList(db: DB, G: Edges, id: NodeID, e: Edge)
    requires Mirrors(db, G)
    ensures e in Listed(G, Ins(G, id)) <==> e.id in G && G[e.id] == e && e.to == id
  {
    ListedAre(G, Ins(G, id));
  }

  lemma IsNode(db: DB, id: NodeID)
    requires db.Valid() && db.HasNode(id)
    ensures id in NodeIds(db)
  {
    assert id in db.shards[db.Home(id)].nodes;
  }

  lemma OutSide(db: DB, G: Edges, id: NodeID, e: Edge)
    requires Mirrors(db, G) && EndpointsExist(db, G) && id in GraphOf(db, G).out && e in GraphOf(db, G).out[id]
    ensures e.from == id && e.to in NodeIds(db)
  {
    OutList(db, G, id, e);
    IsNode(db, G[e.id].to);
  }

  lemma InSide(db: DB, G: Edges, id: NodeID, e: Edge)
    requires Mirrors(db, G) && EndpointsExist(db, G) && id in GraphOf(db, G).inc && e in GraphOf(db, G).inc[id]
    ensures e.to == id && e.from in NodeIds(db)
  {
    InList(db, G, id, e);
    IsNode(db, G[e.id].from);
  }

  lemma OutExactly(db: DB, G: Edges, e: Edge)
    requires Mirrors(db, G) && EndpointsExist(db, G)
    ensures e in GraphOf(db, G).Out(e.from) <==> e.id in G && G[e.id] == e
  {
    OutList(db, G, e.from, e);
    if e.id in G && G[e.id] == e {
      IsNode(db, G[e.id].from);
    }
  }

  lemma InExactly(db: DB, G: Edges, e: Edge)
    requires Mirrors(db, G) && EndpointsExist(db, G)
    ensures e in GraphOf(db, G).EdgesOf(e.to, Incoming) <==> e.id in G && G[e.id] == e
  {
    InList(db, G, e.to, e);
    if e.id in G && G[e.id] == e {
      IsNode(db, G[e.id].to);
    }
  }

  /** A listing in ID order repeats no edge. */
  lemma ListedOnce(G: Edges, ids: set<EdgeID>)
    requires forall eid :: eid in ids ==> eid in G && G[eid].id == eid
    ensures AllPaths.Distinct(Listed(G, ids))
  {
    var order := Ascending(ids);
    forall i, j | 0 <= i < j < |order| ensures Listed(G, ids)[i] != Listed(G, ids)[j] {
      assert order[i] in order && order[j] in order && order[i] < order[j];
    }
  }

  /**
   A reachable store without dangling edges gives the searches a graph that files every
   edge under its ends and has no dangling edge, and whose lists are exactly the stored edges.
   */
  lemma StoredGraphIsSound(db: DB, G: Edges)
    requires Mirrors(db, G) && EndpointsExist(db, G)
    ensures GraphOf(db, G).Filed() && GraphOf(db, G).NoDangling() && AllPaths.ListsOnce(GraphOf(db, G))
    ensures forall e: Edge :: e in GraphOf(db, G).Out(e.from) <==> e.id in G && G[e.id] == e
    ensures forall e: Edge :: e in GraphOf(db, G).EdgesOf(e.to, Incoming) <==> e.id in G && G[e.id] == e
  {
    var g := GraphOf(db, G);
    forall id: NodeID ensures AllPaths.Distinct(g.Out(id)) {
      ListedOnce(G, Outs(G, id));
    }
    forall e: Edge ensures e in g.EdgesOf(e.to, Incoming) <==> e.id in G && G[e.id] == e {
      InExactly(db, G, e);
    }
    forall id, e: Edge | id in g.out && e in g.out[id] ensures e.from == id && e.to in g.nodes {
      OutSide(db, G, id, e);
    }
    forall id, e: Edge | id in g.inc && e in g.inc[id] ensures e.to == id && e.from in g.nodes {
      InSide(db, G, id, e);
    }
    forall e: Edge ensures e in g.Out(e.from) <==> e.id in G && G[e.id] == e {
      OutExactly(db, G, e);
    }
  }

  lemma ListedForwards(db: DB, G: Edges, u: NodeID, e: Edge)
    requires Mirrors(db, G) && EndpointsExist(db, G)
    ensures var g := GraphOf(db, G);
            (u in g.out && e in g.out[u] && e.from == u) <==> (e.id in G && G[e.id] == e && u == e.from)
  {
    OutExactly(db, G, e);
  }

  lemma ListedBackwards(db: DB, G: Edges, u: NodeID, e: Edge)
    requires Mirrors(db, G) && EndpointsExist(db, G)
    ensures var g := GraphOf(db, G);
            (u in g.inc && e in g.inc[u] && e.to == u) <==> (e.id in G && G[e.id] == e && u == e.to)
  {
    InExactly(db, G, e);
  }

  /** For a traversal the two ends of every stored edge are joined, in the direction asked for. */
  lemma StoredEdgesJoin(db: DB, G: Edges, u: NodeID, e: Edge, v: NodeID)
    requires Mirrors(db, G) && EndpointsExist(db, G)
    ensures var g, stored := GraphOf(db, G), e.id in G && G[e.id] == e;
            && (g.Joins(Outgoing, u, e, v) <==> stored && u == e.from && v == e.to)
            && (g.Joins(Incoming, u, e, v) <==> stored && u == e.to && v == e.from)
            && (g.Joins(Both, u, e, v) <==>
                stored && ((u == e.from && v == e.to) || (u == e.to && v == e.from)))
  {
    ListedForwards(db, G, u, e);
    ListedBackwards(db, G, u, e);
    GraphOf(db, G).JoinsListed(u, e, v, e.id in G && G[e.id] == e);
  }

  // ---- EdgesByLabel ------------------------------------------------------------------------------------

  /** Edge labels hold no NUL. */
  ghost predicate LabelsEncodable(G: Edges) {
    forall eid :: eid in G ==> NulFree(G[eid].lbl)
  }

  ghost function OwnTyped(G: Edges, n: nat, i: nat, l: Str): set<EdgeID>
    requires n > 0
  {
    set eid | eid in G && G[eid].from % n == i && G[eid].lbl == l
  }

  /** The type-index keys of a label are exactly those of its edges. */
  lemma TypeScan(db: DB, G: Edges, i: nat, l: Str)
    requires Mirrors(db, G) && LabelsEncodable(G) && NulFree(l) && i < |db.shards|
    ensures Met(db.shards[i].edgeType, IndexPrefix(l)) == KeyedBy(IndexPrefix(l), OwnTyped(G, |db.shards|, i, l))
  {
    var n := |db.shards|;
    assert MirrorsAt(db.shards[i], G, n, i);
    forall k ensures k in Met(db.shards[i].edgeType, IndexPrefix(l)) <==>
        k in KeyedBy(IndexPrefix(l), OwnTyped(G, n, i, l)) {
      if k in Met(db.shards[i].edgeType, IndexPrefix(l)) {
        var eid :| eid in G && G[eid].from % n == i && k == IndexKey(G[eid].lbl, eid);
        IndexScanExact(l, G[eid].lbl, eid);
        assert k == IndexPrefix(l) + EncodeID(eid);
      }
      if k in KeyedBy(IndexPrefix(l), OwnTyped(G, n, i, l)) {
        var eid :| eid in OwnTyped(G, n, i, l) && k == IndexPrefix(l) + EncodeID(eid);
        assert k == IndexKey(G[eid].lbl, eid);
      }
    }
  }

  /** The IDs of a label's edges, shard by shard. */
  ghost function Typed(G: Edges, n: nat, l: Str, k: nat): seq<EdgeID>
    requires n > 0
  {
    if k == 0 then [] else Typed(G, n, l, k - 1) + Ascending(OwnTyped(G, n, k - 1, l))
  }

  /** What the seeks in the type indexes of the first `k` shards yield. */
  ghost function TypeHits(shards: seq<Shard>, l: Str, k: nat): seq<EdgeID>
    requires k <= |shards|
  {
    if k == 0 then []
    else TypeHits(shards, l, k - 1) + Decoded(shards[k - 1].edges, IndexPrefix(l),
                                              Walk(Met(shards[k - 1].edgeType, IndexPrefix(l))))
  }

  lemma {:induction false} TypeHitsAre(db: DB, G: Edges, l: Str, k: nat)
    requires Mirrors(db, G) && LabelsEncodable(G) && NulFree(l) && k <= |db.shards|
    ensures TypeHits(db.shards, l, k) == Typed(G, |db.shards|, l, k)
  {
    if k > 0 {
      TypeHitsAre(db, G, l, k - 1);
      TypeScan(db, G, k - 1, l);
      assert MirrorsAt(db.shards[k - 1], G, |db.shards|, k - 1);
      SeekExact(db.shards[k - 1].edges, db.shards[k - 1].edgeType, IndexPrefix(l), OwnTyped(G, |db.shards|, k - 1, l));
    }
  }

  /** Among NUL-free labels the seeks find exactly the stored edges of the label, shard by shard in ID order. */
  lemma TypeHitsExact(db: DB, G: Edges, l: Str)
    requires Mirrors(db, G) && LabelsEncodable(G) && NulFree(l)
    ensures TypeHits(db.shards, l, |db.shards|) == Typed(G, |db.shards|, l, |db.shards|)
    ensures forall eid: EdgeID :: eid in TypeHits(db.shards, l, |db.shards|) <==> eid in G && G[eid].lbl == l
  {
    TypeHitsAre(db, G, l, |db.shards|);
    forall eid: EdgeID ensures eid in TypeHits(db.shards, l, |db.shards|) <==> eid in G && G[eid].lbl == l {
      TypedIs(G, |db.shards|, l, |db.shards|, eid);
      assert eid in G ==> G[eid].from % |db.shards| < |db.shards|;
    }
  }

  /** EdgesByLabel, for any label: a seek in the type index of every shard. */
  method EdgesByLabel(db: DB, l: Str) returns (ids: seq<EdgeID>)
    ensures ids == TypeHits(db.shards, l, |db.shards|)
  {
    ids := [];
    for i := 0 to |db.shards|
      invariant ids == TypeHits(db.shards, l, i)
    {
      var part := SeekIDs(db.shards[i].edges, db.shards[i].edgeType, IndexPrefix(l));
      ids := ids + part;
    }
  }

  lemma {:induction false} TypedIs(G: Edges, n: nat, l: Str, k: nat, eid: EdgeID)
    requires n > 0
    ensures eid in Typed(G, n, l, k) <==> eid in G && G[eid].lbl == l && G[eid].from % n < k
  {
    if k > 0 {
      TypedIs(G, n, l, k - 1, eid);
      assert eid in Ascending(OwnTyped(G, n, k - 1, l)) <==> eid in OwnTyped(G, n, k - 1, l);
    }
  }
}
