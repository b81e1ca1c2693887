/**
 The edge buckets mirror one abstract map of edges: edge records, outgoing and
 incoming adjacency entries and the type index, each in the right shard, and the
 adjacency lists read back exactly.
 */
module Adjacency {
  import opened Types
  import opened Values
  import opened Keys
  import opened Store
  import opened Leader
  import opened Applier
  import opened Replay

  type Edges = map<EdgeID, Edge>

  // ---- what shard `i` of `n` should hold --------------------------------------------------------

  ghost predicate EdgesExact(edges: Edges, G: Edges, n: nat, i: nat)
    requires n > 0
  {
    forall eid: EdgeID {:trigger eid in edges} {:trigger eid in G} ::
      && (eid in edges <==> eid in G && G[eid].from % n == i)
      && (eid in edges ==> edges[eid] == G[eid])
  }

  ghost predicate OutExact(adj: map<AdjKey, AdjVal>, G: Edges, n: nat, i: nat)
    requires n > 0
  {
    forall v: NodeID, eid: EdgeID {:trigger (v, eid) in adj} ::
      && ((v, eid) in adj <==> eid in G && G[eid].from == v && v % n == i)
      && ((v, eid) in adj ==> adj[(v, eid)] == AdjVal(G[eid].to, G[eid].lbl))
  }

  ghost predicate InExact(adj: map<AdjKey, AdjVal>, G: Edges, n: nat, i: nat)
    requires n > 0
  {
    forall v: NodeID, eid: EdgeID {:trigger (v, eid) in adj} ::
      && ((v, eid) in adj <==> eid in G && G[eid].to == v && v % n == i)
      && ((v, eid) in adj ==> adj[(v, eid)] == AdjVal(G[eid].from, G[eid].lbl))
  }

  ghost function OwnTypes(G: Edges, n: nat, i: nat): set<Str>
    requires n > 0
  {
    set eid | eid in G && G[eid].from % n == i :: IndexKey(G[eid].lbl, eid)
  }

  ghost predicate MirrorsAt(sh: Shard, G: Edges, n: nat, i: nat)
    requires n > 0
  {
    EdgesExact(sh.edges, G, n, i) && OutExact(sh.adjOut, G, n, i) && InExact(sh.adjIn, G, n, i) &&
        sh.edgeType == OwnTypes(G, n, i)
  }

  /** IDs are the keys and have all been handed out. */
  ghost predicate Numbered(G: Edges, last: nat) {
    forall eid :: eid in G ==> G[eid].id == eid && 1 <= eid <= last
  }

  ghost predicate Mirrors(db: DB, G: Edges) {
    && db.Valid() && Numbered(G, db.nextEdge)
    && forall i {:trigger MirrorsAt(db.shards[i], G, |db.shards|, i)} :: 0 <= i < |db.shards| ==>
         MirrorsAt(db.shards[i], G, |db.shards|, i)
  }

  // ---- one edge more, one edge less ---------------------------------------------------------------

  lemma TypesAdd(G: Edges, e: Edge, n: nat, i: nat)
    requires n > 0 && e.id !in G
    ensures OwnTypes(G[e.id := e], n, i) ==
              (if e.from % n == i then OwnTypes(G, n, i) + {IndexKey(e.lbl, e.id)} else OwnTypes(G, n, i))
  {
    var G' := G[e.id := e];
    forall k
      ensures k in OwnTypes(G', n, i) <==> k in OwnTypes(G, n, i) || (e.from % n == i && k == IndexKey(e.lbl, e.id))
    {
      if k in OwnTypes(G, n, i) {
        var eid :| eid in G && G[eid].from % n == i && k == IndexKey(G[eid].lbl, eid);
        assert eid in G' && G'[eid] == G[eid];
      }
      if e.from % n == i && k == IndexKey(e.lbl, e.id) {
        assert e.id in G' && G'[e.id] == e;
      }
    }
  }

  lemma TypesDrop(G: Edges, e: Edge, n: nat, i: nat)
    requires n > 0 && (e.id in G ==> G[e.id] == e)
    ensures OwnTypes(G - {e.id}, n, i) ==
              (if e.from % n == i then OwnTypes(G, n, i) - {IndexKey(e.lbl, e.id)} else OwnTypes(G, n, i))
  {
    var G' := G - {e.id};
    forall k
      ensures k in OwnTypes(G', n, i) <==> k in OwnTypes(G, n, i) && !(e.from % n == i && k == IndexKey(e.lbl, e.id))
    {
      if k in OwnTypes(G', n, i) {
        var eid :| eid in G' && G'[eid].from % n == i && k == IndexKey(G'[eid].lbl, eid);
        assert eid in G && G[eid] == G'[eid];
        if k == IndexKey(e.lbl, e.id) {
          IndexKeyInjective(G'[eid].lbl, eid, e.lbl, e.id);
        }
      }
      if k in OwnTypes(G, n, i) && !(e.from % n == i && k == IndexKey(e.lbl, e.id)) {
        var eid :| eid in G && G[eid].from % n == i && k == IndexKey(G[eid].lbl, eid);
        assert eid in G' && G'[eid] == G[eid];
      }
    }
  }

  lemma EdgesAdd(edges: Edges, G: Edges, e: Edge, n: nat, i: nat)
    requires n > 0 && EdgesExact(edges, G, n, i) && e.id !in G
    ensures EdgesExact(if e.from % n == i then edges[e.id := e] else edges, G[e.id := e], n, i)
  {
  }

  lemma OutAdd(adj: map<AdjKey, AdjVal>, G: Edges, e: Edge, n: nat, i: nat)
    requires n > 0 && OutExact(adj, G, n, i) && e.id !in G
    ensures OutExact(if e.from % n == i then adj[(e.from, e.id) := AdjVal(e.to, e.lbl)] else adj, G[e.id := e], n, i)
  {
  }

  lemma InAdd(adj: map<AdjKey, AdjVal>, G: Edges, e: Edge, n: nat, i: nat)
    requires n > 0 && InExact(adj, G, n, i) && e.id !in G
    ensures InExact(if e.to % n == i then adj[(e.to, e.id) := AdjVal(e.from, e.lbl)] else adj, G[e.id := e], n, i)
  {
  }

  lemma AddMirrorsAt(sh: Shard, G: Edges, e: Edge, n: nat, i: nat)
    requires n > 0 && MirrorsAt(sh, G, n, i) && e.id !in G
    ensures
      var sh1 := if e.from % n == i then PutEdge(sh, e) else sh;
      MirrorsAt(if e.to % n == i then PutIncoming(sh1, e) else sh1, G[e.id := e], n, i)
  {
    EdgesAdd(sh.edges, G, e, n, i);
    OutAdd(sh.adjOut, G, e, n, i);
    InAdd(sh.adjIn, G, e, n, i);
    TypesAdd(G, e, n, i);
  }

  lemma EdgesDrop(edges: Edges, G: Edges, e: Edge, n: nat, i: nat)
    requires n > 0 && EdgesExact(edges, G, n, i) && (e.id in G ==> G[e.id] == e)
    ensures EdgesExact(if e.from % n == i then edges - {e.id} else edges, G - {e.id}, n, i)
  {
  }

  lemma OutDrop(adj: map<AdjKey, AdjVal>, G: Edges, e: Edge, n: nat, i: nat)
    requires n > 0 && OutExact(adj, G, n, i) && (e.id in G ==> G[e.id] == e)
    ensures OutExact(if e.from % n == i then adj - {(e.from, e.id)} else adj, G - {e.id}, n, i)
  {
  }

  lemma InDrop(adj: map<AdjKey, AdjVal>, G: Edges, e: Edge, n: nat, i: nat)
    requires n > 0 && InExact(adj, G, n, i) && (e.id in G ==> G[e.id] == e)
    ensures InExact(if e.to % n == i then adj - {(e.to, e.id)} else adj, G - {e.id}, n, i)
  {
  }

  /** Removing `e`, which is the stored edge of that ID or already gone. */
  lemma DropMirrorsAt(sh: Shard, G: Edges, e: Edge, n: nat, i: nat)
    requires n > 0 && MirrorsAt(sh, G, n, i) && (e.id in G ==> G[e.id] == e)
    ensures
      var sh1 := if e.from % n == i then DropEdge(sh, e.id, e.from, e.lbl) else sh;
      MirrorsAt(if e.to % n == i then DropIncoming(sh1, e.id, e.to) else sh1, G - {e.id}, n, i)
  {
    EdgesDrop(sh.edges, G, e, n, i);
    OutDrop(sh.adjOut, G, e, n, i);
    InDrop(sh.adjIn, G, e, n, i);
    TypesDrop(G, e, n, i);
  }

  lemma WriteMirrors(db: DB, G: Edges, e: Edge)
    requires Mirrors(db, G) && e.id !in G && 1 <= e.id <= db.nextEdge
    ensures Mirrors(WriteEdge(db, e), G[e.id := e])
  {
    var n, db' := |db.shards|, WriteEdge(db, e);
    forall i | 0 <= i < n
      ensures MirrorsAt(db'.shards[i], G[e.id := e], n, i)
    {
      assert MirrorsAt(db.shards[i], G, n, i);
      AddMirrorsAt(db.shards[i], G, e, n, i);
    }
  }

  lemma EraseMirrors(db: DB, G: Edges, e: Edge)
    requires Mirrors(db, G) && (e.id in G ==> G[e.id] == e)
    ensures Mirrors(EraseEdge(db, e), G - {e.id})
  {
    var n, db' := |db.shards|, EraseEdge(db, e);
    forall i | 0 <= i < n
      ensures MirrorsAt(db'.shards[i], G - {e.id}, n, i)
    {
      assert MirrorsAt(db.shards[i], G, n, i);
      DropMirrorsAt(db.shards[i], G, e, n, i);
    }
  }

  // ---- calls ------------------------------------------------------------------------------------

  ghost function Outs(G: Edges, id: NodeID): set<EdgeID> {
    set eid | eid in G && G[eid].from == id
  }

  ghost function Ins(G: Edges, id: NodeID): set<EdgeID> {
    set eid | eid in G && G[eid].to == id
  }

  function Ids(es: seq<Edge>): (ids: seq<EdgeID>)
    ensures |ids| == |es|
  {
    seq(|es|, i requires 0 <= i < |es| => es[i].id)
  }

  /** `es` are edges of G. */
  ghost predicate Stored(G: Edges, es: seq<Edge>) {
    forall e :: e in es ==> e.id in G && G[e.id] == e
  }

  /** `es` lists the outgoing and the incoming edges of a node, a self-loop twice. */
  ghost predicate Listing(G: Edges, id: NodeID, es: seq<Edge>) {
    Stored(G, es) && multiset(Ids(es)) == multiset(Outs(G, id)) + multiset(Ins(G, id))
  }

  /** DeleteNode has read the adjacency lists of its node. */
  ghost predicate WellRead(G: Edges, call: Call) {
    call.DeleteNodeCall? ==> Listing(G, call.id, call.listed)
  }

  /** The edges under consecutive new IDs. */
  ghost function Fresh(G: Edges, es: seq<Edge>): Edges {
    if es == [] then G else Fresh(G, es[..|es| - 1])[es[|es| - 1].id := es[|es| - 1]]
  }

  /** What a call does to the abstract edges. */
  ghost function Next(db: DB, G: Edges, call: Call): Edges
    requires db.Valid() && Room(db, call)
  {
    match call
    case AddEdgeCall(s, t, name, props) =>
      if db.HasNode(s) && db.HasNode(t) then G[db.nextEdge + 1 := Edge(db.nextEdge + 1, s, t, name, props)] else G
    case AddEdgeBatchCall(es) => Fresh(G, NumberedEdges(db.nextEdge + 1, es))
    case DeleteEdgeCall(eid) => G - {eid}
    case UpdateEdgeCall(eid, props) => if eid in G then G[eid := G[eid].(props := G[eid].props + props)] else G
    case DeleteNodeCall(id, _) => G - (Outs(G, id) + Ins(G, id))
    case _ => G
  }

  lemma SameSideMirrors(db: DB, db': DB, G: Edges)
    requires Mirrors(db, G) && KeepsEdges(db, db')
    ensures Mirrors(db', G)
  {
    forall i | 0 <= i < |db'.shards|
      ensures MirrorsAt(db'.shards[i], G, |db'.shards|, i)
    {
      assert MirrorsAt(db.shards[i], G, |db.shards|, i);
      assert EdgeSide(db'.shards[i]) == EdgeSide(db.shards[i]);
    }
  }

  lemma MoreIds(db: DB, G: Edges, last: uint64)
    requires Mirrors(db, G) && db.nextEdge <= last
    ensures Mirrors(db.(nextEdge := last), G)
  {
    var db' := db.(nextEdge := last);
    forall i | 0 <= i < |db'.shards| ensures MirrorsAt(db'.shards[i], G, |db'.shards|, i) {
      assert MirrorsAt(db.shards[i], G, |db.shards|, i);
    }
  }

  /** The search over all shards finds the edge wherever it is. */
  lemma {:induction false} GetEdgeExact(db: DB, G: Edges, eid: EdgeID, i: nat)
    requires Mirrors(db, G) && i <= |db.shards|
    requires eid in G ==> i <= G[eid].from % |db.shards|
    ensures GetEdge(db, eid, i) == if eid in G then Some(G[eid]) else None
    decreases |db.shards| - i
  {
    if i < |db.shards| {
      assert MirrorsAt(db.shards[i], G, |db.shards|, i);
      if eid !in db.shards[i].edges {
        GetEdgeExact(db, G, eid, i + 1);
      }
    }
  }

  lemma TypesUpdate(G: Edges, eid: EdgeID, props: Props, n: nat, i: nat)
    requires n > 0 && eid in G
    ensures OwnTypes(G[eid := G[eid].(props := props)], n, i) == OwnTypes(G, n, i)
  {
    var G' := G[eid := G[eid].(props := props)];
    forall k
      ensures k in OwnTypes(G', n, i) <==> k in OwnTypes(G, n, i)
    {
      if k in OwnTypes(G, n, i) {
        var x :| x in G && G[x].from % n == i && k == IndexKey(G[x].lbl, x);
        assert x in G' && G'[x].from == G[x].from && G'[x].lbl == G[x].lbl;
      }
    }
  }

  lemma UpdateMirrors(db: DB, G: Edges, eid: EdgeID, props: Props)
    requires Mirrors(db, G) && eid in G
    ensures Mirrors(UpdateEdge(db, eid, props).db, G[eid := G[eid].(props := G[eid].props + props)])
  {
    GetEdgeExact(db, G, eid, 0);
    var n, e, db' := |db.shards|, G[eid], UpdateEdge(db, eid, props).db;
    var G' := G[eid := e.(props := e.props + props)];
    forall i | 0 <= i < n
      ensures MirrorsAt(db'.shards[i], G', n, i)
    {
      assert MirrorsAt(db.shards[i], G, n, i);
      TypesUpdate(G, eid, e.props + props, n, i);
      UpdateExact(db.shards[i], G, eid, e.props + props, n, i);
    }
  }

  lemma UpdateExact(sh: Shard, G: Edges, eid: EdgeID, props: Props, n: nat, i: nat)
    requires n > 0 && MirrorsAt(sh, G, n, i) && eid in G
    ensures var G' := G[eid := G[eid].(props := props)];
            && EdgesExact(if G[eid].from % n == i then sh.edges[eid := G'[eid]] else sh.edges, G', n, i)
            && OutExact(sh.adjOut, G', n, i) && InExact(sh.adjIn, G', n, i)
  {
  }

  ghost predicate Consecutive(es: seq<Edge>, first: nat, last: nat) {
    first >= 1 && forall i :: 0 <= i < |es| ==> es[i].id == first + i <= last
  }

  lemma {:induction false} BatchMirrors(db: DB, G: Edges, first: nat, es: seq<Edge>)
    requires Mirrors(db, G) && (forall eid :: eid in G ==> eid < first) && Consecutive(es, first, db.nextEdge)
    ensures Mirrors(ApplyAddEdges(db, es), Fresh(G, es)) && ApplyAddEdges(db, es).nextEdge == db.nextEdge
    ensures forall eid :: eid in Fresh(G, es) ==> eid < first + |es|
  {
    if es != [] {
      assert forall i :: 0 <= i < |es| - 1 ==> es[..|es| - 1][i] == es[i];
      BatchMirrors(db, G, first, es[..|es| - 1]);
      WriteMirrors(ApplyAddEdges(db, es[..|es| - 1]), Fresh(G, es[..|es| - 1]), es[|es| - 1]);
    }
  }

  lemma {:induction false} EraseAllMirrors(db: DB, G: Edges, es: seq<Edge>)
    requires Mirrors(db, G) && Stored(G, es)
    ensures Mirrors(EraseEdges(db, es).db, G - (set e | e in es :: e.id))
  {
    var gone := set e | e in es :: e.id;
    if es == [] {
      assert G - gone == G;
    } else {
      var e, es' := es[|es| - 1], es[..|es| - 1];
      EraseAllMirrors(db, G, es');
      var gone' := set x | x in es' :: x.id;
      assert e in es;
      assert es == es' + [e];
      EraseMirrors(EraseEdges(db, es').db, G - gone', e);
      assert G - gone == (G - gone') - {e.id};
    }
  }

  lemma ListedIds(G: Edges, id: NodeID, es: seq<Edge>)
    requires Listing(G, id, es)
    ensures (set e | e in es :: e.id) == Outs(G, id) + Ins(G, id)
  {
    var ids := Ids(es);
    forall eid: EdgeID
      ensures eid in (set e | e in es :: e.id) <==> eid in Outs(G, id) + Ins(G, id)
    {
      assert eid in multiset(ids) <==> eid in multiset(Outs(G, id)) || eid in multiset(Ins(G, id));
      if eid in multiset(ids) {
        var j :| 0 <= j < |ids| && ids[j] == eid;
        assert es[j] in es;
      }
      if e :| e in es && e.id == eid {
        var j :| 0 <= j < |es| && es[j] == e;
        assert ids[j] == eid;
      }
    }
  }

  lemma DeleteNodeMirrors(r: Render, db: DB, G: Edges, id: NodeID, es: seq<Edge>)
    requires Mirrors(db, G) && Listing(G, id, es)
    ensures Mirrors(DeleteNode(r, db, id, es).db, G - (Outs(G, id) + Ins(G, id)))
  {
    EraseAllMirrors(db, G, es);
    ListedIds(G, id, es);
    var db1 := EraseEdges(db, es).db;
    if db1.HasNode(id) {
      EraseNodeKeepsEdges(r, db1, db.reg, id);
      SameSideMirrors(db1, DeleteNode(r, db, id, es).db, G - (Outs(G, id) + Ins(G, id)));
    }
  }

  lemma EraseNodeKeepsEdges(r: Render, db: DB, reg: Registry, id: NodeID)
    requires db.Valid() && db.HasNode(id)
    ensures KeepsEdges(db, db.Commit(id, EraseNode(r, reg, db.ShardOf(id), id)))
  {
  }

  /** Every call takes a mirrored store to a mirrored store over the abstract successor. */
  lemma CallMirrors(r: Render, db: DB, G: Edges, call: Call)
    requires Mirrors(db, G) && Room(db, call) && WellRead(G, call)
    ensures Mirrors(Execute(r, db, call).db, Next(db, G, call))
  {
    if IsEdgeCall(call) {
      EdgeCallMirrors(r, db, G, call);
    } else if call.DeleteNodeCall? {
      DeleteNodeMirrors(r, db, G, call.id, call.listed);
    } else {
      OtherCallsKeepEdges(r, db, call);
      SameSideMirrors(db, Execute(r, db, call).db, G);
    }
  }

  lemma AddBatchMirrors(db: DB, G: Edges, list: seq<Edge>)
    requires Mirrors(db, G) && db.nextEdge + |list| < TWO64
    ensures Mirrors(AddEdgeBatch(db, list).db, Fresh(G, NumberedEdges(db.nextEdge + 1, list)))
  {
    var db1 := db.(nextEdge := db.nextEdge + |list|);
    var es := NumberedEdges(db.nextEdge + 1, list);
    MoreIds(db, G, db.nextEdge + |list|);
    BatchMirrors(db1, G, db.nextEdge + 1, es);
    BatchIsOneByOne(db1, es);
  }

  lemma AddEdgeMirrors(db: DB, G: Edges, source: NodeID, target: NodeID, name: Str, props: Props)
    requires Mirrors(db, G) && db.nextEdge + 1 < TWO64
    ensures Mirrors(AddEdge(db, source, target, name, props).db, Next(db, G, AddEdgeCall(source, target, name, props)))
  {
    if db.HasNode(source) && db.HasNode(target) {
      var e, db1 := Edge(db.nextEdge + 1, source, target, name, props), db.(nextEdge := db.nextEdge + 1);
      MoreIds(db, G, db.nextEdge + 1);
      WriteMirrors(db1, G, e);
    }
    AddEdgeIs(db, G, Edge(db.nextEdge + 1, source, target, name, props));
  }

  lemma DeleteEdgeMirrors(db: DB, G: Edges, eid: EdgeID)
    requires Mirrors(db, G)
    ensures Mirrors(DeleteEdge(db, eid).db, G - {eid})
  {
    GetEdgeExact(db, G, eid, 0);
    if eid in G {
      EraseMirrors(db, G, G[eid]);
    } else {
      assert G - {eid} == G;
    }
  }

  lemma EdgeCallMirrors(r: Render, db: DB, G: Edges, call: Call)
    requires Mirrors(db, G) && Room(db, call) && IsEdgeCall(call)
    ensures Mirrors(Execute(r, db, call).db, Next(db, G, call))
  {
    match call
    case AddEdgeCall(s, t, name, props) => AddEdgeMirrors(db, G, s, t, name, props);
    case AddEdgeBatchCall(list) => AddBatchMirrors(db, G, list);
    case DeleteEdgeCall(eid) => DeleteEdgeMirrors(db, G, eid);
    case UpdateEdgeCall(eid, props) =>
      GetEdgeExact(db, G, eid, 0);
      if eid in G {
        UpdateMirrors(db, G, eid, props);
      }
  }

  // ---- reading what was written ---------------------------------------------------------------------

  lemma {:induction false} FreshAt(G: Edges, es: seq<Edge>, first: nat, k: nat)
    requires k < |es| && forall j :: 0 <= j < |es| ==> es[j].id == first + j
    ensures es[k].id in Fresh(G, es) && Fresh(G, es)[es[k].id] == es[k]
  {
    if k < |es| - 1 {
      FreshAt(G, es[..|es| - 1], first, k);
    }
  }

  lemma {:induction false} FreshKeeps(G: Edges, es: seq<Edge>, eid: EdgeID)
    requires forall j :: 0 <= j < |es| ==> es[j].id != eid
    ensures eid in Fresh(G, es) <==> eid in G
    ensures eid in G ==> Fresh(G, es)[eid] == G[eid]
  {
    if es != [] {
      FreshKeeps(G, es[..|es| - 1], eid);
    }
  }

  lemma {:induction false} OwnEdgeAt(sh: Shard, es: seq<Edge>, n: nat, i: nat, first: nat, k: nat)
    requires n > 0 && k < |es| && es[k].from % n == i && forall j :: 0 <= j < |es| ==> es[j].id == first + j
    ensures var edges := PutOwnIncoming(PutOwnEdges(sh, es, n, i), es, n, i).edges;
            es[k].id in edges && edges[es[k].id] == es[k]
  {
    IncomingKeepsEdges(PutOwnEdges(sh, es, n, i), es, n, i);
    if k < |es| - 1 {
      OwnEdgeAt(sh, es[..|es| - 1], n, i, first, k);
      IncomingKeepsEdges(PutOwnEdges(sh, es[..|es| - 1], n, i), es[..|es| - 1], n, i);
    }
  }

  lemma {:induction false} IncomingKeepsEdges(sh: Shard, es: seq<Edge>, n: nat, i: nat)
    requires n > 0
    ensures PutOwnIncoming(sh, es, n, i).edges == sh.edges
  {
    if es != [] {
      IncomingKeepsEdges(sh, es[..|es| - 1], n, i);
    }
  }

  /** Item `k` of an edge batch is read under the `k`-th new ID, and older edges as before. */
  lemma EdgeBatchIsRead(db: DB, G: Edges, list: seq<Edge>, k: nat)
    requires Mirrors(db, G) && db.nextEdge + |list| < TWO64 && k < |list|
    ensures var o, id := AddEdgeBatch(db, list), db.nextEdge + 1 + k;
            && GetEdge(o.db, id, 0) == Some(Edge(id, list[k].from, list[k].to, list[k].lbl, list[k].props))
            && (forall eid :: eid in G ==> GetEdge(o.db, eid, 0) == Some(G[eid]))
            && |o.log| == 1 && o.log[0].op.OpAddEdgeBatch? && |o.log[0].op.edges| == |list|
            && o.log[0].op.edges[k] == Edge(id, list[k].from, list[k].to, list[k].lbl, list[k].props)
  {
    var es, o := NumberedEdges(db.nextEdge + 1, list), AddEdgeBatch(db, list);
    AddBatchMirrors(db, G, list);
    FreshAt(G, es, db.nextEdge + 1, k);
    GetEdgeExact(o.db, Fresh(G, es), es[k].id, 0);
    forall eid | eid in G ensures GetEdge(o.db, eid, 0) == Some(G[eid]) {
      FreshKeeps(G, es, eid);
      GetEdgeExact(o.db, Fresh(G, es), eid, 0);
    }
  }

  /** What the other edge calls leave to be read of the edge they name. */
  lemma EdgeCallsAreRead(db: DB, G: Edges, source: NodeID, target: NodeID, name: Str, props: Props, eid: EdgeID)
    requires Mirrors(db, G) && db.nextEdge + 1 < TWO64
    ensures var o, id := AddEdge(db, source, target, name, props), db.nextEdge + 1;
            && (o.ok <==> db.HasNode(source) && db.HasNode(target))
            && GetEdge(o.db, id, 0) == if o.ok then Some(Edge(id, source, target, name, props)) else None
    ensures var o := UpdateEdge(db, eid, props);
            && (o.ok <==> eid in G)
            && (o.ok ==> GetEdge(o.db, eid, 0).Some? && Reshaped(G[eid], props, GetEdge(o.db, eid, 0).value))
    ensures (DeleteEdge(db, eid).ok <==> eid in G) && GetEdge(DeleteEdge(db, eid).db, eid, 0) == None
  {
    AddEdgeMirrors(db, G, source, target, name, props);
    GetEdgeExact(AddEdge(db, source, target, name, props).db,
                 Next(db, G, AddEdgeCall(source, target, name, props)), db.nextEdge + 1, 0);
    GetEdgeExact(db, G, eid, 0);
    if eid in G {
      UpdateMirrors(db, G, eid, props);
      GetEdgeExact(UpdateEdge(db, eid, props).db, G[eid := G[eid].(props := G[eid].props + props)], eid, 0);
    }
    DeleteEdgeMirrors(db, G, eid);
    GetEdgeExact(DeleteEdge(db, eid).db, G - {eid}, eid, 0);
  }

  /** `e'` is `e` with the given properties set and its other properties as they were. */
  ghost predicate Reshaped(e: Edge, props: Props, e': Edge) {
    && (e'.id, e'.from, e'.to, e'.lbl) == (e.id, e.from, e.to, e.lbl)
    && (forall p :: p in e'.props <==> p in e.props || p in props)
    && (forall p :: p in props ==> e'.props[p] == props[p])
    && (forall p :: p in e.props && p !in props ==> e'.props[p] == e.props[p])
  }

  // ---- endpoints ----------------------------------------------------------------------------------

  ghost predicate EndpointsExist(db: DB, G: Edges)
    requires db.Valid()
  {
    forall eid :: eid in G ==> db.HasNode(G[eid].from) && db.HasNode(G[eid].to)
  }

  /** The node buckets keep every node but `gone`. */
  ghost predicate KeepsNodes(db: DB, db': DB, gone: set<NodeID>)
    requires db.Valid()
  {
    |db'.shards| == |db.shards| && forall v: NodeID {:trigger db'.HasNode(v)} :: db.HasNode(v) && v !in gone ==>
        db'.HasNode(v)
  }

  lemma {:induction false} OwnNodesKept(sh: Shard, nodes: seq<(NodeID, Props)>, n: nat, i: nat)
    requires n > 0
    ensures sh.nodes.Keys <= PutOwnNodes(sh, nodes, n, i).nodes.Keys
  {
    if nodes != [] {
      OwnNodesKept(sh, nodes[..|nodes| - 1], n, i);
    }
  }

  lemma {:induction false} EraseKeepsNodes(db: DB, es: seq<Edge>)
    requires db.Valid()
    ensures KeepsNodes(db, EraseEdges(db, es).db, {})
  {
    if es != [] {
      EraseKeepsNodes(db, es[..|es| - 1]);
      var mid, db' := EraseEdges(db, es[..|es| - 1]).db, EraseEdges(db, es).db;
      forall v: NodeID | mid.HasNode(v) ensures db'.HasNode(v) { }
    }
  }

  lemma NodeCallKeepsNodes(r: Render, db: DB, id: NodeID, names: seq<Str>, props: Props)
    requires db.Valid()
    ensures KeepsNodes(db, UpdateNode(r, db, id, props).db, {}) && KeepsNodes(db, SetNodeProps(r, db, id, props).db, {})
  {
  }

  lemma LabelCallKeepsNodes(r: Render, db: DB, id: NodeID, names: seq<Str>)
    requires db.Valid()
    ensures KeepsNodes(db, AddLabel(r, db, id, names).db, {}) && KeepsNodes(db, RemoveLabel(db, id, names).db, {})
  {
  }

  lemma AddCallKeepsNodes(r: Render, db: DB, names: seq<Str>, props: Props)
    requires db.Valid() && db.nextNode + 1 < TWO64
    ensures KeepsNodes(db, AddNode(r, db, props).db, {}) &&
            KeepsNodes(db, AddNodeWithLabels(r, db, names, props).db, {})
  {
  }

  lemma NodeBatchKeepsNodes(db: DB, list: seq<Props>)
    requires db.Valid() && db.nextNode + |list| < TWO64
    ensures KeepsNodes(db, AddNodeBatch(db, list).db, {})
  {
    var nodes, db' := Leader.Numbered(db.nextNode + 1, list), AddNodeBatch(db, list).db;
    forall v: NodeID | db.HasNode(v) ensures db'.HasNode(v) {
      OwnNodesKept(db.ShardOf(v), nodes, |db.shards|, db.Home(v));
    }
  }

  lemma IndexCallKeepsNodes(r: Render, db: DB, p: Str, names: seq<Str>)
    requires db.Valid()
    ensures KeepsNodes(db, CreateIndex(r, db, p).db, {}) && KeepsNodes(db, DropIndex(db, p).db, {})
    ensures KeepsNodes(db, CreateComposite(r, db, names).db, {}) && KeepsNodes(db, DropComposite(db, names).db, {})
  {
  }

  lemma ConstraintCallKeepsNodes(r: Render, db: DB, c: Constraint)
    requires db.Valid()
    ensures KeepsNodes(db, CreateUnique(r, db, c).db, {}) && KeepsNodes(db, DropUnique(db, c).db, {})
  {
  }

  lemma DeleteKeepsNodes(r: Render, db: DB, id: NodeID, es: seq<Edge>)
    requires db.Valid()
    ensures KeepsNodes(db, DeleteNode(r, db, id, es).db, {id})
  {
    EraseKeepsNodes(db, es);
    var mid, db' := EraseEdges(db, es).db, DeleteNode(r, db, id, es).db;
    forall v: NodeID | db.HasNode(v) && v != id ensures db'.HasNode(v) {
      assert mid.HasNode(v);
    }
  }

  lemma EdgeCallKeepsNodes(r: Render, db: DB, call: Call)
    requires db.Valid() && Room(db, call) && IsEdgeCall(call) && !call.AddEdgeBatchCall?
    ensures KeepsNodes(db, Execute(r, db, call).db, {})
  {
  }

  lemma CallKeepsNodes(r: Render, db: DB, call: Call)
    requires db.Valid() && Room(db, call) && !call.AddEdgeBatchCall?
    ensures KeepsNodes(db, Execute(r, db, call).db, if call.DeleteNodeCall? then {call.id} else {})
  {
    match call
    case AddNodeCall(props) => AddCallKeepsNodes(r, db, [], props);
    case AddNodeBatchCall(list) => NodeBatchKeepsNodes(db, list);
    case UpdateNodeCall(id, props) => NodeCallKeepsNodes(r, db, id, [], props);
    case SetNodePropsCall(id, props) => NodeCallKeepsNodes(r, db, id, [], props);
    case DeleteNodeCall(id, es) => DeleteKeepsNodes(r, db, id, es);
    case AddEdgeCall(_, _, _, _) => EdgeCallKeepsNodes(r, db, call);
    case DeleteEdgeCall(_) => EdgeCallKeepsNodes(r, db, call);
    case UpdateEdgeCall(_, _) => EdgeCallKeepsNodes(r, db, call);
    case AddNodeWithLabelsCall(names, props) => AddCallKeepsNodes(r, db, names, props);
    case AddLabelCall(id, names) => LabelCallKeepsNodes(r, db, id, names);
    case RemoveLabelCall(id, names) => LabelCallKeepsNodes(r, db, id, names);
    case CreateIndexCall(p) => IndexCallKeepsNodes(r, db, p, []);
    case DropIndexCall(p) => IndexCallKeepsNodes(r, db, p, []);
    case CreateCompositeCall(names) => IndexCallKeepsNodes(r, db, [], names);
    case DropCompositeCall(names) => IndexCallKeepsNodes(r, db, [], names);
    case CreateUniqueCall(c) => ConstraintCallKeepsNodes(r, db, c);
    case DropUniqueCall(c) => ConstraintCallKeepsNodes(r, db, c);
  }

  /** An edge after the call is one from before with the same ends, or new between existing nodes. */
  lemma EdgeOrigin(db: DB, G: Edges, call: Call, eid: EdgeID)
    requires Mirrors(db, G) && EndpointsExist(db, G) && Room(db, call) && !call.AddEdgeBatchCall? &&
             eid in Next(db, G, call)
    ensures var e := Next(db, G, call)[eid];
            && db.HasNode(e.from) && db.HasNode(e.to)
            && (call.DeleteNodeCall? ==> e.from != call.id && e.to != call.id)
  {
  }

  /** Every edge has both ends among the stored nodes, and neither in `gone`. */
  ghost predicate EndsStay(db: DB, G: Edges, gone: set<NodeID>)
    requires db.Valid()
  {
    forall eid :: eid in G ==>
      db.HasNode(G[eid].from) && db.HasNode(G[eid].to) && G[eid].from !in gone && G[eid].to !in gone
  }

  lemma EdgesOriginate(db: DB, G: Edges, call: Call)
    requires Mirrors(db, G) && EndpointsExist(db, G) && Room(db, call) && !call.AddEdgeBatchCall?
    ensures EndsStay(db, Next(db, G, call), if call.DeleteNodeCall? then {call.id} else {})
  {
    var G' := Next(db, G, call);
    forall eid | eid in G'
      ensures db.HasNode(G'[eid].from) && db.HasNode(G'[eid].to)
      ensures call.DeleteNodeCall? ==> G'[eid].from != call.id && G'[eid].to != call.id
    {
      EdgeOrigin(db, G, call, eid);
    }
  }

  lemma EndsCarry(db: DB, db': DB, G: Edges, gone: set<NodeID>)
    requires db.Valid() && KeepsNodes(db, db', gone) && EndsStay(db, G, gone)
    ensures db'.Valid() && EndpointsExist(db', G)
  {
  }

  /** All calls but AddEdgeBatch, which looks at no endpoint, keep both endpoints of every edge in place. */
  lemma CallKeepsEndpoints(r: Render, db: DB, G: Edges, call: Call)
    requires Mirrors(db, G) && EndpointsExist(db, G) && Room(db, call) && WellRead(G, call) && !call.AddEdgeBatchCall?
    ensures Execute(r, db, call).db.Valid() && EndpointsExist(Execute(r, db, call).db, Next(db, G, call))
  {
    CallKeepsNodes(r, db, call);
    EdgesOriginate(db, G, call);
    EndsCarry(db, Execute(r, db, call).db, Next(db, G, call), if call.DeleteNodeCall? then {call.id} else {});
  }

  // ---- the edge counter -----------------------------------------------------------------------------

  function SumEdges(shards: seq<Shard>): int {
    if shards == [] then 0 else SumEdges(shards[..|shards| - 1]) + shards[|shards| - 1].edgeCount
  }

  /** EdgeCount. */
  function EdgeCount(db: DB): int {
    SumEdges(db.shards)
  }

  lemma {:induction false} SumUpdate(shards: seq<Shard>, i: nat, sh: Shard)
    requires i < |shards|
    ensures SumEdges(shards[i := sh]) == SumEdges(shards) - shards[i].edgeCount + sh.edgeCount
  {
    var s' := shards[i := sh];
    if i < |shards| - 1 {
      assert s'[..|shards| - 1] == shards[..|shards| - 1][i := sh];
      SumUpdate(shards[..|shards| - 1], i, sh);
    } else {
      assert s'[..|shards| - 1] == shards[..|shards| - 1];
    }
  }

  lemma {:induction false} SumSame(a: seq<Shard>, b: seq<Shard>)
    requires |a| == |b| && forall i :: 0 <= i < |a| ==> a[i].edgeCount == b[i].edgeCount
    ensures SumEdges(a) == SumEdges(b)
  {
    if a != [] {
      SumSame(a[..|a| - 1], b[..|b| - 1]);
    }
  }

  lemma WriteCounts(db: DB, e: Edge)
    requires db.Valid()
    ensures EdgeCount(WriteEdge(db, e)) == EdgeCount(db) + 1
  {
    var db1 := db.Commit(e.from, PutEdge(db.ShardOf(e.from), e));
    SumUpdate(db.shards, db.Home(e.from), PutEdge(db.ShardOf(e.from), e));
    SumUpdate(db1.shards, db1.Home(e.to), PutIncoming(db1.ShardOf(e.to), e));
  }

  lemma EraseCounts(db: DB, e: Edge)
    requires db.Valid()
    ensures EdgeCount(EraseEdge(db, e)) == EdgeCount(db) - 1
  {
    var sh := DropEdge(db.ShardOf(e.from), e.id, e.from, e.lbl);
    var db1 := db.Commit(e.from, sh);
    SumUpdate(db.shards, db.Home(e.from), sh);
    SumUpdate(db1.shards, db1.Home(e.to), DropIncoming(db1.ShardOf(e.to), e.id, e.to));
  }

  lemma {:induction false} EraseAllCounts(db: DB, es: seq<Edge>)
    requires db.Valid()
    ensures EdgeCount(EraseEdges(db, es).db) == EdgeCount(db) - |es|
  {
    if es != [] {
      EraseAllCounts(db, es[..|es| - 1]);
      EraseCounts(EraseEdges(db, es[..|es| - 1]).db, es[|es| - 1]);
    }
  }

  lemma {:induction false} BatchCounts(db: DB, G: Edges, first: nat, es: seq<Edge>)
    requires db.Valid() && (forall eid :: eid in G ==> eid < first) && Consecutive(es, first, db.nextEdge)
    ensures EdgeCount(ApplyAddEdges(db, es)) == EdgeCount(db) + |es| && |Fresh(G, es)| == |G| + |es|
    ensures forall eid :: eid in Fresh(G, es) ==> eid < first + |es|
  {
    if es != [] {
      assert forall i :: 0 <= i < |es| - 1 ==> es[..|es| - 1][i] == es[i];
      BatchCounts(db, G, first, es[..|es| - 1]);
      WriteCounts(ApplyAddEdges(db, es[..|es| - 1]), es[|es| - 1]);
    }
  }

  /** What the counter is off by. */
  ghost function Drift(db: DB, G: Edges): int {
    EdgeCount(db) - |G|
  }

  ghost function Loops(G: Edges, id: NodeID): set<EdgeID> {
    Outs(G, id) * Ins(G, id)
  }

  lemma MapMinus(G: Edges, gone: set<EdgeID>)
    requires gone <= G.Keys
    ensures |G - gone| == |G| - |gone|
  {
    assert (G - gone).Keys == G.Keys - gone;
    assert |G.Keys - gone| == |G.Keys| - |gone|;
    assert |(G - gone).Keys| == |G - gone| && |G.Keys| == |G|;
  }

  /** A deleted node's self-loops are counted down twice. */
  lemma DeleteNodeDrift(r: Render, db: DB, G: Edges, id: NodeID, es: seq<Edge>)
    requires Mirrors(db, G) && Listing(G, id, es)
    ensures Drift(DeleteNode(r, db, id, es).db, G - (Outs(G, id) + Ins(G, id))) == Drift(db, G) - |Loops(G, id)|
  {
    var outs, ins := Outs(G, id), Ins(G, id);
    EraseAllCounts(db, es);
    var db1 := EraseEdges(db, es).db;
    if db1.HasNode(id) {
      EraseNodeKeepsEdges(r, db1, db.reg, id);
      var db2 := DeleteNode(r, db, id, es).db;
      forall i | 0 <= i < |db2.shards| ensures db2.shards[i].edgeCount == db1.shards[i].edgeCount {
        assert EdgeSide(db2.shards[i]) == EdgeSide(db1.shards[i]);
      }
      SumSame(db2.shards, db1.shards);
    }
    MapMinus(G, outs + ins);
    assert |outs + ins| + |outs * ins| == |outs| + |ins|;
    assert |es| == |multiset(Ids(es))| == |outs| + |ins|;
  }

  /** The edge counter drifts from the number of edges by exactly the self-loops DeleteNode removes. */
  lemma CallDrift(r: Render, db: DB, G: Edges, call: Call)
    requires Mirrors(db, G) && Room(db, call) && WellRead(G, call)
    ensures Drift(Execute(r, db, call).db, Next(db, G, call))
            == Drift(db, G) - if call.DeleteNodeCall? then |Loops(G, call.id)| else 0
  {
    if call.DeleteNodeCall? {
      DeleteNodeDrift(r, db, G, call.id, call.listed);
    } else if IsEdgeCall(call) {
      EdgeCallDrift(r, db, G, call);
    } else {
      OtherCallsKeepEdges(r, db, call);
      var db' := Execute(r, db, call).db;
      forall i | 0 <= i < |db.shards| ensures db'.shards[i].edgeCount == db.shards[i].edgeCount {
        assert EdgeSide(db'.shards[i]) == EdgeSide(db.shards[i]);
      }
      SumSame(db'.shards, db.shards);
    }
  }

  lemma NumberedConsecutive(first: nat, list: seq<Edge>, last: nat)
    requires 1 <= first && first + |list| <= TWO64 && first + |list| - 1 <= last
    ensures Consecutive(NumberedEdges(first, list), first, last)
  {
  }

  lemma BatchDrift(db: DB, G: Edges, first: nat, es: seq<Edge>)
    requires db.Valid() && (forall eid :: eid in G ==> eid < first) && Consecutive(es, first, db.nextEdge)
    ensures Drift(PutEdgeBatch(db, es), Fresh(G, es)) == Drift(db, G)
  {
    BatchCounts(db, G, first, es);
    BatchIsOneByOne(db, es);
  }

  lemma AddBatchDrift(db: DB, G: Edges, list: seq<Edge>)
    requires Mirrors(db, G) && db.nextEdge + |list| < TWO64
    ensures Drift(AddEdgeBatch(db, list).db, Fresh(G, NumberedEdges(db.nextEdge + 1, list))) == Drift(db, G)
  {
    NumberedConsecutive(db.nextEdge + 1, list, db.nextEdge + |list|);
    BatchDrift(db.(nextEdge := db.nextEdge + |list|), G, db.nextEdge + 1, NumberedEdges(db.nextEdge + 1, list));
  }

  lemma NewEdgeDrift(db: DB, G: Edges, e: Edge)
    requires Mirrors(db, G) && e.id == db.nextEdge + 1
    ensures Drift(WriteEdge(db.(nextEdge := e.id), e), G[e.id := e]) == Drift(db, G)
  {
    WriteCounts(db.(nextEdge := e.id), e);
    assert e.id !in G;
  }

  lemma AddEdgeIs(db: DB, G: Edges, e: Edge)
    requires db.Valid() && e.id == db.nextEdge + 1
    ensures var o, next :=
              AddEdge(db, e.from, e.to, e.lbl, e.props), Next(db, G, AddEdgeCall(e.from, e.to, e.lbl, e.props));
            if db.HasNode(e.from) && db.HasNode(e.to) then o.db == WriteEdge(db.(nextEdge := e.id), e) &&
                next == G[e.id := e]
            else o.db == db && next == G
  {
  }

  lemma AddEdgeDrift(db: DB, G: Edges, source: NodeID, target: NodeID, name: Str, props: Props)
    requires Mirrors(db, G) && db.nextEdge + 1 < TWO64
    ensures var call := AddEdgeCall(source, target, name, props);
            Drift(AddEdge(db, source, target, name, props).db, Next(db, G, call)) == Drift(db, G)
  {
    var e := Edge(db.nextEdge + 1, source, target, name, props);
    AddEdgeIs(db, G, e);
    if db.HasNode(source) && db.HasNode(target) {
      NewEdgeDrift(db, G, e);
    }
  }

  lemma DeleteEdgeDrift(db: DB, G: Edges, eid: EdgeID)
    requires Mirrors(db, G)
    ensures Drift(DeleteEdge(db, eid).db, G - {eid}) == Drift(db, G)
  {
    GetEdgeExact(db, G, eid, 0);
    if eid in G {
      EraseCounts(db, G[eid]);
      MapMinus(G, {eid});
    } else {
      assert G - {eid} == G;
    }
  }

  lemma UpdateEdgeDrift(db: DB, G: Edges, eid: EdgeID, props: Props)
    requires Mirrors(db, G)
    ensures Drift(UpdateEdge(db, eid, props).db, Next(db, G, UpdateEdgeCall(eid, props))) == Drift(db, G)
  {
    GetEdgeExact(db, G, eid, 0);
    if eid in G {
      SumUpdate(db.shards, db.Home(G[eid].from), UpdateEdge(db, eid, props).db.ShardOf(G[eid].from));
    }
  }

  lemma AddingDrift(r: Render, db: DB, G: Edges, call: Call)
    requires Mirrors(db, G) && Room(db, call) && (call.AddEdgeCall? || call.AddEdgeBatchCall?)
    ensures Drift(Execute(r, db, call).db, Next(db, G, call)) == Drift(db, G)
  {
    if call.AddEdgeCall? {
      AddEdgeDrift(db, G, call.source, call.target, call.name, call.props);
    } else {
      AddBatchDrift(db, G, call.edges);
    }
  }

  lemma EdgeCallDrift(r: Render, db: DB, G: Edges, call: Call)
    requires Mirrors(db, G) && Room(db, call) && IsEdgeCall(call)
    ensures Drift(Execute(r, db, call).db, Next(db, G, call)) == Drift(db, G)
  {
    match call
    case AddEdgeCall(_, _, _, _) => AddingDrift(r, db, G, call);
    case AddEdgeBatchCall(_) => AddingDrift(r, db, G, call);
    case DeleteEdgeCall(eid) => DeleteEdgeDrift(db, G, eid);
    case UpdateEdgeCall(eid, props) => UpdateEdgeDrift(db, G, eid, props);
  }

  // ---- runs ---------------------------------------------------------------------------------------

  /** Each call has IDs left and, if it deletes a node, has read that node's edges. */
  ghost predicate Proper(r: Render, db: DB, G: Edges, calls: seq<Call>)
    requires Mirrors(db, G)
    decreases |calls|
  {
    calls == [] ||
    (&& Room(db, calls[0]) && WellRead(G, calls[0])
     && (CallMirrors(r, db, G, calls[0]); Proper(r, Execute(r, db, calls[0]).db, Next(db, G, calls[0]), calls[1..])))
  }

  ghost function EdgesAfter(r: Render, db: DB, G: Edges, calls: seq<Call>): Edges
    requires Mirrors(db, G) && Proper(r, db, G, calls)
    decreases |calls|
  {
    if calls == [] then G
    else
      CallMirrors(r, db, G, calls[0]);
      EdgesAfter(r, Execute(r, db, calls[0]).db, Next(db, G, calls[0]), calls[1..])
  }

  ghost function After(r: Render, db: DB, G: Edges, calls: seq<Call>): DB
    requires Mirrors(db, G) && Proper(r, db, G, calls)
    decreases |calls|
  {
    if calls == [] then db
    else
      CallMirrors(r, db, G, calls[0]);
      After(r, Execute(r, db, calls[0]).db, Next(db, G, calls[0]), calls[1..])
  }

  /** The self-loops that the run's node deletions remove. */
  ghost function LoopsDeleted(r: Render, db: DB, G: Edges, calls: seq<Call>): nat
    requires Mirrors(db, G) && Proper(r, db, G, calls)
    decreases |calls|
  {
    if calls == [] then 0
    else
      CallMirrors(r, db, G, calls[0]);
      (if calls[0].DeleteNodeCall? then |Loops(G, calls[0].id)| else 0)
      + LoopsDeleted(r, Execute(r, db, calls[0]).db, Next(db, G, calls[0]), calls[1..])
  }

  /**
   After any run with any number of shards the edge buckets mirror the abstract edges;
   without AddEdgeBatch both endpoints of every edge exist; and the edge counter is
   exact if and only if no deleted node had a self-loop.
   */
  lemma {:induction false} RunMirrors(r: Render, db: DB, G: Edges, calls: seq<Call>)
    requires Mirrors(db, G) && Proper(r, db, G, calls)
    ensures Mirrors(After(r, db, G, calls), EdgesAfter(r, db, G, calls))
    ensures EndpointsExist(db, G) && (forall c :: c in calls ==> !c.AddEdgeBatchCall?) ==>
              EndpointsExist(After(r, db, G, calls), EdgesAfter(r, db, G, calls))
    ensures Drift(After(r, db, G, calls), EdgesAfter(r, db, G, calls)) == Drift(db, G) - LoopsDeleted(r, db, G, calls)
    decreases |calls|
  {
    if calls != [] {
      CallMirrors(r, db, G, calls[0]);
      CallDrift(r, db, G, calls[0]);
      if EndpointsExist(db, G) && !calls[0].AddEdgeBatchCall? {
        CallKeepsEndpoints(r, db, G, calls[0]);
      }
      RunMirrors(r, Execute(r, db, calls[0]).db, Next(db, G, calls[0]), calls[1..]);
    }
  }
}
