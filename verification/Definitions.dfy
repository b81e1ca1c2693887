/**
 Creating and dropping indexes and constraints on one shard: a pass over the records
 that puts keys, or a cursor pass that collects the keys of a prefix and deletes them.
 */
module Definitions {
  import opened Types
  import opened Keys
  import opened Cursor
  import opened Store
  import L = Leader
  import opened Transaction

  lemma {:induction false} WalkLists(keys: set<Str>)
    ensures forall k :: k in Walk(keys) <==> k in keys
  {
    if keys != {} {
      WalkLists(keys - {First(keys)});
    }
  }

  /** Collect the keys that start with the prefix, then delete them one by one. */
  method DeletePrefix(keys: set<Str>, prefix: Str) returns (rest: set<Str>)
    ensures rest == set k | k in keys && !(prefix <= k)
  {
    var doomed := Walk(Met(keys, prefix));
    WalkLists(Met(keys, prefix));
    rest := keys;
    for j := 0 to |doomed|
      invariant forall k :: k in rest <==> k in keys && k !in doomed[..j]
    {
      assert doomed[..j + 1] == doomed[..j] + [doomed[j]];
      rest := rest - {doomed[j]};
    }
    assert doomed[..|doomed|] == doomed;
  }

  method DeletePrefixOf(m: map<Str, NodeID>, prefix: Str) returns (rest: map<Str, NodeID>)
    ensures rest == map k | k in m && !(prefix <= k) :: m[k]
  {
    var doomed := Walk(Met(m.Keys, prefix));
    WalkLists(Met(m.Keys, prefix));
    rest := m;
    for j := 0 to |doomed|
      invariant forall k :: k in rest <==> k in m && k !in doomed[..j]
      invariant forall k :: k in rest ==> rest[k] == m[k]
    {
      assert doomed[..j + 1] == doomed[..j] + [doomed[j]];
      rest := rest - {doomed[j]};
    }
    assert doomed[..|doomed|] == doomed;
  }

  /** The entries of some of the records. */
  ghost function PropOver(r: Render, p: Str, nodes: map<NodeID, Props>, ids: set<NodeID>): set<Str> {
    set id | id in ids && id in nodes && p in nodes[id] :: PropKey(r, p, nodes[id][p], id)
  }

  ghost function CompOver(r: Render, def: seq<Str>, nodes: map<NodeID, Props>, ids: set<NodeID>): set<Str> {
    set id | id in ids && id in nodes && HasAll(def, nodes[id]) :: CompKey(r, def, nodes[id], id)
  }

  lemma PropOverStep(r: Render, s: set<Str>, p: Str, nodes: map<NodeID, Props>, todo: set<NodeID>, id: NodeID)
    requires id in todo && todo <= nodes.Keys
    ensures s + PropOver(r, p, nodes, nodes.Keys - (todo - {id}))
            == s + PropOver(r, p, nodes, nodes.Keys - todo) + (if p in nodes[id] then {PropKey(r, p, nodes[id][p], id)}
              else {})
  {
    var ids := nodes.Keys - todo;
    var one := if p in nodes[id] then {PropKey(r, p, nodes[id][p], id)} else {};
    assert nodes.Keys - (todo - {id}) == ids + {id};
    assert PropOver(r, p, nodes, ids + {id}) == PropOver(r, p, nodes, ids) + one;
    PutMore(s, PropOver(r, p, nodes, ids), one);
  }

  lemma CompOverStep(r: Render, s: set<Str>, def: seq<Str>, nodes: map<NodeID, Props>, todo: set<NodeID>, id: NodeID)
    requires id in todo && todo <= nodes.Keys
    ensures s + CompOver(r, def, nodes, nodes.Keys - (todo - {id}))
            == s + CompOver(r, def, nodes, nodes.Keys - todo) + (if HasAll(def, nodes[id]) then
              {CompKey(r, def, nodes[id], id)} else {})
  {
    var ids := nodes.Keys - todo;
    var one := if HasAll(def, nodes[id]) then {CompKey(r, def, nodes[id], id)} else {};
    assert nodes.Keys - (todo - {id}) == ids + {id};
    assert CompOver(r, def, nodes, ids + {id}) == CompOver(r, def, nodes, ids) + one;
    PutMore(s, CompOver(r, def, nodes, ids), one);
  }

  lemma OverAll(r: Render, p: Str, def: seq<Str>, sh: Shard)
    ensures sh.(propIdx := sh.propIdx + PropOver(r, p, sh.nodes, sh.nodes.Keys - {})) == BuildProp(r, p, sh)
    ensures sh.(compIdx := sh.compIdx + CompOver(r, def, sh.nodes, sh.nodes.Keys - {})) == BuildComp(r, def, sh)
  {
    assert PropOver(r, p, sh.nodes, sh.nodes.Keys - {}) == set id | id in sh.nodes &&
           p in sh.nodes[id] :: PropKey(r, p, sh.nodes[id][p], id);
    assert CompOver(r, def, sh.nodes, sh.nodes.Keys - {}) == set id | id in sh.nodes &&
           HasAll(def, sh.nodes[id]) :: CompKey(r, def, sh.nodes[id], id);
  }

  lemma OverNone(r: Render, p: Str, def: seq<Str>, nodes: map<NodeID, Props>)
    ensures PropOver(r, p, nodes, nodes.Keys - nodes.Keys) == {} &&
            CompOver(r, def, nodes, nodes.Keys - nodes.Keys) == {}
  {
  }

  /** CreateIndex on one shard: a pass over the records. */
  method IndexRecords(r: Render, p: Str, sh: Shard) returns (sh': Shard)
    ensures sh' == BuildProp(r, p, sh)
  {
    var todo := sh.nodes.Keys;
    var idx := sh.propIdx;
    OverNone(r, p, [], sh.nodes);
    while todo != {}
      invariant todo <= sh.nodes.Keys && idx == sh.propIdx + PropOver(r, p, sh.nodes, sh.nodes.Keys - todo)
      decreases |todo|
    {
      var id :| id in todo;
      PropOverStep(r, sh.propIdx, p, sh.nodes, todo, id);
      var one := if p in sh.nodes[id] then {IndexKey(PropText(p, r(sh.nodes[id][p])), id)} else {};
      idx, todo := idx + one, todo - {id};
    }
    OverAll(r, p, [], sh);
    sh' := sh.(propIdx := idx);
  }

  method IndexRecordsComposite(r: Render, def: seq<Str>, sh: Shard) returns (sh': Shard)
    ensures sh' == BuildComp(r, def, sh)
  {
    var todo := sh.nodes.Keys;
    var idx := sh.compIdx;
    OverNone(r, [], def, sh.nodes);
    while todo != {}
      invariant todo <= sh.nodes.Keys && idx == sh.compIdx + CompOver(r, def, sh.nodes, sh.nodes.Keys - todo)
      decreases |todo|
    {
      var id :| id in todo;
      CompOverStep(r, sh.compIdx, def, sh.nodes, todo, id);
      var key := BuildCompositeKey(r, def, sh.nodes[id], id);
      var one := if key.Some? then {key.value} else {};
      idx, todo := idx + one, todo - {id};
    }
    OverAll(r, [], def, sh);
    sh' := sh.(compIdx := idx);
  }

  // ---- all shards ------------------------------------------------------------------------------------------

  /** The first `i` shards have been processed. */
  ghost predicate UpTo(shards: seq<Shard>, was: seq<Shard>, f: Shard -> Shard, i: nat) {
    |shards| == |was| && forall j {:trigger shards[j]} :: 0 <= j < |was| ==>
        shards[j] == if j < i then f(was[j]) else was[j]
  }

  lemma UpToAll(db: DB, shards: seq<Shard>, f: Shard -> Shard)
    requires UpTo(shards, db.shards, f, |db.shards|)
    ensures shards == AllShards(db, f).shards
  {
  }

  method CreateIndexAll(r: Render, p: Str, was: seq<Shard>) returns (shards: seq<Shard>)
    ensures UpTo(shards, was, sh => BuildProp(r, p, sh), |was|)
  {
    shards := was;
    for i := 0 to |was|
      invariant UpTo(shards, was, sh => BuildProp(r, p, sh), i)
    {
      var sh := IndexRecords(r, p, shards[i]);
      shards := shards[i := sh];
    }
  }

  method DropIndexAll(p: Str, was: seq<Shard>) returns (shards: seq<Shard>)
    ensures UpTo(shards, was, sh => ClearProp(p, sh), |was|)
  {
    shards := was;
    for i := 0 to |was|
      invariant UpTo(shards, was, sh => ClearProp(p, sh), i)
    {
      var rest := DeletePrefix(shards[i].propIdx, p + [COLON]);
      shards := shards[i := shards[i].(propIdx := rest)];
    }
  }

  method CreateCompositeAll(r: Render, def: seq<Str>, was: seq<Shard>) returns (shards: seq<Shard>)
    ensures UpTo(shards, was, sh => BuildComp(r, def, sh), |was|)
  {
    shards := was;
    for i := 0 to |was|
      invariant UpTo(shards, was, sh => BuildComp(r, def, sh), i)
    {
      var sh := IndexRecordsComposite(r, def, shards[i]);
      shards := shards[i := sh];
    }
  }

  method DropCompositeAll(def: seq<Str>, was: seq<Shard>) returns (shards: seq<Shard>)
    ensures UpTo(shards, was, sh => ClearComp(def, sh), |was|)
  {
    var prefix := WriteNames(def);
    shards := was;
    for i := 0 to |was|
      invariant UpTo(shards, was, sh => ClearComp(def, sh), i)
    {
      var rest := DeletePrefix(shards[i].compIdx, prefix);
      shards := shards[i := shards[i].(compIdx := rest)];
    }
  }

  method DropUniqueAll(c: Constraint, was: seq<Shard>) returns (shards: seq<Shard>)
    ensures UpTo(shards, was, sh => ClearUnique(c, sh), |was|)
  {
    shards := was;
    for i := 0 to |was|
      invariant UpTo(shards, was, sh => ClearUnique(c, sh), i)
    {
      var rest := DeletePrefixOf(shards[i].uniqIdx, UniqueKey(c.name, c.prop, []));
      shards := shards[i := shards[i].(uniqIdx := rest)];
    }
  }
}
