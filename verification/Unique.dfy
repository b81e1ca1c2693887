/**
 Unique constraints over runs of the leader's write methods. The unique index may keep
 stale entries, but it covers every live value with its owner; so within a shard no two
 nodes with a constrained label render the constrained property alike, and a database
 is globally unique over all runs exactly when it has one shard.
 */
module Unique {
  import opened Types
  import opened Values
  import opened Keys
  import opened Store
  import opened Leader
  import Applier
  import opened Replay
  import opened Commute
  import opened NodeState

  // ---- keys ---------------------------------------------------------------------------------

  /** What every key of the constraint starts with. */
  function Prefix(c: Constraint): Str {
    UniqueKey(c.name, c.prop, [])
  }

  /** Neither constraint's prefix starts the other's. */
  predicate Apart(c: Constraint, d: Constraint) {
    !(Prefix(c) <= Prefix(d)) && !(Prefix(d) <= Prefix(c))
  }

  lemma KeyIs(c: Constraint, text: Str)
    ensures UniqueKey(c.name, c.prop, text) == Prefix(c) + text && |Prefix(c)| == |c.name| + |c.prop| + 2
  {
  }

  lemma PrefixesOfOne(a: Str, b: Str, whole: Str)
    requires a <= whole && b <= whole
    ensures a <= b || b <= a
  {
    if |a| <= |b| {
      assert a == b[..|a|];
    } else {
      assert b == a[..|b|];
    }
  }

  /** A key of one constraint never starts with the prefix of a constraint apart from it. */
  lemma KeySplits(c: Constraint, d: Constraint, text: Str)
    requires Apart(c, d)
    ensures !(Prefix(c) <= UniqueKey(d.name, d.prop, text))
  {
    KeyIs(d, text);
    if Prefix(c) <= Prefix(d) + text {
      PrefixesOfOne(Prefix(c), Prefix(d), Prefix(d) + text);
    }
  }

  lemma KeysDiffer(c: Constraint, s: Str, d: Constraint, t: Str)
    requires Apart(c, d)
    ensures UniqueKey(c.name, c.prop, s) != UniqueKey(d.name, d.prop, t)
  {
    KeyIs(c, s);
    KeySplits(c, d, t);
    assert Prefix(c) <= UniqueKey(c.name, c.prop, s);
  }

  /** Different constraints named without NUL bytes are apart. */
  lemma NulFreeApart(c: Constraint, d: Constraint)
    requires NulFree(c.name) && NulFree(c.prop) && NulFree(d.name) && NulFree(d.prop) && c != d
    ensures Apart(c, d)
  {
    NulFreeSplits(c, d);
    NulFreeSplits(d, c);
  }

  lemma NulFreeSplits(c: Constraint, d: Constraint)
    requires NulFree(c.name) && NulFree(c.prop) && NulFree(d.name) && NulFree(d.prop) && c != d
    ensures !(Prefix(c) <= Prefix(d))
  {
    var rest := d.prop + [NUL];
    assert Prefix(d) == d.name + [NUL] + rest && Prefix(c) == c.name + [NUL] + (c.prop + [NUL]);
    SeparatorSplits(NUL, c.name, d.name, rest);
    if Prefix(c) <= Prefix(d) {
      assert c.name + [NUL] <= Prefix(c);
      assert c.name + [NUL] <= d.name + [NUL] + rest;
      PrefixAfter(c.name + [NUL], c.prop + [NUL], rest);
      assert d.prop + [NUL] + [] == rest;
      SeparatorSplits(NUL, c.prop, d.prop, []);
    }
  }

  // ---- the invariant ---------------------------------------------------------------------------

  /** The index holds each of the node's keys, with the node as owner. */
  ghost predicate OwnsAll(r: Render, reg: Registry, sh: Shard, id: NodeID)
    requires id in sh.nodes
  {
    forall k :: k in UniqueKeys(r, reg, Labels(sh, id), sh.nodes[id]) ==> k in sh.uniqIdx && sh.uniqIdx[k] == id
  }

  ghost predicate Covered(r: Render, reg: Registry, sh: Shard) {
    forall id {:trigger OwnsAll(r, reg, sh, id)} :: id in sh.nodes ==> OwnsAll(r, reg, sh, id)
  }

  ghost predicate CoveredAt(r: Render, db: DB, i: nat)
    requires i < |db.shards|
  {
    Covered(r, db.reg, db.shards[i])
  }

  ghost predicate AllCovered(r: Render, db: DB) {
    forall i {:trigger CoveredAt(r, db, i)} :: 0 <= i < |db.shards| ==> CoveredAt(r, db, i)
  }

  ghost predicate RegistryOk(reg: Registry) {
    && (forall k :: k in reg.unique ==> k == RegistryKey(reg.unique[k]))
    && (forall k, l :: k in reg.unique && l in reg.unique && k != l ==> Apart(reg.unique[k], reg.unique[l]))
  }

  ghost predicate UniqueInv(r: Render, db: DB) {
    RecordsOk(db) && RegistryOk(db.reg) && AllCovered(r, db)
  }

  // ---- node writes ------------------------------------------------------------------------------

  lemma OthersKeep(r: Render, reg: Registry, sh: Shard, id: NodeID, names: seq<Str>, dropped: Props, checked: seq<Str>,
      props: Props, exclude: NodeID, j: NodeID)
    requires j in sh.nodes && j != id && j != exclude && OwnsAll(r, reg, sh, j)
    requires !Violates(r, reg, UnindexUnique(r, reg, sh, id, names, dropped), checked, props, exclude)
    ensures var idx := IndexUnique(r, reg, UnindexUnique(r, reg, sh, id, names, dropped), id, checked, props).uniqIdx;
            forall k :: k in UniqueKeys(r, reg, Labels(sh, j), sh.nodes[j]) ==> k in idx && idx[k] == j
  {
    var sh1 := UnindexUnique(r, reg, sh, id, names, dropped);
    var idx := IndexUnique(r, reg, sh1, id, checked, props).uniqIdx;
    forall k | k in UniqueKeys(r, reg, Labels(sh, j), sh.nodes[j])
      ensures k in idx && idx[k] == j
    {
      assert k in sh1.uniqIdx && sh1.uniqIdx[k] == j;
      assert k !in UniqueKeys(r, reg, checked, props);
    }
  }

  /** Unindex, check, write, index: the rewritten node owns its new keys and the others keep theirs. */
  lemma RewriteCovers(r: Render, reg: Registry, sh: Shard, sh': Shard, id: NodeID, dropped: Props, props: Props)
    requires Covered(r, reg, sh) && id in sh.nodes
    requires !Violates(r, reg, UnindexUnique(r, reg, sh, id, Labels(sh, id), dropped), Labels(sh, id), props, id)
    requires sh'.nodes == sh.nodes[id := props] && sh'.labels == sh.labels
    requires sh'.uniqIdx ==
               IndexUnique(r, reg, UnindexUnique(r, reg, sh, id, Labels(sh, id), dropped), id, Labels(sh, id),
                           props).uniqIdx
    ensures Covered(r, reg, sh')
  {
    forall j | j in sh'.nodes
      ensures OwnsAll(r, reg, sh', j)
    {
      if j != id {
        assert OwnsAll(r, reg, sh, j);
        OthersKeep(r, reg, sh, id, Labels(sh, id), dropped, Labels(sh, id), props, id, j);
      }
    }
  }

  lemma UpdateCovers(r: Render, db: DB, id: NodeID, props: Props)
    requires UniqueInv(r, db) && UpdateNode(r, db, id, props).ok
    ensures Covered(r, db.reg, UpdateNode(r, db, id, props).db.ShardOf(id))
  {
    var sh := db.ShardOf(id);
    var merged := sh.nodes[id] + props;
    assert CoveredAt(r, db, db.Home(id));
    var sh1 := Unindex(r, db.reg, sh, id, sh.nodes[id]);
    SameUniqueSide(r, db.reg, sh, sh1, id, Labels(sh, id), merged, Labels(sh, id), merged, id);
    RewriteCovers(r, db.reg, sh, UpdateNode(r, db, id, props).db.ShardOf(id), id, merged, merged);
  }

  lemma SetCovers(r: Render, db: DB, id: NodeID, props: Props)
    requires UniqueInv(r, db) && SetNodeProps(r, db, id, props).ok
    ensures Covered(r, db.reg, SetNodeProps(r, db, id, props).db.ShardOf(id))
  {
    var sh := db.ShardOf(id);
    assert CoveredAt(r, db, db.Home(id));
    var sh1 := Unindex(r, db.reg, sh, id, sh.nodes[id]);
    SameUniqueSide(r, db.reg, sh, sh1, id, Labels(sh, id), sh.nodes[id], Labels(sh, id), props, id);
    RewriteCovers(r, db.reg, sh, SetNodeProps(r, db, id, props).db.ShardOf(id), id, sh.nodes[id], props);
  }

  /** The unique operations look at the unique bucket alone. */
  lemma SameUniqueSide(r: Render, reg: Registry, a: Shard, b: Shard, id: NodeID, names: seq<Str>, dropped: Props,
      checked: seq<Str>, props: Props, exclude: NodeID)
    requires a.uniqIdx == b.uniqIdx
    ensures UnindexUnique(r, reg, a, id, names, dropped).uniqIdx == UnindexUnique(r, reg, b, id, names, dropped).uniqIdx
    ensures Violates(r, reg, UnindexUnique(r, reg, a, id, names, dropped), checked, props, exclude)
            <==> Violates(r, reg, UnindexUnique(r, reg, b, id, names, dropped), checked, props, exclude)
    ensures IndexUnique(r, reg, UnindexUnique(r, reg, a, id, names, dropped), id, checked, props).uniqIdx
            == IndexUnique(r, reg, UnindexUnique(r, reg, b, id, names, dropped), id, checked, props).uniqIdx
  {
  }

  lemma NoKeysNoChange(r: Render, reg: Registry, sh: Shard, id: NodeID)
    ensures UnindexUnique(r, reg, sh, id, [], map[]) == sh
  {
    assert UniqueKeys(r, reg, [], map[]) == {};
    assert UnindexUnique(r, reg, sh, id, [], map[]).uniqIdx == sh.uniqIdx;
  }

  /** A check and an index of some labels of one node; the other nodes are as before. */
  lemma IndexCovers(r: Render, reg: Registry, sh: Shard, sh': Shard, id: NodeID, checked: seq<Str>, props: Props,
      exclude: NodeID)
    requires Covered(r, reg, sh) && !Violates(r, reg, sh, checked, props, exclude) &&
             (exclude == id || exclude !in sh.nodes)
    requires forall j :: j in sh'.nodes && j != id ==>
               j in sh.nodes && sh'.nodes[j] == sh.nodes[j] && Labels(sh', j) == Labels(sh, j)
    requires id in sh'.nodes && sh'.nodes[id] == props
    requires forall l :: l in Labels(sh', id) ==>
               l in checked || (id in sh.nodes && sh.nodes[id] == props && l in Labels(sh, id))
    requires sh'.uniqIdx == IndexUnique(r, reg, sh, id, checked, props).uniqIdx
    ensures Covered(r, reg, sh')
  {
    NoKeysNoChange(r, reg, sh, id);
    forall j | j in sh'.nodes
      ensures OwnsAll(r, reg, sh', j)
    {
      if j != id {
        assert OwnsAll(r, reg, sh, j);
        OthersKeep(r, reg, sh, id, [], map[], checked, props, exclude, j);
      } else {
        OwnKeys(r, reg, sh, sh', id, checked);
      }
    }
  }

  lemma OwnKeys(r: Render, reg: Registry, sh: Shard, sh': Shard, id: NodeID, checked: seq<Str>)
    requires Covered(r, reg, sh) && id in sh'.nodes
    requires forall l :: l in Labels(sh', id) ==>
               l in checked || (id in sh.nodes && sh.nodes[id] == sh'.nodes[id] && l in Labels(sh, id))
    requires sh'.uniqIdx == IndexUnique(r, reg, sh, id, checked, sh'.nodes[id]).uniqIdx
    ensures OwnsAll(r, reg, sh', id)
  {
    var props := sh'.nodes[id];
    forall k | k in UniqueKeys(r, reg, Labels(sh', id), props)
      ensures k in sh'.uniqIdx && sh'.uniqIdx[k] == id
    {
      var c :| c in Bearing(reg, Labels(sh', id), props) && k == KeyOf(r, c, props);
      if c.name in checked {
        assert c in Bearing(reg, checked, props);
        assert k in UniqueKeys(r, reg, checked, props);
      } else {
        assert OwnsAll(r, reg, sh, id);
        assert c in Bearing(reg, Labels(sh, id), props);
        assert k in UniqueKeys(r, reg, Labels(sh, id), props);
      }
    }
  }

  lemma AddLabeledCovers(r: Render, db: DB, names: seq<Str>, props: Props)
    requires UniqueInv(r, db) && db.nextNode + 1 < TWO64 && AddNodeWithLabels(r, db, names, props).ok
    ensures Covered(r, db.reg, AddNodeWithLabels(r, db, names, props).db.ShardOf(db.nextNode + 1))
  {
    var id := db.nextNode + 1;
    var sh, sh' := db.ShardOf(id), AddNodeWithLabels(r, db, names, props).db.ShardOf(id);
    assert CoveredAt(r, db, db.Home(id)) && RecordsAt(db, db.Home(id));
    IndexCovers(r, db.reg, sh, sh', id, names, props, 0);
  }

  lemma AddLabelCovers(r: Render, db: DB, id: NodeID, names: seq<Str>)
    requires UniqueInv(r, db) && AddLabel(r, db, id, names).ok && db.HasNode(id)
    ensures Covered(r, db.reg, AddLabel(r, db, id, names).db.ShardOf(id))
  {
    var sh, sh' := db.ShardOf(id), AddLabel(r, db, id, names).db.ShardOf(id);
    var added := NewLabels(Labels(sh, id), names);
    assert CoveredAt(r, db, db.Home(id));
    if names != [] && added != [] {
      IndexCovers(r, db.reg, sh, sh', id, added, sh.nodes[id], id);
    }
  }

  /** Fewer nodes, labels or properties, and the others' entries intact. */
  lemma LessCovers(r: Render, reg: Registry, sh: Shard, sh': Shard, id: NodeID)
    requires Covered(r, reg, sh)
    requires forall j :: j in sh'.nodes ==>
               j in sh.nodes && sh'.nodes[j] == sh.nodes[j] && forall l :: l in Labels(sh', j) ==> l in Labels(sh, j)
    requires forall k :: k in sh.uniqIdx && (sh.uniqIdx[k] != id || id in sh'.nodes) ==>
               k in sh'.uniqIdx && sh'.uniqIdx[k] == sh.uniqIdx[k]
    ensures Covered(r, reg, sh')
  {
    forall j | j in sh'.nodes
      ensures OwnsAll(r, reg, sh', j)
    {
      assert OwnsAll(r, reg, sh, j);
      forall k | k in UniqueKeys(r, reg, Labels(sh', j), sh'.nodes[j])
        ensures k in sh'.uniqIdx && sh'.uniqIdx[k] == j
      {
        var c :| c in Bearing(reg, Labels(sh', j), sh'.nodes[j]) && k == KeyOf(r, c, sh'.nodes[j]);
        assert c in Bearing(reg, Labels(sh, j), sh.nodes[j]);
        assert k in UniqueKeys(r, reg, Labels(sh, j), sh.nodes[j]);
      }
    }
  }

  /** RemoveLabel leaves entries behind, which only makes the cover larger. */
  lemma RemoveLabelCovers(r: Render, db: DB, id: NodeID, names: seq<Str>)
    requires UniqueInv(r, db) && db.HasNode(id)
    ensures Covered(r, db.reg, RemoveLabel(db, id, names).db.ShardOf(id))
  {
    var sh, sh' := db.ShardOf(id), RemoveLabel(db, id, names).db.ShardOf(id);
    assert CoveredAt(r, db, db.Home(id));
    KeptLabelsAre(Labels(sh, id), names);
    LessCovers(r, db.reg, sh, sh', id);
  }

  lemma EraseNodeCovers(r: Render, reg: Registry, sh: Shard, id: NodeID)
    requires Covered(r, reg, sh) && id in sh.nodes
    ensures Covered(r, reg, EraseNode(r, reg, sh, id))
  {
    var sh' := EraseNode(r, reg, sh, id);
    var sh1 := Unindex(r, reg, sh, id, sh.nodes[id]);
    assert sh'.uniqIdx == UnindexUnique(r, reg, sh1, id, Labels(sh, id), sh.nodes[id]).uniqIdx;
    LessCovers(r, reg, sh, sh', id);
  }

  lemma AddNodeCovers(r: Render, db: DB, props: Props)
    requires UniqueInv(r, db) && db.nextNode + 1 < TWO64
    ensures Covered(r, db.reg, AddNode(r, db, props).db.ShardOf(db.nextNode + 1))
  {
    var id := db.nextNode + 1;
    var sh, sh' := db.ShardOf(id), AddNode(r, db, props).db.ShardOf(id);
    assert CoveredAt(r, db, db.Home(id)) && RecordsAt(db, db.Home(id));
    assert UniqueKeys(r, db.reg, [], props) == {};
    assert IndexUnique(r, db.reg, sh, id, [], props).uniqIdx == sh.uniqIdx;
    IndexCovers(r, db.reg, sh, sh', id, [], props, id);
  }

  lemma BatchCovers(r: Render, db: DB, list: seq<Props>, i: nat)
    requires UniqueInv(r, db) && db.nextNode + |list| < TWO64 && i < |db.shards|
    ensures Covered(r, db.reg, AddNodeBatch(db, list).db.shards[i])
  {
    var sh, sh' := db.shards[i], AddNodeBatch(db, list).db.shards[i];
    BatchCall(db, list, i);
    assert CoveredAt(r, db, i) && RecordsAt(db, i);
    forall j | j in sh'.nodes
      ensures OwnsAll(r, db.reg, sh', j)
    {
      if j in sh.nodes {
        assert OwnsAll(r, db.reg, sh, j);
      } else {
        assert Labels(sh', j) == [];
        assert UniqueKeys(r, db.reg, [], sh'.nodes[j]) == {};
      }
    }
  }

  // ---- definitions ------------------------------------------------------------------------------

  /** The label index entry of a live node is met by the scan for its label. */
  lemma LiveIsScanned(r: Render, db: DB, c: Constraint, i: nat, id: NodeID)
    requires RecordsOk(db) && i < |db.shards| && id in db.shards[i].nodes && c.name in Labels(db.shards[i], id) &&
             c.prop in db.shards[i].nodes[id]
    ensures Contributes(r, c, db, i, IndexKey(c.name, id), id, r(db.shards[i].nodes[id][c.prop]))
  {
    assert RecordsAt(db, i);
    LabelKeyIn(db.shards[i].labels, c.name, id);
    IDRoundTrip(id);
    var k := IndexKey(c.name, id);
    assert k[|IndexPrefix(c.name)|..|IndexPrefix(c.name)| + 8] == EncodeID(id);
    assert IndexPrefix(c.name) <= k;
  }

  /** Without duplicates a scanned value has one owner. */
  lemma SeenOnce(r: Render, db: DB, c: Constraint, i: nat, k: Str, id: NodeID, text: Str, w: NodeID)
    requires !Duplicated(r, c, db) && Contributes(r, c, db, i, k, id, text) &&
             Seen(r, c, db, UniqueKey(c.name, c.prop, text), w)
    ensures w == id
  {
    var key := UniqueKey(c.name, c.prop, text);
    var i': nat, k', text' :| Contributes(r, c, db, i', k', w, text') && key == UniqueKey(c.name, c.prop, text');
    SameText(c, text, text');
    assert (i', k') != (i, k) ==> Repeats(r, c, db, i', k', w, i, k, id, text);
  }

  lemma SameText(c: Constraint, s: Str, t: Str)
    requires UniqueKey(c.name, c.prop, s) == UniqueKey(c.name, c.prop, t)
    ensures s == t
  {
    var n := |c.name| + |c.prop| + 2;
    assert UniqueKey(c.name, c.prop, s)[n..] == s && UniqueKey(c.name, c.prop, t)[n..] == t;
  }

  lemma OwnerIs(r: Render, db: DB, c: Constraint, i: nat, key: Str, id: NodeID)
    requires db.Valid() && Seen(r, c, db, key, id) && db.Home(id) == i
    requires forall w: NodeID :: Seen(r, c, db, key, w) ==> w == id
    ensures Owner(r, c, db, i, key) == id
  {
  }

  /** Building the index gives each live value to the node that has it. */
  lemma BuildOwns(r: Render, db: DB, c: Constraint, i: nat, id: NodeID)
    requires RecordsOk(db) && i < |db.shards| && id in db.shards[i].nodes && !Duplicated(r, c, db)
    requires c.name in Labels(db.shards[i], id) && c.prop in db.shards[i].nodes[id]
    ensures var key := KeyOf(r, c, db.shards[i].nodes[id]);
            key in SeenKeys(r, c, db, i) && Owner(r, c, db, i, key) == id
  {
    var text := r(db.shards[i].nodes[id][c.prop]);
    var key := UniqueKey(c.name, c.prop, text);
    assert db.Home(id) == i by {
      assert RecordsAt(db, i);
    }
    LiveIsScanned(r, db, c, i, id);
    assert Seen(r, c, db, key, id);
    forall w: NodeID | Seen(r, c, db, key, w) ensures w == id {
      SeenOnce(r, db, c, i, IndexKey(c.name, id), id, text, w);
    }
    OwnerIs(r, db, c, i, key, id);
  }

  lemma CreateCovers(r: Render, db: DB, c: Constraint, i: nat)
    requires UniqueInv(r, db) && Separate(db.reg, CreateUniqueCall(c)) && i < |db.shards| &&
             CreateUnique(r, db, c).log != []
    ensures Covered(r, CreateUnique(r, db, c).db.reg, CreateUnique(r, db, c).db.shards[i])
  {
    var db' := CreateUnique(r, db, c).db;
    var sh, sh' := db.shards[i], db'.shards[i];
    assert CoveredAt(r, db, i);
    forall id | id in sh'.nodes
      ensures OwnsAll(r, db'.reg, sh', id)
    {
      assert OwnsAll(r, db.reg, sh, id);
      var names, props := Labels(sh, id), sh.nodes[id];
      forall k | k in UniqueKeys(r, db'.reg, names, props)
        ensures k in sh'.uniqIdx && sh'.uniqIdx[k] == id
      {
        var d :| d in Bearing(db'.reg, names, props) && k == KeyOf(r, d, props);
        if d == c {
          BuildOwns(r, db, c, i, id);
        } else {
          OldKeyKept(r, db, c, i, d, props);
          assert d in Bearing(db.reg, names, props);
          assert k in UniqueKeys(r, db.reg, names, props);
        }
      }
    }
  }

  lemma OldKeyKept(r: Render, db: DB, c: Constraint, i: nat, d: Constraint, props: Props)
    requires db.Valid() && Apart(c, d) && i < |db.shards| && d.prop in props
    ensures KeyOf(r, d, props) !in SeenKeys(r, c, db, i)
  {
    var k := KeyOf(r, d, props);
    if k in SeenKeys(r, c, db, i) {
      var j, id :| 0 <= j < |db.shards| && id in db.shards[j].nodes && c.prop in db.shards[j].nodes[id]
        && k == UniqueKey(c.name, c.prop, r(db.shards[j].nodes[id][c.prop]));
      KeysDiffer(c, r(db.shards[j].nodes[id][c.prop]), d, r(props[d.prop]));
    }
  }

  lemma SamePrefix(c: Constraint, d: Constraint)
    requires RegistryKey(c) == RegistryKey(d)
    ensures Prefix(c) == Prefix(d)
  {
    assert Prefix(c) == RegistryKey(c) + [NUL] && Prefix(d) == RegistryKey(d) + [NUL];
  }

  lemma DropCovers(r: Render, db: DB, c: Constraint, i: nat)
    requires UniqueInv(r, db) && i < |db.shards|
    ensures Covered(r, DropUnique(db, c).db.reg, DropUnique(db, c).db.shards[i])
  {
    var db' := DropUnique(db, c).db;
    var sh, sh' := db.shards[i], db'.shards[i];
    assert CoveredAt(r, db, i);
    if RegistryKey(c) in db.reg.unique {
      forall id | id in sh'.nodes
        ensures OwnsAll(r, db'.reg, sh', id)
      {
        assert OwnsAll(r, db.reg, sh, id);
        var names, props := Labels(sh, id), sh.nodes[id];
        forall k | k in UniqueKeys(r, db'.reg, names, props)
          ensures k in sh'.uniqIdx && sh'.uniqIdx[k] == id
        {
          var d :| d in Bearing(db'.reg, names, props) && k == KeyOf(r, d, props);
          var x :| x in db'.reg.unique && db'.reg.unique[x] == d;
          assert x in db.reg.unique && x != RegistryKey(c);
          assert d in Bearing(db.reg, names, props);
          assert k in UniqueKeys(r, db.reg, names, props);
          SamePrefix(c, db.reg.unique[RegistryKey(c)]);
          KeySplits(db.reg.unique[RegistryKey(c)], d, r(props[d.prop]));
        }
      }
    }
  }

  lemma RegistryStays(r: Render, db: DB, call: Call)
    requires UniqueInv(r, db) && Room(db, call) && Separate(db.reg, call)
    ensures RegistryOk(Execute(r, db, call).db.reg)
  {
    if IsDefinition(call) {
      var reg' := Execute(r, db, call).db.reg;
      forall k | k in reg'.unique ensures k == RegistryKey(reg'.unique[k]) { }
    } else {
      DataKeepsRegistry(r, db, call);
    }
  }

  lemma DataKeepsRegistry(r: Render, db: DB, call: Call)
    requires db.Valid() && Room(db, call) && !IsDefinition(call)
    ensures Execute(r, db, call).db.reg == db.reg
  {
    if call.DeleteNodeCall? {
      EraseRegistry(db, call.listed);
    }
  }

  /** A new constraint is apart from those in force. */
  ghost predicate Separate(reg: Registry, call: Call) {
    call.CreateUniqueCall? && RegistryKey(call.c) !in reg.unique ==> forall k :: k in reg.unique ==>
        Apart(call.c, reg.unique[k])
  }

  // ---- calls ------------------------------------------------------------------------------------

  /** Shards whose records and unique bucket are untouched stay covered. */
  lemma UntouchedCovers(r: Render, reg: Registry, sh: Shard, sh': Shard)
    requires Covered(r, reg, sh) && sh'.nodes == sh.nodes && sh'.labels == sh.labels && sh'.uniqIdx == sh.uniqIdx
    ensures Covered(r, reg, sh')
  {
    forall id | id in sh'.nodes ensures OwnsAll(r, reg, sh', id) {
      assert OwnsAll(r, reg, sh, id);
    }
  }

  /** Only the shard of `id` may differ in what uniqueness looks at. */
  ghost predicate OnlyAt(db: DB, db': DB, home: nat) {
    && |db'.shards| == |db.shards|
    && forall i {:trigger db'.shards[i]} :: 0 <= i < |db.shards| && i != home ==>
         db'.shards[i].nodes == db.shards[i].nodes && db'.shards[i].labels == db.shards[i].labels &&
             db'.shards[i].uniqIdx == db.shards[i].uniqIdx
  }

  lemma CommitCovers(r: Render, db: DB, db': DB, home: nat)
    requires UniqueInv(r, db) && OnlyAt(db, db', home) && db'.reg == db.reg &&
             (home < |db.shards| ==> Covered(r, db.reg, db'.shards[home]))
    ensures AllCovered(r, db')
  {
    forall i | 0 <= i < |db'.shards| ensures CoveredAt(r, db', i) {
      if i != home {
        assert CoveredAt(r, db, i);
        assert db'.shards[i].uniqIdx == db.shards[i].uniqIdx;
        UntouchedCovers(r, db.reg, db.shards[i], db'.shards[i]);
      }
    }
  }

  lemma {:induction false} EraseKeepsUnique(db: DB, es: seq<Edge>)
    requires db.Valid()
    ensures OnlyAt(db, EraseEdges(db, es).db, |db.shards|)
  {
    if es != [] {
      EraseKeepsUnique(db, es[..|es| - 1]);
      var mid, db' := EraseEdges(db, es[..|es| - 1]).db, EraseEdges(db, es).db;
      forall i | 0 <= i < |db.shards|
        ensures db'.shards[i].nodes == db.shards[i].nodes && db'.shards[i].labels == db.shards[i].labels &&
                db'.shards[i].uniqIdx == db.shards[i].uniqIdx
      {
        assert mid.shards[i].uniqIdx == db.shards[i].uniqIdx;
      }
    }
  }

  lemma DeleteNodeCovers(r: Render, db: DB, id: NodeID, es: seq<Edge>)
    requires UniqueInv(r, db)
    ensures AllCovered(r, DeleteNode(r, db, id, es).db)
  {
    EraseKeepsUnique(db, es);
    EraseRegistry(db, es);
    var mid, db' := EraseEdges(db, es).db, DeleteNode(r, db, id, es).db;
    var i := db.Home(id);
    assert CoveredAt(r, db, i);
    UntouchedCovers(r, db.reg, db.shards[i], mid.shards[i]);
    if mid.HasNode(id) {
      EraseNodeCovers(r, db.reg, mid.shards[i], id);
      forall j | 0 <= j < |db.shards| && j != i
        ensures db'.shards[j].nodes == db.shards[j].nodes && db'.shards[j].labels == db.shards[j].labels &&
                db'.shards[j].uniqIdx == db.shards[j].uniqIdx
      {
        assert mid.shards[j].uniqIdx == db.shards[j].uniqIdx;
      }
    }
    CommitCovers(r, db, db', i);
  }

  lemma {:induction false} ApplyEdgesKeepUnique(db: DB, es: seq<Edge>)
    requires db.Valid()
    ensures OnlyAt(db, Applier.ApplyAddEdges(db, es), |db.shards|)
  {
    if es != [] {
      ApplyEdgesKeepUnique(db, es[..|es| - 1]);
      var mid, db' := Applier.ApplyAddEdges(db, es[..|es| - 1]), Applier.ApplyAddEdges(db, es);
      forall i | 0 <= i < |db.shards|
        ensures db'.shards[i].nodes == db.shards[i].nodes && db'.shards[i].labels == db.shards[i].labels &&
                db'.shards[i].uniqIdx == db.shards[i].uniqIdx
      {
        assert mid.shards[i].uniqIdx == db.shards[i].uniqIdx;
      }
    }
  }

  lemma EdgeCallOnly(r: Render, db: DB, call: Call)
    requires db.Valid() && Room(db, call) && IsEdgeCall(call)
    ensures OnlyAt(db, Execute(r, db, call).db, |db.shards|)
  {
    match call
    case AddEdgeCall(s, t, name, props) => AddEdgeOnly(db, s, t, name, props);
    case AddEdgeBatchCall(list) => EdgeBatchOnly(db.(nextEdge := db.nextEdge + |list|),
                                                 NumberedEdges(db.nextEdge + 1, list));
    case DeleteEdgeCall(eid) => DeleteEdgeOnly(db, eid);
    case UpdateEdgeCall(eid, props) => UpdateEdgeOnly(db, eid, props);
  }

  lemma UpdateEdgeOnly(db: DB, eid: EdgeID, props: Props)
    requires db.Valid()
    ensures OnlyAt(db, UpdateEdge(db, eid, props).db, |db.shards|)
  {
  }

  lemma AddEdgeOnly(db: DB, source: NodeID, target: NodeID, name: Str, props: Props)
    requires db.Valid() && db.nextEdge + 1 < TWO64
    ensures OnlyAt(db, AddEdge(db, source, target, name, props).db, |db.shards|)
  {
  }

  lemma DeleteEdgeOnly(db: DB, eid: EdgeID)
    requires db.Valid()
    ensures OnlyAt(db, DeleteEdge(db, eid).db, |db.shards|)
  {
  }

  lemma EdgeBatchOnly(db: DB, es: seq<Edge>)
    requires db.Valid()
    ensures OnlyAt(db, PutEdgeBatch(db, es), |db.shards|)
  {
    BatchIsOneByOne(db, es);
    ApplyEdgesKeepUnique(db, es);
  }

  lemma IndexCallOnly(r: Render, db: DB, p: Str, names: seq<Str>)
    requires db.Valid()
    ensures OnlyAt(db, CreateIndex(r, db, p).db, |db.shards|) && OnlyAt(db, DropIndex(db, p).db, |db.shards|)
    ensures OnlyAt(db, CreateComposite(r, db, names).db, |db.shards|) &&
            OnlyAt(db, DropComposite(db, names).db, |db.shards|)
  {
  }

  /** The unique constraints in force; what covering depends on. */
  lemma SameConstraints(r: Render, reg: Registry, reg': Registry, sh: Shard)
    requires reg.unique == reg'.unique && Covered(r, reg, sh)
    ensures Covered(r, reg', sh)
  {
    forall id | id in sh.nodes ensures OwnsAll(r, reg', sh, id) {
      assert OwnsAll(r, reg, sh, id);
      assert Bearing(reg', Labels(sh, id), sh.nodes[id]) == Bearing(reg, Labels(sh, id), sh.nodes[id]);
    }
  }

  lemma IndexCallCovers(r: Render, db: DB, call: Call)
    requires UniqueInv(r, db) &&
             (call.CreateIndexCall? || call.DropIndexCall? || call.CreateCompositeCall? || call.DropCompositeCall?)
    ensures AllCovered(r, Execute(r, db, call).db)
  {
    var db' := Execute(r, db, call).db;
    match call {
      case CreateIndexCall(p) => IndexCallOnly(r, db, p, []);
      case DropIndexCall(p) => IndexCallOnly(r, db, p, []);
      case CreateCompositeCall(names) => IndexCallOnly(r, db, [], names);
      case DropCompositeCall(names) => IndexCallOnly(r, db, [], names);
    }
    CommitCovers(r, db, db'.(reg := db.reg), |db.shards|);
    forall i | 0 <= i < |db'.shards| ensures CoveredAt(r, db', i) {
      assert CoveredAt(r, db'.(reg := db.reg), i);
      SameConstraints(r, db.reg, db'.reg, db'.shards[i]);
    }
  }

  lemma ConstraintCallCovers(r: Render, db: DB, call: Call)
    requires UniqueInv(r, db) && (call.CreateUniqueCall? || call.DropUniqueCall?) && Separate(db.reg, call)
    ensures AllCovered(r, Execute(r, db, call).db)
  {
    var db' := Execute(r, db, call).db;
    forall i | 0 <= i < |db'.shards| ensures CoveredAt(r, db', i) {
      assert CoveredAt(r, db, i);
      if call.DropUniqueCall? {
        DropCovers(r, db, call.c, i);
      } else if CreateUnique(r, db, call.c).log != [] {
        CreateCovers(r, db, call.c, i);
      }
    }
  }

  lemma AddNodeCallCovers(r: Render, db: DB, props: Props)
    requires UniqueInv(r, db) && db.nextNode + 1 < TWO64
    ensures AllCovered(r, AddNode(r, db, props).db)
  {
    AddNodeCovers(r, db, props);
    CommitCovers(r, db, AddNode(r, db, props).db, db.Home(db.nextNode + 1));
  }

  lemma AddLabeledCallCovers(r: Render, db: DB, names: seq<Str>, props: Props)
    requires UniqueInv(r, db) && db.nextNode + 1 < TWO64
    ensures AllCovered(r, AddNodeWithLabels(r, db, names, props).db)
  {
    var id := db.nextNode + 1;
    assert CoveredAt(r, db, db.Home(id));
    if AddNodeWithLabels(r, db, names, props).ok {
      AddLabeledCovers(r, db, names, props);
    }
    CommitCovers(r, db, AddNodeWithLabels(r, db, names, props).db, db.Home(id));
  }

  lemma RewriteCallCovers(r: Render, db: DB, call: Call)
    requires UniqueInv(r, db) && (call.UpdateNodeCall? || call.SetNodePropsCall?)
    ensures AllCovered(r, Execute(r, db, call).db)
  {
    var db', id := Execute(r, db, call).db, call.id;
    assert CoveredAt(r, db, db.Home(id));
    if call.UpdateNodeCall? {
      if UpdateNode(r, db, id, call.props).ok {
        UpdateCovers(r, db, id, call.props);
      }
    } else if SetNodeProps(r, db, id, call.props).ok {
      SetCovers(r, db, id, call.props);
    }
    CommitCovers(r, db, db', db.Home(id));
  }

  lemma RelabelCallCovers(r: Render, db: DB, call: Call)
    requires UniqueInv(r, db) && (call.AddLabelCall? || call.RemoveLabelCall?)
    ensures AllCovered(r, Execute(r, db, call).db)
  {
    var db', id := Execute(r, db, call).db, call.id;
    assert CoveredAt(r, db, db.Home(id));
    if db.HasNode(id) {
      if call.RemoveLabelCall? {
        RemoveLabelCovers(r, db, id, call.names);
      } else if AddLabel(r, db, id, call.names).ok {
        AddLabelCovers(r, db, id, call.names);
      }
    }
    CommitCovers(r, db, db', db.Home(id));
  }

  /** Every write method keeps the index covering every live value. */
  lemma CallKeepsUniqueInv(r: Render, db: DB, call: Call)
    requires Placed(db) && UniqueInv(r, db) && Room(db, call) && Separate(db.reg, call)
    ensures UniqueInv(r, Execute(r, db, call).db)
  {
    CallKeepsRecords(r, db, call);
    RegistryStays(r, db, call);
    var db' := Execute(r, db, call).db;
    if call.AddNodeCall? {
      AddNodeCallCovers(r, db, call.props);
    } else if call.AddNodeWithLabelsCall? {
      AddLabeledCallCovers(r, db, call.names, call.props);
    } else if call.UpdateNodeCall? || call.SetNodePropsCall? {
      RewriteCallCovers(r, db, call);
    } else if call.AddLabelCall? || call.RemoveLabelCall? {
      RelabelCallCovers(r, db, call);
    } else if call.DeleteNodeCall? {
      DeleteNodeCovers(r, db, call.id, call.listed);
    } else if call.AddNodeBatchCall? {
      forall i | 0 <= i < |db'.shards| ensures CoveredAt(r, db', i) {
        BatchCovers(r, db, call.list, i);
      }
    } else if IsEdgeCall(call) {
      EdgeCallOnly(r, db, call);
      DataKeepsRegistry(r, db, call);
      CommitCovers(r, db, db', |db.shards|);
    } else if call.CreateUniqueCall? || call.DropUniqueCall? {
      ConstraintCallCovers(r, db, call);
    } else {
      IndexCallCovers(r, db, call);
    }
  }

  // ---- runs ---------------------------------------------------------------------------------------

  /** Node `id` of shard `i` carries the constrained label and renders the constrained property as `text`. */
  ghost predicate Carries(r: Render, c: Constraint, sh: Shard, id: NodeID, text: Str) {
    id in sh.nodes && c.name in Labels(sh, id) && c.prop in sh.nodes[id] && r(sh.nodes[id][c.prop]) == text
  }

  /** Some shard has node `id` with that label and value. */
  ghost predicate Carried(r: Render, c: Constraint, db: DB, id: NodeID, text: Str) {
    exists i :: 0 <= i < |db.shards| && Carries(r, c, db.shards[i], id, text)
  }

  /** No two nodes of the database carry the same value of a constraint in force. */
  ghost predicate GloballyUnique(r: Render, db: DB) {
    forall k, a: NodeID, b: NodeID, text | k in db.reg.unique ::
      (Carried(r, db.reg.unique[k], db, a, text) && Carried(r, db.reg.unique[k], db, b, text)) ==> a == b
  }

  lemma ShardIsUnique(r: Render, db: DB, k: Str, i: nat, a: NodeID, b: NodeID, text: Str)
    requires UniqueInv(r, db) && k in db.reg.unique && i < |db.shards|
    requires Carries(r, db.reg.unique[k], db.shards[i], a, text) && Carries(r, db.reg.unique[k], db.shards[i], b, text)
    ensures a == b
  {
    var c, sh := db.reg.unique[k], db.shards[i];
    assert CoveredAt(r, db, i);
    assert OwnsAll(r, db.reg, sh, a) && OwnsAll(r, db.reg, sh, b);
    assert c in Bearing(db.reg, Labels(sh, a), sh.nodes[a]) && c in Bearing(db.reg, Labels(sh, b), sh.nodes[b]);
    var key := UniqueKey(c.name, c.prop, text);
    assert key == KeyOf(r, c, sh.nodes[a]) && key == KeyOf(r, c, sh.nodes[b]);
    assert key in UniqueKeys(r, db.reg, Labels(sh, a), sh.nodes[a]) &&
           key in UniqueKeys(r, db.reg, Labels(sh, b), sh.nodes[b]);
  }

  /** Every constraint is apart from those in force when it is created. */
  ghost predicate SeparateRun(r: Render, db: DB, calls: seq<Call>)
    requires db.Valid() && RoomFor(r, db, calls)
    decreases |calls|
  {
    calls == [] || (Separate(db.reg, calls[0]) && SeparateRun(r, Execute(r, db, calls[0]).db, calls[1..]))
  }

  /** After any run, whatever the number of shards, two carriers in one shard are the same node. */
  lemma {:induction false} RunKeepsUniqueInv(r: Render, db: DB, calls: seq<Call>)
    requires Placed(db) && UniqueInv(r, db) && RoomFor(r, db, calls) && SeparateRun(r, db, calls)
    ensures UniqueInv(r, Run(r, db, calls).0)
    decreases |calls|
  {
    if calls != [] {
      CallKeepsPlaced(r, db, calls[0]);
      CallKeepsUniqueInv(r, db, calls[0]);
      RunKeepsUniqueInv(r, Execute(r, db, calls[0]).db, calls[1..]);
    }
  }

  lemma {:induction false} ShardCountStays(r: Render, db: DB, calls: seq<Call>)
    requires Placed(db) && RecordsOk(db) && RoomFor(r, db, calls)
    ensures |Run(r, db, calls).0.shards| == |db.shards|
    decreases |calls|
  {
    if calls != [] {
      CallKeepsPlaced(r, db, calls[0]);
      CallKeepsRecords(r, db, calls[0]);
      OneCallKeepsShards(r, db, calls[0]);
      ShardCountStays(r, Execute(r, db, calls[0]).db, calls[1..]);
    }
  }

  lemma OneCallKeepsShards(r: Render, db: DB, call: Call)
    requires Placed(db) && RecordsOk(db) && Room(db, call)
    ensures |Execute(r, db, call).db.shards| == |db.shards|
  {
    if IsNodeCall(call) {
      NodeCallSteps(r, db, call);
    } else if IsEdgeCall(call) {
      EdgeCallKeepsNodeSide(r, db, call);
    } else if IsDefinition(call) {
      DefinitionsKeepRecords(r, db, call);
    }
  }

  /** With one shard no run ever breaks a unique constraint. */
  lemma SingleShardIsUnique(r: Render, db: DB, calls: seq<Call>)
    requires Placed(db) && UniqueInv(r, db) && RoomFor(r, db, calls) && SeparateRun(r, db, calls) && |db.shards| == 1
    ensures GloballyUnique(r, Run(r, db, calls).0)
  {
    RunKeepsUniqueInv(r, db, calls);
    ShardCountStays(r, db, calls);
    OneShardUnique(r, Run(r, db, calls).0);
  }

  lemma OneShardUnique(r: Render, db: DB)
    requires UniqueInv(r, db) && |db.shards| == 1
    ensures GloballyUnique(r, db)
  {
    forall k, a: NodeID, b: NodeID, text | k in db.reg.unique && Carried(r, db.reg.unique[k], db, a, text) &&
        Carried(r, db.reg.unique[k], db, b, text)
      ensures a == b
    {
      ShardIsUnique(r, db, k, 0, a, b, text);
    }
  }

  /** An empty database of `n` shards with one constraint in force. */
  function Start(n: nat, c: Constraint): DB {
    NewDB(n).(reg := Registry({}, map[], map[RegistryKey(c) := c]))
  }

  lemma NewIsUnique(r: Render, n: nat)
    requires n > 0
    ensures Placed(NewDB(n)) && UniqueInv(r, NewDB(n))
  {
    var db := NewDB(n);
    forall i | 0 <= i < n ensures PlacedIn(db, i) && RecordsAt(db, i) && CoveredAt(r, db, i) {
      assert db.shards[i] == EMPTY;
      assert AllLabelKeys(map[]) == {};
    }
  }

  /** Creating a constraint on a new database reaches that state. */
  lemma StartIsReached(r: Render, n: nat, c: Constraint)
    requires n > 0
    ensures CreateUnique(r, NewDB(n), c) == Done(Start(n, c), OpCreateUnique(c))
  {
    var db := NewDB(n);
    assert forall i :: 0 <= i < n ==> db.shards[i] == EMPTY;
    assert !Duplicated(r, c, db);
    forall i | 0 <= i < n ensures BuildUnique(r, c, db).shards[i] == EMPTY {
      assert SeenKeys(r, c, db, i) == {};
    }
    assert BuildUnique(r, c, db).shards == db.shards;
    assert db.reg.unique[RegistryKey(c) := c] == map[RegistryKey(c) := c];
  }

  lemma AddAtFresh(r: Render, db: DB, c: Constraint, v: Value)
    requires db.Valid() && db.nextNode + 1 < TWO64 && db.ShardOf(db.nextNode + 1) == EMPTY
    ensures var o := AddNodeWithLabels(r, db, [c.name], map[c.prop := v]);
            && o.ok && o.db.Valid() && o.db.nextNode == db.nextNode + 1 && o.db.reg == db.reg
            && |o.db.shards| == |db.shards|
            && Carries(r, c, o.db.ShardOf(db.nextNode + 1), db.nextNode + 1, r(v))
            && o.db.ShardOf(db.nextNode + 1).nodes == map[db.nextNode + 1 := map[c.prop := v]]
            && Labels(o.db.ShardOf(db.nextNode + 1), db.nextNode + 1) == [c.name]
            && forall i :: 0 <= i < |db.shards| && i != db.Home(db.nextNode + 1) ==> o.db.shards[i] == db.shards[i]
  {
  }

  lemma RunFirst(r: Render, db: DB, call: Call, rest: seq<Call>)
    requires db.Valid() && Room(db, call) && Execute(r, db, call).db.Valid() &&
             RoomFor(r, Execute(r, db, call).db, rest)
    ensures RoomFor(r, db, [call] + rest) && Run(r, db, [call] + rest).0 == Run(r, Execute(r, db, call).db, rest).0
  {
    assert ([call] + rest)[1..] == rest;
  }

  lemma ExecuteAdd(r: Render, db: DB, names: seq<Str>, props: Props)
    requires db.Valid() && db.nextNode + 1 < TWO64
    ensures Room(db, AddNodeWithLabelsCall(names, props))
    ensures Execute(r, db, AddNodeWithLabelsCall(names, props)) == AddNodeWithLabels(r, db, names, props)
  {
  }

  lemma Residues(n: nat)
    requires n >= 2
    ensures 1 % n == 1 && 2 % n != 1 && 2 % n < n
  {
  }

  /** A new database, a constraint, and the same labelled node twice. */
  function RepeatingRun(c: Constraint, v: Value): seq<Call> {
    [CreateUniqueCall(c)] + ([AddNodeWithLabelsCall([c.name],
                                                    map[c.prop := v])] + ([AddNodeWithLabelsCall([c.name],
                                                        map[c.prop := v])] + []))
  }

  /** With two shards or more, adding the same labelled node twice is accepted both times. */
  lemma ManyShardsMayRepeat(r: Render, n: nat, c: Constraint, v: Value)
    requires n >= 2
    ensures RoomFor(r, NewDB(n), RepeatingRun(c, v)) && !GloballyUnique(r, Run(r, NewDB(n), RepeatingRun(c, v)).0)
  {
    var db0, props := Start(n, c), map[c.prop := v];
    var add := AddNodeWithLabelsCall([c.name], props);
    AddAtFresh(r, db0, c, v);
    var db1 := AddNodeWithLabels(r, db0, [c.name], props).db;
    Residues(n);
    SecondAdd(r, db1, n, c, v);
    var db2 := AddNodeWithLabels(r, db1, [c.name], props).db;
    ExecuteAdd(r, db0, [c.name], props);
    ExecuteAdd(r, db1, [c.name], props);
    RunFirst(r, db1, add, []);
    RunFirst(r, db0, add, [add] + []);
    StartIsReached(r, n, c);
    RunFirst(r, NewDB(n), CreateUniqueCall(c), [add] + ([add] + []));
    RepeatedValue(r, db2, c, 1 % n, 2 % n, r(v));
  }

  lemma SecondAdd(r: Render, db: DB, n: nat, c: Constraint, v: Value)
    requires n >= 2 && |db.shards| == n && db.nextNode == 1 && db.reg == Start(n, c).reg
    requires Carries(r, c, db.shards[1 % n], 1, r(v)) && db.shards[2 % n] == EMPTY && 1 % n != 2 % n
    ensures var db2 := AddNodeWithLabels(r, db, [c.name], map[c.prop := v]).db;
            && db2.Valid() && |db2.shards| == n && db2.reg == db.reg
            && Carries(r, c, db2.shards[1 % n], 1, r(v)) && Carries(r, c, db2.shards[2 % n], 2, r(v))
  {
    AddAtFresh(r, db, c, v);
  }

  lemma RepeatedValue(r: Render, db: DB, c: Constraint, i: nat, j: nat, text: Str)
    requires i < |db.shards| && j < |db.shards| && RegistryKey(c) in db.reg.unique && db.reg.unique[RegistryKey(c)] == c
    requires Carries(r, c, db.shards[i], 1, text) && Carries(r, c, db.shards[j], 2, text)
    ensures !GloballyUnique(r, db)
  {
    assert Carried(r, db.reg.unique[RegistryKey(c)], db, 1, text) &&
           Carried(r, db.reg.unique[RegistryKey(c)], db, 2, text);
  }

  // ---- constraints that are not apart ---------------------------------------------------------------------

  /** A live key of some constraint in force starts with the prefix. */
  ghost predicate LiveKeyUnder(r: Render, reg: Registry, sh: Shard, prefix: Str) {
    exists id, k :: id in sh.nodes && k in UniqueKeys(r, reg, Labels(sh, id), sh.nodes[id]) && prefix <= k
  }

  /**
   Dropping a constraint keeps the others' live values covered exactly when none of their
   keys starts with its prefix.
   */
  lemma DropKeepsExactly(r: Render, reg: Registry, sh: Shard, c: Constraint)
    requires Covered(r, reg, sh)
    ensures var rest := reg.(unique := reg.unique - {RegistryKey(c)});
            Covered(r, rest, ClearUnique(c, sh)) <==> !LiveKeyUnder(r, rest, sh, Prefix(c))
  {
    var rest, sh' := reg.(unique := reg.unique - {RegistryKey(c)}), ClearUnique(c, sh);
    if !LiveKeyUnder(r, rest, sh, Prefix(c)) {
      forall id | id in sh'.nodes ensures OwnsAll(r, rest, sh', id) {
        assert OwnsAll(r, reg, sh, id);
        FewerKeys(r, rest, reg, Labels(sh, id), sh.nodes[id]);
      }
    } else {
      var id, k :| id in sh.nodes && k in UniqueKeys(r, rest, Labels(sh, id), sh.nodes[id]) && Prefix(c) <= k;
      assert k !in sh'.uniqIdx;
      assert !OwnsAll(r, rest, sh', id);
    }
  }

  lemma FewerKeys(r: Render, a: Registry, b: Registry, names: seq<Str>, props: Props)
    requires forall k :: k in a.unique ==> k in b.unique && b.unique[k] == a.unique[k]
    ensures UniqueKeys(r, a, names, props) <= UniqueKeys(r, b, names, props)
  {
    forall k | k in UniqueKeys(r, a, names, props) ensures k in UniqueKeys(r, b, names, props) {
      var c :| c in Bearing(a, names, props) && k == KeyOf(r, c, props);
      assert c in Bearing(b, names, props);
    }
  }

  const SHORT := Constraint([97], [98])
  const LONG := Constraint([97], [98, 0, 120])

  /** ("a", "b") and ("a", "b NUL x") are not apart: dropping the first uncovers a node under the second. */
  lemma DropWipesOther(r: Render, v: Value)
    ensures var reg := Registry({}, map[], map[RegistryKey(SHORT) := SHORT, RegistryKey(LONG) := LONG]);
            var key := UniqueKey([97], [98, 0, 120], r(v));
            var sh := EMPTY.(nodes := map[1 := map[[98, 0, 120] := v]], labels := map[1 := [[97]]], uniqIdx :=
                             map[key := 1]);
            && Covered(r, reg, sh)
            && !Covered(r, reg.(unique := reg.unique - {RegistryKey(SHORT)}), ClearUnique(SHORT, sh))
  {
    var reg := Registry({}, map[], map[RegistryKey(SHORT) := SHORT, RegistryKey(LONG) := LONG]);
    var props := map[[98, 0, 120] := v];
    var key := UniqueKey([97], [98, 0, 120], r(v));
    var sh := EMPTY.(nodes := map[1 := props], labels := map[1 := [[97]]], uniqIdx := map[key := 1]);
    assert RegistryKey(SHORT) == [97, 0, 98] && RegistryKey(LONG) == [97, 0, 98, 0, 120];
    assert [98] !in props;
    forall k | k in UniqueKeys(r, reg, [[97]], props) ensures k == key {
      var c :| c in Bearing(reg, [[97]], props) && k == KeyOf(r, c, props);
    }
    assert OwnsAll(r, reg, sh, 1);
    var rest := reg.(unique := reg.unique - {RegistryKey(SHORT)});
    assert RegistryKey(LONG) in rest.unique && rest.unique[RegistryKey(LONG)] == LONG;
    assert LONG in Bearing(rest, [[97]], props);
    assert key == KeyOf(r, LONG, props);
    assert key in UniqueKeys(r, rest, [[97]], props);
    assert Prefix(SHORT) == [97, 0, 98, 0] && Prefix(SHORT) <= key;
    DropKeepsExactly(r, reg, sh, SHORT);
  }
}
