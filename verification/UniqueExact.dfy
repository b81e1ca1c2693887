/**
 When the unique index is exact. It always covers the live values; an entry is stale when
 the node it names no longer carries its value. Two calls leave stale entries, and exactly
 when is stated here, with what a stale entry does to later writes.
 */
module UniqueExact {
  import opened Types
  import opened Keys
  import opened Store
  import opened Leader
  import opened Replay
  import opened Commute
  import opened NodeState
  import opened Unique

  /** The node an entry names is stored and carries the entry's value. */
  ghost predicate LiveEntry(r: Render, reg: Registry, sh: Shard, k: Str)
    requires k in sh.uniqIdx
  {
    sh.uniqIdx[k] in sh.nodes && k in UniqueKeys(r, reg, Labels(sh, sh.uniqIdx[k]), sh.nodes[sh.uniqIdx[k]])
  }

  ghost predicate NoStale(r: Render, reg: Registry, sh: Shard) {
    forall k {:trigger LiveEntry(r, reg, sh, k)} :: k in sh.uniqIdx ==> LiveEntry(r, reg, sh, k)
  }

  ghost predicate ExactAt(r: Render, db: DB, i: nat)
    requires i < |db.shards|
  {
    NoStale(r, db.reg, db.shards[i])
  }

  ghost predicate AllExact(r: Render, db: DB) {
    forall i {:trigger ExactAt(r, db, i)} :: 0 <= i < |db.shards| ==> ExactAt(r, db, i)
  }

  // ---- keys of one node -------------------------------------------------------------------------------

  lemma KeyIn(r: Render, reg: Registry, k: Str, names: seq<Str>, props: Props)
    requires k in reg.unique && reg.unique[k].name in names && reg.unique[k].prop in props
    ensures KeyOf(r, reg.unique[k], props) in UniqueKeys(r, reg, names, props)
  {
    assert reg.unique[k] in Bearing(reg, names, props);
  }

  lemma KeyFrom(r: Render, reg: Registry, key: Str, names: seq<Str>, props: Props) returns (k: Str)
    requires key in UniqueKeys(r, reg, names, props)
    ensures k in reg.unique && reg.unique[k].name in names && reg.unique[k].prop in props &&
            key == KeyOf(r, reg.unique[k], props)
  {
    var c :| c in Bearing(reg, names, props) && key == KeyOf(r, c, props);
    k :| k in reg.unique && reg.unique[k].name in names && reg.unique[k].prop in props && reg.unique[k] == c;
  }

  /** Among constraints in force, equal keys are of one constraint and one value. */
  lemma SameKey(r: Render, reg: Registry, k: Str, props: Props, l: Str, props': Props)
    requires RegistryOk(reg) && k in reg.unique && l in reg.unique && reg.unique[k].prop in props &&
             reg.unique[l].prop in props'
    requires KeyOf(r, reg.unique[k], props) == KeyOf(r, reg.unique[l], props')
    ensures k == l && r(props[reg.unique[k].prop]) == r(props'[reg.unique[k].prop])
  {
    var c, d := reg.unique[k], reg.unique[l];
    if k != l {
      KeysDiffer(c, r(props[c.prop]), d, r(props'[d.prop]));
    } else {
      SameText(c, r(props[c.prop]), r(props'[c.prop]));
    }
  }

  // ---- shards ---------------------------------------------------------------------------------------------

  /** The records of all nodes but one are as before. */
  ghost predicate OthersSame(sh: Shard, sh': Shard, id: NodeID) {
    forall j :: j in sh.nodes && j != id ==>
        j in sh'.nodes && sh'.nodes[j] == sh.nodes[j] && Labels(sh', j) == Labels(sh, j)
  }

  /** Nodes are added or left alone; no entry changes. */
  lemma GrowExact(r: Render, reg: Registry, sh: Shard, sh': Shard)
    requires NoStale(r, reg, sh) && sh'.uniqIdx == sh.uniqIdx
    requires forall j :: j in sh.nodes ==>
               j in sh'.nodes && sh'.nodes[j] == sh.nodes[j] && Labels(sh', j) == Labels(sh, j)
    ensures NoStale(r, reg, sh')
  {
    forall k | k in sh'.uniqIdx ensures LiveEntry(r, reg, sh', k) {
      assert LiveEntry(r, reg, sh, k);
    }
  }

  /** A node's keys under some of its labels are written; it keeps the keys it had. */
  lemma IndexExact(r: Render, reg: Registry, sh: Shard, sh': Shard, id: NodeID, names: seq<Str>)
    requires NoStale(r, reg, sh) && OthersSame(sh, sh', id) && id in sh'.nodes &&
             (forall l :: l in names ==> l in Labels(sh', id))
    requires sh'.uniqIdx == IndexUnique(r, reg, sh, id, names, sh'.nodes[id]).uniqIdx
    requires id in sh.nodes ==> sh'.nodes[id] == sh.nodes[id] && forall l :: l in Labels(sh, id) ==>
               l in Labels(sh', id)
    ensures NoStale(r, reg, sh')
  {
    forall k | k in sh'.uniqIdx ensures LiveEntry(r, reg, sh', k) {
      if k in UniqueKeys(r, reg, names, sh'.nodes[id]) {
        MoreLabels(r, reg, names, Labels(sh', id), sh'.nodes[id], k);
      } else {
        assert LiveEntry(r, reg, sh, k);
        if sh.uniqIdx[k] == id {
          MoreLabels(r, reg, Labels(sh, id), Labels(sh', id), sh'.nodes[id], k);
        }
      }
    }
  }

  lemma MoreLabels(r: Render, reg: Registry, a: seq<Str>, b: seq<Str>, props: Props, key: Str)
    requires key in UniqueKeys(r, reg, a, props) && forall l :: l in a ==> l in b
    ensures key in UniqueKeys(r, reg, b, props)
  {
    var k := KeyFrom(r, reg, key, a, props);
    KeyIn(r, reg, k, b, props);
  }

  /** Entries of `dropped` values go, those of `props` come: exact exactly when no key the node had is left over. */
  lemma RewriteExact(r: Render, reg: Registry, sh: Shard, sh': Shard, id: NodeID, dropped: Props, props: Props)
    requires NoStale(r, reg, sh) && Covered(r, reg, sh) && id in sh.nodes && OthersSame(sh, sh', id)
    requires id in sh'.nodes && sh'.nodes[id] == props && Labels(sh', id) == Labels(sh, id)
    requires sh'.uniqIdx ==
               IndexUnique(r, reg, UnindexUnique(r, reg, sh, id, Labels(sh, id), dropped), id, Labels(sh, id),
                           props).uniqIdx
    ensures var had, gone, has :=
              UniqueKeys(r, reg, Labels(sh, id), sh.nodes[id]), UniqueKeys(r, reg, Labels(sh, id), dropped),
                  UniqueKeys(r, reg, Labels(sh, id), props);
            NoStale(r, reg, sh') <==> had <= gone + has
  {
    var names := Labels(sh, id);
    var had, gone, has :=
      UniqueKeys(r, reg, names, sh.nodes[id]), UniqueKeys(r, reg, names, dropped), UniqueKeys(r, reg, names, props);
    assert OwnsAll(r, reg, sh, id);
    if had <= gone + has {
      forall k | k in sh'.uniqIdx ensures LiveEntry(r, reg, sh', k) {
        if k !in has {
          assert LiveEntry(r, reg, sh, k);
        }
      }
    } else {
      var k :| k in had && k !in gone && k !in has;
      assert k in sh'.uniqIdx && sh'.uniqIdx[k] == id;
      assert !LiveEntry(r, reg, sh', k);
    }
  }

  /** A constrained property under a held label gets another rendering. */
  ghost predicate Rerenders(r: Render, reg: Registry, names: seq<Str>, was: Props, props: Props) {
    exists k :: k in reg.unique && reg.unique[k].name in names && reg.unique[k].prop in was &&
        reg.unique[k].prop in props
                && r(was[reg.unique[k].prop]) != r(props[reg.unique[k].prop])
  }

  /** Merging keeps all of a node's keys exactly when nothing constrained is rendered anew. */
  lemma MergeKeepsKeys(r: Render, reg: Registry, names: seq<Str>, was: Props, props: Props)
    requires RegistryOk(reg)
    ensures UniqueKeys(r, reg, names, was) <= UniqueKeys(r, reg, names, was + props) <==>
              !Rerenders(r, reg, names, was, props)
  {
    var merged := was + props;
    if Rerenders(r, reg, names, was, props) {
      var k :| k in reg.unique && reg.unique[k].name in names && reg.unique[k].prop in was &&
          reg.unique[k].prop in props
        && r(was[reg.unique[k].prop]) != r(props[reg.unique[k].prop]);
      KeyIn(r, reg, k, names, was);
      RerenderedKeyGone(r, reg, names, was, merged, k);
    } else {
      forall key | key in UniqueKeys(r, reg, names, was) ensures key in UniqueKeys(r, reg, names, merged) {
        var k := KeyFrom(r, reg, key, names, was);
        KeyIn(r, reg, k, names, merged);
      }
    }
  }

  lemma RerenderedKeyGone(r: Render, reg: Registry, names: seq<Str>, was: Props, now: Props, k: Str)
    requires RegistryOk(reg) && k in reg.unique && reg.unique[k].prop in was && reg.unique[k].prop in now
    requires r(was[reg.unique[k].prop]) != r(now[reg.unique[k].prop])
    ensures KeyOf(r, reg.unique[k], was) !in UniqueKeys(r, reg, names, now)
  {
    var key := KeyOf(r, reg.unique[k], was);
    if key in UniqueKeys(r, reg, names, now) {
      var l := KeyFrom(r, reg, key, names, now);
      SameKey(r, reg, k, was, l, now);
    }
  }

  /** A held constrained label whose property the node has is taken off. */
  ghost predicate Uncarries(reg: Registry, held: seq<Str>, names: seq<Str>, props: Props) {
    exists k :: k in reg.unique && reg.unique[k].name in held && reg.unique[k].name in names &&
        reg.unique[k].prop in props
  }

  /** Fewer labels, the same entries: exact exactly when no constrained label went. */
  lemma UnlabelExact(r: Render, reg: Registry, sh: Shard, sh': Shard, id: NodeID, names: seq<Str>)
    requires RegistryOk(reg) && NoStale(r, reg, sh) && Covered(r, reg, sh) && id in sh.nodes && OthersSame(sh, sh', id)
    requires id in sh'.nodes && sh'.nodes[id] == sh.nodes[id] && sh'.uniqIdx == sh.uniqIdx
    requires forall l :: l in Labels(sh', id) <==> l in Labels(sh, id) && l !in names
    ensures NoStale(r, reg, sh') <==> !Uncarries(reg, Labels(sh, id), names, sh.nodes[id])
  {
    var held, props := Labels(sh, id), sh.nodes[id];
    assert OwnsAll(r, reg, sh, id);
    if Uncarries(reg, held, names, props) {
      var k :| k in reg.unique && reg.unique[k].name in held && reg.unique[k].name in names &&
          reg.unique[k].prop in props;
      KeyIn(r, reg, k, held, props);
      UnlabelledKeyGone(r, reg, Labels(sh', id), props, k);
      assert !LiveEntry(r, reg, sh', KeyOf(r, reg.unique[k], props));
    } else {
      forall key | key in sh'.uniqIdx ensures LiveEntry(r, reg, sh', key) {
        assert LiveEntry(r, reg, sh, key);
        if sh.uniqIdx[key] == id {
          var k := KeyFrom(r, reg, key, held, props);
          KeyIn(r, reg, k, Labels(sh', id), props);
        }
      }
    }
  }

  lemma UnlabelledKeyGone(r: Render, reg: Registry, names: seq<Str>, props: Props, k: Str)
    requires RegistryOk(reg) && k in reg.unique && reg.unique[k].prop in props && reg.unique[k].name !in names
    ensures KeyOf(r, reg.unique[k], props) !in UniqueKeys(r, reg, names, props)
  {
    var key := KeyOf(r, reg.unique[k], props);
    if key in UniqueKeys(r, reg, names, props) {
      var l := KeyFrom(r, reg, key, names, props);
      SameKey(r, reg, k, props, l, props);
    }
  }

  lemma EraseExact(r: Render, reg: Registry, sh: Shard, id: NodeID)
    requires NoStale(r, reg, sh) && id in sh.nodes
    ensures NoStale(r, reg, EraseNode(r, reg, sh, id))
  {
    var sh' := EraseNode(r, reg, sh, id);
    forall k | k in sh'.uniqIdx ensures LiveEntry(r, reg, sh', k) {
      assert LiveEntry(r, reg, sh, k);
    }
  }

  // ---- node calls -------------------------------------------------------------------------------------------

  /** Where only the owner's shard differs, exactness is decided there. */
  lemma DecidedAtHome(r: Render, db: DB, db': DB, home: nat)
    requires db.Valid() && AllExact(r, db) && home < |db.shards| && OnlyAt(db, db', home) &&
             db'.reg.unique == db.reg.unique
    ensures AllExact(r, db') <==> NoStale(r, db'.reg, db'.shards[home])
  {
    forall i | 0 <= i < |db'.shards| && i != home ensures ExactAt(r, db', i) {
      assert ExactAt(r, db, i);
      assert db'.shards[i].uniqIdx == db.shards[i].uniqIdx;
      SameRegistryExact(r, db.reg, db'.reg, db.shards[i]);
      GrowExact(r, db'.reg, db.shards[i], db'.shards[i]);
    }
    if AllExact(r, db') {
      assert ExactAt(r, db', home);
    }
    if NoStale(r, db'.reg, db'.shards[home]) {
      assert ExactAt(r, db', home);
    }
  }

  lemma SameRegistryExact(r: Render, reg: Registry, reg': Registry, sh: Shard)
    requires reg.unique == reg'.unique && NoStale(r, reg, sh)
    ensures NoStale(r, reg', sh)
  {
    forall k | k in sh.uniqIdx ensures LiveEntry(r, reg', sh, k) {
      assert LiveEntry(r, reg, sh, k);
      var id := sh.uniqIdx[k];
      assert Bearing(reg', Labels(sh, id), sh.nodes[id]) == Bearing(reg, Labels(sh, id), sh.nodes[id]);
    }
  }

  lemma AddNodeExact(r: Render, db: DB, props: Props)
    requires UniqueInv(r, db) && AllExact(r, db) && db.nextNode + 1 < TWO64
    ensures AllExact(r, AddNode(r, db, props).db)
  {
    var id, db' := db.nextNode + 1, AddNode(r, db, props).db;
    var i := db.Home(id);
    assert ExactAt(r, db, i) && RecordsAt(db, i);
    GrowExact(r, db.reg, db.shards[i], db'.shards[i]);
    DecidedAtHome(r, db, db', i);
  }

  lemma AddLabeledShard(r: Render, db: DB, names: seq<Str>, props: Props)
    requires UniqueInv(r, db) && AllExact(r, db) && db.nextNode + 1 < TWO64 && AddNodeWithLabels(r, db, names, props).ok
    ensures NoStale(r, db.reg, AddNodeWithLabels(r, db, names, props).db.ShardOf(db.nextNode + 1))
  {
    var id := db.nextNode + 1;
    assert ExactAt(r, db, db.Home(id)) && RecordsAt(db, db.Home(id));
    IndexExact(r, db.reg, db.ShardOf(id), AddNodeWithLabels(r, db, names, props).db.ShardOf(id), id, names);
  }

  lemma AddLabeledDecides(r: Render, db: DB, names: seq<Str>, props: Props)
    requires UniqueInv(r, db) && AllExact(r, db) && db.nextNode + 1 < TWO64 && AddNodeWithLabels(r, db, names, props).ok
    ensures AllExact(r, AddNodeWithLabels(r, db, names, props).db)
  {
    AddLabeledShard(r, db, names, props);
    AddLabeledFrame(r, db, names, props);
    DecidedAtHome(r, db, AddNodeWithLabels(r, db, names, props).db, db.Home(db.nextNode + 1));
  }

  lemma AddLabeledFrame(r: Render, db: DB, names: seq<Str>, props: Props)
    requires db.Valid() && db.nextNode + 1 < TWO64
    ensures var db' := AddNodeWithLabels(r, db, names, props).db;
            OnlyAt(db, db', db.Home(db.nextNode + 1)) && db'.reg.unique == db.reg.unique
  {
    var db', home := AddNodeWithLabels(r, db, names, props).db, db.Home(db.nextNode + 1);
    assert |db'.shards| == |db.shards| && db'.reg == db.reg;
    forall i {:trigger db'.shards[i]} | 0 <= i < |db.shards| && i != home ensures db'.shards[i] == db.shards[i] {
    }
  }

  lemma AddLabeledExact(r: Render, db: DB, names: seq<Str>, props: Props)
    requires UniqueInv(r, db) && AllExact(r, db) && db.nextNode + 1 < TWO64
    ensures AllExact(r, AddNodeWithLabels(r, db, names, props).db)
  {
    var o := AddNodeWithLabels(r, db, names, props);
    if o.ok {
      AddLabeledDecides(r, db, names, props);
    } else {
      UntouchedExact(r, db, o.db);
    }
  }

  lemma AddLabelExact(r: Render, db: DB, id: NodeID, names: seq<Str>)
    requires UniqueInv(r, db) && AllExact(r, db)
    ensures AllExact(r, AddLabel(r, db, id, names).db)
  {
    var o, i := AddLabel(r, db, id, names), db.Home(id);
    var sh := db.shards[i];
    assert ExactAt(r, db, i);
    if names != [] && id in sh.nodes && o.ok && NewLabels(Labels(sh, id), names) != [] {
      IndexExact(r, db.reg, sh, o.db.shards[i], id, NewLabels(Labels(sh, id), names));
      DecidedAtHome(r, db, o.db, i);
    }
  }

  lemma SetExact(r: Render, db: DB, id: NodeID, props: Props)
    requires UniqueInv(r, db) && AllExact(r, db)
    ensures AllExact(r, SetNodeProps(r, db, id, props).db)
  {
    var o, i := SetNodeProps(r, db, id, props), db.Home(id);
    var sh := db.shards[i];
    if o.ok {
      assert ExactAt(r, db, i) && CoveredAt(r, db, i);
      SameUniqueSide(r, db.reg, sh, Unindex(r, db.reg, sh, id, sh.nodes[id]), id, Labels(sh, id), sh.nodes[id],
                     Labels(sh, id), props, id);
      RewriteExact(r, db.reg, sh, o.db.shards[i], id, sh.nodes[id], props);
      DecidedAtHome(r, db, o.db, i);
    }
  }

  lemma UpdateExactly(r: Render, db: DB, id: NodeID, props: Props)
    requires UniqueInv(r, db) && AllExact(r, db) && UpdateNode(r, db, id, props).ok
    ensures var sh := db.ShardOf(id);
            AllExact(r, UpdateNode(r, db, id, props).db) <==> !Rerenders(r, db.reg, Labels(sh, id), sh.nodes[id], props)
  {
    var o, i := UpdateNode(r, db, id, props), db.Home(id);
    var sh := db.shards[i];
    var merged := sh.nodes[id] + props;
    assert ExactAt(r, db, i) && CoveredAt(r, db, i);
    SameUniqueSide(r, db.reg, sh, Unindex(r, db.reg, sh, id, sh.nodes[id]), id, Labels(sh, id), merged, Labels(sh, id),
                   merged, id);
    RewriteExact(r, db.reg, sh, o.db.shards[i], id, merged, merged);
    MergeKeepsKeys(r, db.reg, Labels(sh, id), sh.nodes[id], props);
    DecidedAtHome(r, db, o.db, i);
  }

  lemma RemoveLabelExactly(r: Render, db: DB, id: NodeID, names: seq<Str>)
    requires UniqueInv(r, db) && AllExact(r, db) && RemoveLabel(db, id, names).log != []
    ensures var sh := db.ShardOf(id);
            AllExact(r, RemoveLabel(db, id, names).db) <==> !Uncarries(db.reg, Labels(sh, id), names, sh.nodes[id])
  {
    var o, i := RemoveLabel(db, id, names), db.Home(id);
    var sh := db.shards[i];
    assert ExactAt(r, db, i) && CoveredAt(r, db, i);
    KeptLabelsAre(Labels(sh, id), names);
    UnlabelExact(r, db.reg, sh, o.db.shards[i], id, names);
    DecidedAtHome(r, db, o.db, i);
  }

  lemma DeleteExact(r: Render, db: DB, id: NodeID, es: seq<Edge>)
    requires UniqueInv(r, db) && AllExact(r, db)
    ensures AllExact(r, DeleteNode(r, db, id, es).db)
  {
    EraseKeepsUnique(db, es);
    EraseRegistry(db, es);
    var mid, o, i := EraseEdges(db, es).db, DeleteNode(r, db, id, es), db.Home(id);
    assert ExactAt(r, db, i) && mid.shards[i].uniqIdx == db.shards[i].uniqIdx;
    GrowExact(r, db.reg, db.shards[i], mid.shards[i]);
    if mid.HasNode(id) {
      EraseExact(r, db.reg, mid.shards[i], id);
      forall j | 0 <= j < |db.shards| && j != i
        ensures o.db.shards[j].nodes == db.shards[j].nodes && o.db.shards[j].labels == db.shards[j].labels &&
                o.db.shards[j].uniqIdx == db.shards[j].uniqIdx
      {
        assert mid.shards[j].uniqIdx == db.shards[j].uniqIdx;
      }
    }
    DecidedAtHome(r, db, o.db, i);
  }

  lemma UntouchedExact(r: Render, db: DB, db': DB)
    requires db.Valid() && AllExact(r, db) && OnlyAt(db, db', |db.shards|) && db'.reg.unique == db.reg.unique
    ensures AllExact(r, db')
  {
    assert db'.shards[0].uniqIdx == db.shards[0].uniqIdx;
    assert ExactAt(r, db, 0);
    SameRegistryExact(r, db.reg, db'.reg, db.shards[0]);
    GrowExact(r, db'.reg, db.shards[0], db'.shards[0]);
    DecidedAtHome(r, db, db', 0);
  }

  lemma BatchExact(r: Render, db: DB, list: seq<Props>)
    requires UniqueInv(r, db) && AllExact(r, db) && db.nextNode + |list| < TWO64
    ensures AllExact(r, AddNodeBatch(db, list).db)
  {
    var db' := AddNodeBatch(db, list).db;
    forall i | 0 <= i < |db'.shards| ensures ExactAt(r, db', i) {
      assert ExactAt(r, db, i) && RecordsAt(db, i);
      BatchCall(db, list, i);
      GrowExact(r, db.reg, db.shards[i], db'.shards[i]);
    }
  }

  // ---- definitions --------------------------------------------------------------------------------------------

  /** Every key the scan for the constraint's label meets is a key of that label. */
  ghost predicate CleanScan(db: DB, c: Constraint) {
    forall i, k :: 0 <= i < |db.shards| && k in db.shards[i].labelIdx && IndexPrefix(c.name) <= k ==>
        exists id: NodeID :: k == IndexKey(c.name, id)
  }

  /** Labels and the constraint's label without NUL bytes are enough for that. */
  lemma NulFreeScansClean(db: DB, c: Constraint)
    requires RecordsOk(db) && NulFree(c.name)
    requires forall i, id :: 0 <= i < |db.shards| && id in db.shards[i].labels ==> AllNulFree(db.shards[i].labels[id])
    ensures CleanScan(db, c)
  {
    forall i, k | 0 <= i < |db.shards| && k in db.shards[i].labelIdx && IndexPrefix(c.name) <= k
      ensures exists id: NodeID :: k == IndexKey(c.name, id)
    {
      assert RecordsAt(db, i);
      var id, l :| id in db.shards[i].labels && l in db.shards[i].labels[id] && k == IndexKey(l, id);
      IndexScanExact(c.name, l, id);
    }
  }

  lemma ContributorCarries(r: Render, db: DB, c: Constraint, i: nat, k: Str, id: NodeID, text: Str)
    requires RecordsOk(db) && CleanScan(db, c) && Contributes(r, c, db, i, k, id, text)
    ensures db.Home(id) == i && Carries(r, c, db.shards[i], id, text)
  {
    var j: NodeID :| k == IndexKey(c.name, j);
    assert k[|IndexPrefix(c.name)|..|IndexPrefix(c.name)| + 8] == EncodeID(j);
    IDRoundTrip(j);
    assert RecordsAt(db, i);
    LabelKeyIn(db.shards[i].labels, c.name, id);
  }

  lemma CreateExactAt(r: Render, db: DB, c: Constraint, i: nat)
    requires UniqueInv(r, db) && AllExact(r, db) && CleanScan(db, c) && i < |db.shards| &&
             CreateUnique(r, db, c).log != []
    ensures NoStale(r, CreateUnique(r, db, c).db.reg, CreateUnique(r, db, c).db.shards[i])
  {
    var db' := CreateUnique(r, db, c).db;
    var sh, sh' := db.shards[i], db'.shards[i];
    assert ExactAt(r, db, i);
    forall k | k in sh'.uniqIdx ensures LiveEntry(r, db'.reg, sh', k) {
      if k in SeenKeys(r, c, db, i) {
        SeenIsLive(r, db, c, i, k);
        var id := Owner(r, c, db, i, k);
        assert db'.reg.unique[RegistryKey(c)] == c;
        KeyIn(r, db'.reg, RegistryKey(c), Labels(sh, id), sh.nodes[id]);
      } else {
        assert LiveEntry(r, db.reg, sh, k);
        FewerKeys(r, db.reg, db'.reg, Labels(sh, sh.uniqIdx[k]), sh.nodes[sh.uniqIdx[k]]);
      }
    }
  }

  lemma SeenIsLive(r: Render, db: DB, c: Constraint, i: nat, key: Str)
    requires RecordsOk(db) && CleanScan(db, c) && i < |db.shards| && key in SeenKeys(r, c, db, i)
    ensures var id := Owner(r, c, db, i, key);
            && id in db.shards[i].nodes && c.name in Labels(db.shards[i], id) && c.prop in db.shards[i].nodes[id]
            && key == KeyOf(r, c, db.shards[i].nodes[id])
  {
    var j, x :| 0 <= j < |db.shards| && x in db.shards[j].nodes && db.Home(x) == i && c.prop in db.shards[j].nodes[x]
      && key == UniqueKey(c.name, c.prop, r(db.shards[j].nodes[x][c.prop])) && Seen(r, c, db, key, x);
    var id := Owner(r, c, db, i, key);
    assert Seen(r, c, db, key, id) && db.Home(id) == i;
    var m: nat, k, text :| Contributes(r, c, db, m, k, id, text) && key == UniqueKey(c.name, c.prop, text);
    ContributorCarries(r, db, c, m, k, id, text);
  }

  lemma DropExactAt(r: Render, db: DB, c: Constraint, i: nat)
    requires UniqueInv(r, db) && AllExact(r, db) && i < |db.shards|
    ensures NoStale(r, DropUnique(db, c).db.reg, DropUnique(db, c).db.shards[i])
  {
    var db' := DropUnique(db, c).db;
    var sh, sh' := db.shards[i], db'.shards[i];
    assert ExactAt(r, db, i);
    if RegistryKey(c) in db.reg.unique {
      forall k | k in sh'.uniqIdx ensures LiveEntry(r, db'.reg, sh', k) {
        assert LiveEntry(r, db.reg, sh, k);
        var names, props := Labels(sh, sh.uniqIdx[k]), sh.nodes[sh.uniqIdx[k]];
        var x := KeyFrom(r, db.reg, k, names, props);
        var d := db.reg.unique[x];
        KeyIs(d, r(props[d.prop]));
        if x == RegistryKey(c) {
          SamePrefix(c, d);
        }
        KeyIn(r, db'.reg, x, names, props);
      }
    }
  }

  lemma ConstraintCallExact(r: Render, db: DB, call: Call)
    requires UniqueInv(r, db) && AllExact(r, db) && (call.CreateUniqueCall? || call.DropUniqueCall?)
    requires call.CreateUniqueCall? ==> CleanScan(db, call.c)
    ensures AllExact(r, Execute(r, db, call).db)
  {
    var db' := Execute(r, db, call).db;
    forall i | 0 <= i < |db'.shards| ensures ExactAt(r, db', i) {
      assert ExactAt(r, db, i);
      if call.DropUniqueCall? {
        DropExactAt(r, db, call.c, i);
      } else if CreateUnique(r, db, call.c).log != [] {
        CreateExactAt(r, db, call.c, i);
      }
    }
  }

  lemma IndexCallExact(r: Render, db: DB, call: Call)
    requires UniqueInv(r, db) && AllExact(r, db) &&
             (call.CreateIndexCall? || call.DropIndexCall? || call.CreateCompositeCall? || call.DropCompositeCall?)
    ensures AllExact(r, Execute(r, db, call).db)
  {
    match call {
      case CreateIndexCall(p) => IndexCallOnly(r, db, p, []);
      case DropIndexCall(p) => IndexCallOnly(r, db, p, []);
      case CreateCompositeCall(names) => IndexCallOnly(r, db, [], names);
      case DropCompositeCall(names) => IndexCallOnly(r, db, [], names);
    }
    UntouchedExact(r, db, Execute(r, db, call).db);
  }

  // ---- the theorem ------------------------------------------------------------------------------------------

  /**
   A successful UpdateNode that renders a constrained property under a held label anew, or a
   RemoveLabel of a held constrained label whose property the node has.
   */
  ghost predicate LeavesStale(r: Render, db: DB, call: Call)
    requires db.Valid()
  {
    match call
    case UpdateNodeCall(id, props) =>
      UpdateNode(r, db, id, props).ok &&
          Rerenders(r, db.reg, Labels(db.ShardOf(id), id), db.ShardOf(id).nodes[id], props)
    case RemoveLabelCall(id, names) =>
      RemoveLabel(db, id, names).log != [] &&
          Uncarries(db.reg, Labels(db.ShardOf(id), id), names, db.ShardOf(id).nodes[id])
    case _ => false
  }

  lemma QuietCallExact(r: Render, db: DB, call: Call)
    requires UniqueInv(r, db) && AllExact(r, db) && Room(db, call) && !call.UpdateNodeCall? && !call.RemoveLabelCall? &&
             !IsDefinition(call)
    ensures AllExact(r, Execute(r, db, call).db)
  {
    match call
    case AddNodeCall(props) => AddNodeExact(r, db, props);
    case AddNodeBatchCall(list) => BatchExact(r, db, list);
    case SetNodePropsCall(id, props) => SetExact(r, db, id, props);
    case DeleteNodeCall(id, es) => DeleteExact(r, db, id, es);
    case AddNodeWithLabelsCall(names, props) => AddLabeledExact(r, db, names, props);
    case AddLabelCall(id, names) => AddLabelExact(r, db, id, names);
    case AddEdgeCall(_, _, _, _) => EdgeCallExact(r, db, call);
    case AddEdgeBatchCall(_) => EdgeCallExact(r, db, call);
    case DeleteEdgeCall(_) => EdgeCallExact(r, db, call);
    case UpdateEdgeCall(_, _) => EdgeCallExact(r, db, call);
  }

  lemma EdgeCallExact(r: Render, db: DB, call: Call)
    requires db.Valid() && AllExact(r, db) && Room(db, call) && IsEdgeCall(call)
    ensures AllExact(r, Execute(r, db, call).db)
  {
    EdgeCallOnly(r, db, call);
    DataKeepsRegistry(r, db, call);
    UntouchedExact(r, db, Execute(r, db, call).db);
  }

  /**
   From an exact index every call leaves an exact index, except exactly the two that leave
   a stale entry. Creating a constraint is taken with a scan that meets its own label only.
   */
  lemma ExactnessExactly(r: Render, db: DB, call: Call)
    requires UniqueInv(r, db) && AllExact(r, db) && Room(db, call) && (call.CreateUniqueCall? ==> CleanScan(db, call.c))
    ensures AllExact(r, Execute(r, db, call).db) <==> !LeavesStale(r, db, call)
  {
    match call
    case UpdateNodeCall(id, props) =>
      if UpdateNode(r, db, id, props).ok {
        UpdateExactly(r, db, id, props);
      }
    case RemoveLabelCall(id, names) =>
      if RemoveLabel(db, id, names).log != [] {
        RemoveLabelExactly(r, db, id, names);
      }
    case CreateUniqueCall(_) => ConstraintCallExact(r, db, call);
    case DropUniqueCall(_) => ConstraintCallExact(r, db, call);
    case CreateIndexCall(_) => IndexCallExact(r, db, call);
    case DropIndexCall(_) => IndexCallExact(r, db, call);
    case CreateCompositeCall(_) => IndexCallExact(r, db, call);
    case DropCompositeCall(_) => IndexCallExact(r, db, call);
    case AddNodeCall(_) => QuietCallExact(r, db, call);
    case AddNodeBatchCall(_) => QuietCallExact(r, db, call);
    case SetNodePropsCall(_, _) => QuietCallExact(r, db, call);
    case DeleteNodeCall(_, _) => QuietCallExact(r, db, call);
    case AddNodeWithLabelsCall(_, _) => QuietCallExact(r, db, call);
    case AddLabelCall(_, _) => QuietCallExact(r, db, call);
    case AddEdgeCall(_, _, _, _) => QuietCallExact(r, db, call);
    case AddEdgeBatchCall(_) => QuietCallExact(r, db, call);
    case DeleteEdgeCall(_) => QuietCallExact(r, db, call);
    case UpdateEdgeCall(_, _) => QuietCallExact(r, db, call);
  }

  // ---- justified refusals --------------------------------------------------------------------------------------

  /** Another live node of the shard carries one of the values. */
  ghost predicate Taken(r: Render, reg: Registry, sh: Shard, names: seq<Str>, props: Props, exclude: NodeID) {
    exists k, j: NodeID :: k in reg.unique && reg.unique[k].name in names && reg.unique[k].prop in props && j != exclude
                   && Carries(r, reg.unique[k], sh, j, r(props[reg.unique[k].prop]))
  }

  /** In an exact shard the check fails exactly when a value is taken. */
  lemma ViolationExactly(r: Render, reg: Registry, sh: Shard, names: seq<Str>, props: Props, exclude: NodeID)
    requires RegistryOk(reg) && Covered(r, reg, sh) && NoStale(r, reg, sh)
    ensures Violates(r, reg, sh, names, props, exclude) <==> Taken(r, reg, sh, names, props, exclude)
  {
    if Violates(r, reg, sh, names, props, exclude) {
      var key :| key in UniqueKeys(r, reg, names, props) && key in sh.uniqIdx && sh.uniqIdx[key] != exclude;
      var k := KeyFrom(r, reg, key, names, props);
      var j := sh.uniqIdx[key];
      assert LiveEntry(r, reg, sh, key);
      var l := KeyFrom(r, reg, key, Labels(sh, j), sh.nodes[j]);
      SameKey(r, reg, k, props, l, sh.nodes[j]);
      assert Carries(r, reg.unique[k], sh, j, r(props[reg.unique[k].prop]));
    }
    if Taken(r, reg, sh, names, props, exclude) {
      var k, j: NodeID :| k in reg.unique && reg.unique[k].name in names && reg.unique[k].prop in props && j != exclude
        && Carries(r, reg.unique[k], sh, j, r(props[reg.unique[k].prop]));
      assert OwnsAll(r, reg, sh, j);
      KeyIn(r, reg, k, Labels(sh, j), sh.nodes[j]);
      KeyIn(r, reg, k, names, props);
    }
  }

  /** The key the scan met is the index key of the node it names. */
  lemma ContributorKey(r: Render, db: DB, c: Constraint, i: nat, k: Str, id: NodeID, text: Str)
    requires CleanScan(db, c) && Contributes(r, c, db, i, k, id, text)
    ensures k == IndexKey(c.name, id)
  {
    var j: NodeID :| k == IndexKey(c.name, j);
    assert k[|IndexPrefix(c.name)|..|IndexPrefix(c.name)| + 8] == EncodeID(j);
    IDRoundTrip(j);
  }

  /** Two different nodes, in whatever shards, carry one value of the constraint. */
  ghost predicate CarriedTwice(r: Render, c: Constraint, db: DB) {
    exists a: NodeID, b: NodeID, text :: a != b && Carried(r, c, db, a, text) && Carried(r, c, db, b, text)
  }

  lemma DifferentContributors(r: Render, db: DB, c: Constraint, i: nat, k: Str, a: NodeID, j: nat, k': Str, b: NodeID,
      text: Str)
    requires RecordsOk(db) && CleanScan(db, c) && (i, k) != (j, k')
    requires Contributes(r, c, db, i, k, a, text) && Contributes(r, c, db, j, k', b, text)
    ensures a != b && Carried(r, c, db, a, text) && Carried(r, c, db, b, text)
  {
    ContributorCarries(r, db, c, i, k, a, text);
    ContributorCarries(r, db, c, j, k', b, text);
    ContributorKey(r, db, c, i, k, a, text);
    ContributorKey(r, db, c, j, k', b, text);
  }

  lemma CarriersDuplicate(r: Render, db: DB, c: Constraint, a: NodeID, i: nat, b: NodeID, j: nat, text: Str)
    requires RecordsOk(db) && a != b && i < |db.shards| && j < |db.shards|
    requires Carries(r, c, db.shards[i], a, text) && Carries(r, c, db.shards[j], b, text)
    ensures Duplicated(r, c, db)
  {
    LiveIsScanned(r, db, c, i, a);
    LiveIsScanned(r, db, c, j, b);
    var k, k' := IndexKey(c.name, a), IndexKey(c.name, b);
    if k == k' {
      IndexKeyInjective(c.name, a, c.name, b);
    }
    assert Repeats(r, c, db, i, k, a, j, k', b, text);
  }

  /** A new constraint is refused exactly when two nodes of the whole database carry one value. */
  lemma CreateRefusedExactly(r: Render, db: DB, c: Constraint)
    requires RecordsOk(db) && CleanScan(db, c) && RegistryKey(c) !in db.reg.unique
    ensures CreateUnique(r, db, c).ok <==> !CarriedTwice(r, c, db)
  {
    if Duplicated(r, c, db) {
      var i: nat, k, a: NodeID, j: nat, k', b: NodeID, text :| Repeats(r, c, db, i, k, a, j, k', b, text);
      DifferentContributors(r, db, c, i, k, a, j, k', b, text);
    }
    if CarriedTwice(r, c, db) {
      var a: NodeID, b: NodeID, text :| a != b && Carried(r, c, db, a, text) && Carried(r, c, db, b, text);
      var i: nat :| i < |db.shards| && Carries(r, c, db.shards[i], a, text);
      var j: nat :| j < |db.shards| && Carries(r, c, db.shards[j], b, text);
      CarriersDuplicate(r, db, c, a, i, b, j, text);
    }
  }

  /** Dropping one's own entries first changes no verdict about others. */
  lemma OwnEntriesDontCount(r: Render, reg: Registry, sh: Shard, id: NodeID, names: seq<Str>, dropped: Props,
      props: Props)
    ensures Violates(r, reg, UnindexUnique(r, reg, sh, id, names, dropped), names, props, id) <==>
              Violates(r, reg, sh, names, props, id)
  {
    var sh' := UnindexUnique(r, reg, sh, id, names, dropped);
    if Violates(r, reg, sh, names, props, id) {
      var key :| key in UniqueKeys(r, reg, names, props) && key in sh.uniqIdx && sh.uniqIdx[key] != id;
      assert key in sh'.uniqIdx && sh'.uniqIdx[key] == sh.uniqIdx[key];
    }
  }

  /** AddNodeWithLabels is refused exactly when a node of the new node's shard carries one of its values. */
  lemma AddRefusedExactly(r: Render, db: DB, names: seq<Str>, props: Props)
    requires UniqueInv(r, db) && AllExact(r, db) && db.nextNode + 1 < TWO64
    ensures !AddNodeWithLabels(r, db, names, props).ok <==>
              Taken(r, db.reg, db.ShardOf(db.nextNode + 1), names, props, 0)
  {
    var i := db.Home(db.nextNode + 1);
    assert ExactAt(r, db, i) && CoveredAt(r, db, i);
    ViolationExactly(r, db.reg, db.shards[i], names, props, 0);
  }

  /** UpdateNode and SetNodeProps are refused exactly when another node carries one of the resulting values. */
  lemma RewriteRefusedExactly(r: Render, db: DB, id: NodeID, props: Props)
    requires UniqueInv(r, db) && AllExact(r, db) && db.HasNode(id)
    ensures var sh := db.ShardOf(id);
            && (!UpdateNode(r, db, id, props).ok <==> Taken(r, db.reg, sh, Labels(sh, id), sh.nodes[id] + props, id))
            && (!SetNodeProps(r, db, id, props).ok <==> Taken(r, db.reg, sh, Labels(sh, id), props, id))
  {
    var i := db.Home(id);
    var sh := db.shards[i];
    assert ExactAt(r, db, i) && CoveredAt(r, db, i);
    var names, was, merged := Labels(sh, id), sh.nodes[id], sh.nodes[id] + props;
    var sh1 := Unindex(r, db.reg, sh, id, was);
    SameUniqueSide(r, db.reg, sh, sh1, id, names, merged, names, merged, id);
    SameUniqueSide(r, db.reg, sh, sh1, id, names, was, names, props, id);
    OwnEntriesDontCount(r, db.reg, sh, id, names, merged, merged);
    OwnEntriesDontCount(r, db.reg, sh, id, names, was, props);
    ViolationExactly(r, db.reg, sh, names, merged, id);
    ViolationExactly(r, db.reg, sh, names, props, id);
  }

  /** AddLabel is refused exactly when another node carries the node's value under one of the named labels. */
  lemma AddLabelRefusedExactly(r: Render, db: DB, id: NodeID, names: seq<Str>)
    requires UniqueInv(r, db) && AllExact(r, db) && db.HasNode(id)
    ensures !AddLabel(r, db, id, names).ok <==> Taken(r, db.reg, db.ShardOf(id), names, db.ShardOf(id).nodes[id], id)
  {
    var i := db.Home(id);
    var sh := db.shards[i];
    assert ExactAt(r, db, i) && CoveredAt(r, db, i);
    var added := NewLabels(Labels(sh, id), names);
    NewLabelsAre(Labels(sh, id), names);
    ViolationExactly(r, db.reg, sh, added, sh.nodes[id], id);
    HeldIsNotTaken(r, db, i, id, names);
  }

  lemma HeldIsNotTaken(r: Render, db: DB, i: nat, id: NodeID, names: seq<Str>)
    requires UniqueInv(r, db) && i < |db.shards| && id in db.shards[i].nodes
    ensures var sh := db.shards[i];
            Taken(r, db.reg, sh, names, sh.nodes[id], id) <==>
                Taken(r, db.reg, sh, NewLabels(Labels(sh, id), names), sh.nodes[id], id)
  {
    var sh := db.shards[i];
    NewLabelsAre(Labels(sh, id), names);
    if Taken(r, db.reg, sh, names, sh.nodes[id], id) {
      var k, j: NodeID :| k in db.reg.unique && db.reg.unique[k].name in names &&
          db.reg.unique[k].prop in sh.nodes[id] && j != id
        && Carries(r, db.reg.unique[k], sh, j, r(sh.nodes[id][db.reg.unique[k].prop]));
      if db.reg.unique[k].name in Labels(sh, id) {
        ShardIsUnique(r, db, k, i, id, j, r(sh.nodes[id][db.reg.unique[k].prop]));
      }
    }
  }

  // ---- unjustified refusals --------------------------------------------------------------------------------------

  /** The index names `id` for a value it does not carry, and so refuses the value to every other node. */
  ghost predicate Blocks(r: Render, reg: Registry, sh: Shard, k: Str, id: NodeID, text: Str)
    requires k in reg.unique
  {
    var c := reg.unique[k];
    && UniqueKey(c.name, c.prop, text) in sh.uniqIdx && sh.uniqIdx[UniqueKey(c.name, c.prop, text)] == id
    && !Carries(r, c, sh, id, text)
    && forall names, props, exclude ::
         c.name in names && c.prop in props && r(props[c.prop]) == text && exclude != id ==>
         Violates(r, reg, sh, names, props, exclude)
  }

  lemma EntryBlocks(r: Render, reg: Registry, sh: Shard, k: Str, id: NodeID, text: Str)
    requires k in reg.unique && !Carries(r, reg.unique[k], sh, id, text)
    requires var key := UniqueKey(reg.unique[k].name, reg.unique[k].prop, text);
             key in sh.uniqIdx && sh.uniqIdx[key] == id
    ensures Blocks(r, reg, sh, k, id, text)
  {
    var c := reg.unique[k];
    forall names, props: Props, exclude: NodeID | c.name in names && c.prop in props && r(props[c.prop]) == text &&
        exclude != id
      ensures Violates(r, reg, sh, names, props, exclude)
    {
      KeyIn(r, reg, k, names, props);
    }
  }

  /** UpdateNode to another rendering keeps the old value blocked. */
  lemma UpdateBlocksOldValue(r: Render, db: DB, id: NodeID, props: Props, k: Str)
    requires UniqueInv(r, db) && k in db.reg.unique && UpdateNode(r, db, id, props).ok
    requires var sh, c := db.ShardOf(id), db.reg.unique[k];
             c.name in Labels(sh, id) && c.prop in sh.nodes[id] && c.prop in props &&
                 r(sh.nodes[id][c.prop]) != r(props[c.prop])
    ensures Blocks(r, db.reg, UpdateNode(r, db, id, props).db.ShardOf(id), k, id,
                   r(db.ShardOf(id).nodes[id][db.reg.unique[k].prop]))
  {
    var i := db.Home(id);
    var sh, sh' := db.shards[i], UpdateNode(r, db, id, props).db.shards[i];
    var merged := sh.nodes[id] + props;
    assert CoveredAt(r, db, i) && OwnsAll(r, db.reg, sh, id);
    KeyIn(r, db.reg, k, Labels(sh, id), sh.nodes[id]);
    RerenderedKeyGone(r, db.reg, Labels(sh, id), sh.nodes[id], merged, k);
    SameUniqueSide(r, db.reg, sh, Unindex(r, db.reg, sh, id, sh.nodes[id]), id, Labels(sh, id), merged, Labels(sh, id),
                   merged, id);
    EntryBlocks(r, db.reg, sh', k, id, r(sh.nodes[id][db.reg.unique[k].prop]));
  }

  /** RemoveLabel keeps the value blocked under the removed label. */
  lemma RemoveLabelBlocksValue(r: Render, db: DB, id: NodeID, names: seq<Str>, k: Str)
    requires UniqueInv(r, db) && k in db.reg.unique && db.HasNode(id)
    requires var sh, c := db.ShardOf(id), db.reg.unique[k];
             c.name in Labels(sh, id) && c.name in names && c.prop in sh.nodes[id]
    ensures Blocks(r, db.reg, RemoveLabel(db, id, names).db.ShardOf(id), k, id,
                   r(db.ShardOf(id).nodes[id][db.reg.unique[k].prop]))
  {
    var i := db.Home(id);
    var sh := db.shards[i];
    assert CoveredAt(r, db, i) && OwnsAll(r, db.reg, sh, id);
    KeyIn(r, db.reg, k, Labels(sh, id), sh.nodes[id]);
    KeptLabelsAre(Labels(sh, id), names);
    EntryBlocks(r, db.reg, RemoveLabel(db, id, names).db.shards[i], k, id, r(sh.nodes[id][db.reg.unique[k].prop]));
  }

  // ---- lookups -----------------------------------------------------------------------------------------------

  /** In an exact shard the entry of a value names its carrier. */
  lemma EntryCarries(r: Render, reg: Registry, sh: Shard, k: Str, v: Value, id: NodeID)
    requires RegistryOk(reg) && Covered(r, reg, sh) && NoStale(r, reg, sh) && k in reg.unique
    ensures var key := UniqueKey(reg.unique[k].name, reg.unique[k].prop, r(v));
            key in sh.uniqIdx && sh.uniqIdx[key] == id <==> Carries(r, reg.unique[k], sh, id, r(v))
  {
    var c := reg.unique[k];
    var key, props := UniqueKey(c.name, c.prop, r(v)), map[c.prop := v];
    if key in sh.uniqIdx && sh.uniqIdx[key] == id {
      assert LiveEntry(r, reg, sh, key);
      var l := KeyFrom(r, reg, key, Labels(sh, id), sh.nodes[id]);
      SameKey(r, reg, k, props, l, sh.nodes[id]);
    }
    if Carries(r, c, sh, id, r(v)) {
      assert OwnsAll(r, reg, sh, id);
      KeyIn(r, reg, k, Labels(sh, id), sh.nodes[id]);
    }
  }

  /**
   FindByUniqueConstraint: the first shard with an entry answers. In an exact index that is a
   carrier, if there is any.
   */
  method FindByUnique(r: Render, db: DB, c: Constraint, v: Value) returns (found: Option<NodeID>)
    ensures found.None? <==>
              forall i :: 0 <= i < |db.shards| ==> UniqueKey(c.name, c.prop, r(v)) !in db.shards[i].uniqIdx
    ensures found.Some? ==> exists i :: 0 <= i < |db.shards| && UniqueKey(c.name, c.prop, r(v)) in db.shards[i].uniqIdx
                                        && db.shards[i].uniqIdx[UniqueKey(c.name, c.prop, r(v))] == found.value
    ensures UniqueInv(r, db) && AllExact(r, db) && RegistryKey(c) in db.reg.unique &&
            db.reg.unique[RegistryKey(c)] == c ==>
              && (found.Some? ==> Carried(r, c, db, found.value, r(v)))
              && (found.None? ==> forall id :: !Carried(r, c, db, id, r(v)))
  {
    var key := UniqueKey(c.name, c.prop, r(v));
    ghost var exact := UniqueInv(r, db) && AllExact(r, db) && RegistryKey(c) in db.reg.unique &&
        db.reg.unique[RegistryKey(c)] == c;
    for i := 0 to |db.shards|
      invariant forall j :: 0 <= j < i ==> key !in db.shards[j].uniqIdx
    {
      if key in db.shards[i].uniqIdx {
        if exact {
          assert ExactAt(r, db, i) && CoveredAt(r, db, i);
          EntryCarries(r, db.reg, db.shards[i], RegistryKey(c), v, db.shards[i].uniqIdx[key]);
        }
        return Some(db.shards[i].uniqIdx[key]);
      }
    }
    found := None;
    if exact {
      forall id, i | 0 <= i < |db.shards| ensures !Carries(r, c, db.shards[i], id, r(v)) {
        assert ExactAt(r, db, i) && CoveredAt(r, db, i);
        EntryCarries(r, db.reg, db.shards[i], RegistryKey(c), v, id);
      }
    }
  }

  // ---- two runs from a new database ------------------------------------------------------------------------------

  lemma StartIsExact(r: Render, c: Constraint)
    ensures Placed(Start(1, c)) && UniqueInv(r, Start(1, c)) && AllExact(r, Start(1, c))
  {
    NewIsUnique(r, 1);
    StartIsReached(r, 1, c);
    CallKeepsPlaced(r, NewDB(1), CreateUniqueCall(c));
    CallKeepsUniqueInv(r, NewDB(1), CreateUniqueCall(c));
    assert ExactAt(r, Start(1, c), 0);
  }

  /** One shard, one constraint, one labelled node with the value. */
  ghost predicate OneCarrier(r: Render, db: DB, c: Constraint, a: Value) {
    && Placed(db) && UniqueInv(r, db) && AllExact(r, db) && |db.shards| == 1 && db.nextNode == 1
    && db.reg == Start(1, c).reg
    && db.shards[0].nodes == map[1 := map[c.prop := a]] && Labels(db.shards[0], 1) == [c.name]
  }

  lemma CarrierAdded(r: Render, c: Constraint, a: Value) returns (db: DB)
    ensures db == AddNodeWithLabels(r, Start(1, c), [c.name], map[c.prop := a]).db && OneCarrier(r, db, c, a)
  {
    var db0 := Start(1, c);
    StartIsExact(r, c);
    AddAtFresh(r, db0, c, a);
    ExecuteAdd(r, db0, [c.name], map[c.prop := a]);
    db := AddNodeWithLabels(r, db0, [c.name], map[c.prop := a]).db;
    CallKeepsPlaced(r, db0, AddNodeWithLabelsCall([c.name], map[c.prop := a]));
    CallKeepsUniqueInv(r, db0, AddNodeWithLabelsCall([c.name], map[c.prop := a]));
    AddLabeledExact(r, db0, [c.name], map[c.prop := a]);
  }

  /** The value is carried by no node and refused all the same. */
  ghost predicate RefusedThoughFree(r: Render, db: DB, c: Constraint, a: Value) {
    && db.Valid() && db.nextNode + 1 < TWO64
    && (forall id: NodeID :: !Carried(r, c, db, id, r(a)))
    && !AddNodeWithLabels(r, db, [c.name], map[c.prop := a]).ok
  }

  function UpdatingRun(c: Constraint, a: Value, last: Call): seq<Call> {
    [CreateUniqueCall(c)] + ([AddNodeWithLabelsCall([c.name], map[c.prop := a])] + ([last] + []))
  }

  lemma RunReaches(r: Render, c: Constraint, a: Value, last: Call, db: DB)
    requires OneCarrier(r, db, c, a) && db == AddNodeWithLabels(r, Start(1, c), [c.name], map[c.prop := a]).db
    requires Room(db, last) && Execute(r, db, last).db.Valid()
    ensures RoomFor(r, NewDB(1), UpdatingRun(c, a, last)) &&
            Run(r, NewDB(1), UpdatingRun(c, a, last)).0 == Execute(r, db, last).db
  {
    var add := AddNodeWithLabelsCall([c.name], map[c.prop := a]);
    RunFirst(r, db, last, []);
    ExecuteAdd(r, Start(1, c), [c.name], map[c.prop := a]);
    RunFirst(r, Start(1, c), add, [last] + []);
    StartIsReached(r, 1, c);
    RunFirst(r, NewDB(1), CreateUniqueCall(c), [add] + ([last] + []));
  }

  lemma UpdateAccepted(r: Render, db: DB, c: Constraint, a: Value, b: Value)
    requires OneCarrier(r, db, c, a)
    ensures UpdateNode(r, db, 1, map[c.prop := b]).ok
  {
    assert db.Home(1) == 0;
    RewriteRefusedExactly(r, db, 1, map[c.prop := b]);
  }

  lemma UpdateShape(r: Render, db: DB, id: NodeID, props: Props)
    requires db.Valid() && UpdateNode(r, db, id, props).ok
    ensures var db' := UpdateNode(r, db, id, props).db;
            && |db'.shards| == |db.shards| && db'.nextNode == db.nextNode && db'.reg == db.reg
            && db'.ShardOf(id).nodes == db.ShardOf(id).nodes[id := db.ShardOf(id).nodes[id] + props]
  {
  }

  lemma AfterUpdate(r: Render, db: DB, c: Constraint, a: Value, b: Value)
    requires OneCarrier(r, db, c, a) && r(a) != r(b)
    ensures RefusedThoughFree(r, UpdateNode(r, db, 1, map[c.prop := b]).db, c, a)
  {
    var props := map[c.prop := b];
    assert db.reg.unique[RegistryKey(c)] == c && db.Home(1) == 0;
    UpdateAccepted(r, db, c, a, b);
    UpdateShape(r, db, 1, props);
    UpdateBlocksOldValue(r, db, 1, props, RegistryKey(c));
    FreeButBlocked(r, UpdateNode(r, db, 1, props).db, c, a);
  }

  /** One shard with node 1 alone, which blocks a value it does not carry. */
  lemma FreeButBlocked(r: Render, db: DB, c: Constraint, a: Value)
    requires |db.shards| == 1 && db.nextNode == 1 && RegistryKey(c) in db.reg.unique &&
             db.reg.unique[RegistryKey(c)] == c
    requires db.shards[0].nodes.Keys == {1} && Blocks(r, db.reg, db.shards[0], RegistryKey(c), 1, r(a))
    ensures RefusedThoughFree(r, db, c, a)
  {
  }

  lemma AfterRemoval(r: Render, db: DB, c: Constraint, a: Value)
    requires OneCarrier(r, db, c, a)
    ensures RefusedThoughFree(r, RemoveLabel(db, 1, [c.name]).db, c, a)
  {
    assert db.reg.unique[RegistryKey(c)] == c;
    assert db.Home(1) == 0;
    RemoveLabelBlocksValue(r, db, 1, [c.name], RegistryKey(c));
    FreeButBlocked(r, RemoveLabel(db, 1, [c.name]).db, c, a);
  }

  /** A value given up by UpdateNode is refused to the next node. */
  lemma UpdatedAwayIsRefused(r: Render, c: Constraint, a: Value, b: Value)
    requires r(a) != r(b)
    ensures var calls := UpdatingRun(c, a, UpdateNodeCall(1, map[c.prop := b]));
            RoomFor(r, NewDB(1), calls) && RefusedThoughFree(r, Run(r, NewDB(1), calls).0, c, a)
  {
    var db := CarrierAdded(r, c, a);
    AfterUpdate(r, db, c, a, b);
    RunReaches(r, c, a, UpdateNodeCall(1, map[c.prop := b]), db);
  }

  /** And so is a value whose label was removed. */
  lemma UnlabelledIsRefused(r: Render, c: Constraint, a: Value)
    ensures var calls := UpdatingRun(c, a, RemoveLabelCall(1, [c.name]));
            RoomFor(r, NewDB(1), calls) && RefusedThoughFree(r, Run(r, NewDB(1), calls).0, c, a)
  {
    var db := CarrierAdded(r, c, a);
    AfterRemoval(r, db, c, a);
    RunReaches(r, c, a, RemoveLabelCall(1, [c.name]), db);
  }

  // ---- runs ------------------------------------------------------------------------------------------------------

  /** No call of the run leaves a stale entry; constraints are apart and their scans clean when created. */
  ghost predicate CleanRun(r: Render, db: DB, calls: seq<Call>)
    requires db.Valid() && RoomFor(r, db, calls)
    decreases |calls|
  {
    calls == [] ||
    (&& Separate(db.reg, calls[0]) && !LeavesStale(r, db, calls[0]) &&
     (calls[0].CreateUniqueCall? ==> CleanScan(db, calls[0].c))
     && CleanRun(r, Execute(r, db, calls[0]).db, calls[1..]))
  }

  /** After such a run every entry of the unique index is live, and every live value has its entry. */
  lemma {:induction false} RunStaysExact(r: Render, db: DB, calls: seq<Call>)
    requires Placed(db) && UniqueInv(r, db) && AllExact(r, db) && RoomFor(r, db, calls) && CleanRun(r, db, calls)
    ensures UniqueInv(r, Run(r, db, calls).0) && AllExact(r, Run(r, db, calls).0)
    decreases |calls|
  {
    if calls != [] {
      CallKeepsPlaced(r, db, calls[0]);
      CallKeepsUniqueInv(r, db, calls[0]);
      ExactnessExactly(r, db, calls[0]);
      RunStaysExact(r, Execute(r, db, calls[0]).db, calls[1..]);
    }
  }
}
