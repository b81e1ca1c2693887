/**
 FindByProperty, FindByLabel and FindByCompositeIndex: prefix seeks over the index
 buckets, proved to return, shard by shard in ID order, exactly the nodes a scan of the
 records would.
 */
module Lookups {
  import opened Types
  import opened Values
  import opened Keys
  import opened Cursor
  import opened Store
  import opened Leader
  import opened Replay
  import opened Commute
  import opened NodeState
  import opened Indexes

  // ---- what a scan would find ----------------------------------------------------------------------

  ghost function Having(r: Render, sh: Shard, p: Str, text: Str): set<NodeID> {
    set id | id in sh.nodes && p in sh.nodes[id] && r(sh.nodes[id][p]) == text
  }

  ghost function Labelled(sh: Shard, l: Str): set<NodeID> {
    set id | id in sh.nodes && l in Labels(sh, id)
  }

  ghost predicate MatchesAll(r: Render, filters: Props, props: Props) {
    forall p :: p in filters ==> p in props && r(props[p]) == r(filters[p])
  }

  ghost function Matching(r: Render, sh: Shard, filters: Props): set<NodeID> {
    set id | id in sh.nodes && MatchesAll(r, filters, sh.nodes[id])
  }

  /** What each shard yields, one shard after the other. */
  ghost function Gather(shards: seq<Shard>, give: Shard -> seq<NodeID>): seq<NodeID> {
    if shards == [] then [] else Gather(shards[..|shards| - 1], give) + give(shards[|shards| - 1])
  }

  lemma {:induction false} GatherSame(shards: seq<Shard>, f: Shard -> seq<NodeID>, g: Shard -> seq<NodeID>)
    requires forall i :: 0 <= i < |shards| ==> f(shards[i]) == g(shards[i])
    ensures Gather(shards, f) == Gather(shards, g)
  {
    if shards != [] {
      GatherSame(shards[..|shards| - 1], f, g);
    }
  }

  /** The hits of every shard, one shard after the other, each in ID order: what a scan of the records finds. */
  ghost function PerShard(shards: seq<Shard>, hits: Shard -> set<NodeID>): seq<NodeID> {
    Gather(shards, sh => Ascending(hits(sh)))
  }

  // ---- the keys a seek meets ------------------------------------------------------------------------

  /** Rendered values hold no NUL. */
  ghost predicate TextsOk(r: Render, sh: Shard) {
    forall id, p :: id in sh.nodes && p in sh.nodes[id] ==> NulFree(r(sh.nodes[id][p]))
  }

  lemma IndexKeySplits(text: Str, id: uint64)
    ensures IndexKey(text, id) == IndexPrefix(text) + EncodeID(id)
  {
  }

  lemma PropTextNulFree(p: Str, text: Str)
    requires PlainName(p) && NulFree(text)
    ensures NulFree(PropText(p, text))
  {
  }

  /** The seek for "name:value" meets exactly the entries of the nodes that have it. */
  lemma PropScan(r: Render, reg: Registry, sh: Shard, p: Str, text: Str, stale: set<Str>)
    requires PropsOk(r, reg, sh, stale) && NamesOk(reg) && TextsOk(r, sh) && p in reg.indexed - stale && NulFree(text)
    ensures var prefix := IndexPrefix(PropText(p, text));
            Met(sh.propIdx, prefix) == KeyedBy(prefix, Having(r, sh, p, text))
  {
    var prefix := IndexPrefix(PropText(p, text));
    PropTextNulFree(p, text);
    forall k | k in Met(sh.propIdx, prefix) ensures k in KeyedBy(prefix, Having(r, sh, p, text)) {
      var id, q := PropEntryOwner(r, reg.indexed, sh.nodes, k);
      var w := r(sh.nodes[id][q]);
      PropTextNulFree(q, w);
      IndexScanExact(PropText(p, text), PropText(q, w), id);
      PropTextInjective(p, text, q, w);
      IndexKeySplits(PropText(p, text), id);
    }
    forall k | k in KeyedBy(prefix, Having(r, sh, p, text)) ensures k in Met(sh.propIdx, prefix) {
      var id :| id in Having(r, sh, p, text) && k == prefix + EncodeID(id);
      IndexKeySplits(PropText(p, text), id);
      PropEntryIn(r, reg.indexed - stale, sh.nodes, id, p);
    }
  }

  ghost predicate LabelTextsOk(sh: Shard) {
    forall id :: id in sh.labels ==> AllNulFree(sh.labels[id])
  }

  lemma LabelScan(sh: Shard, l: Str)
    requires LabelsOk(sh) && LabelTextsOk(sh) && NulFree(l)
    ensures Met(sh.labelIdx, IndexPrefix(l)) == KeyedBy(IndexPrefix(l), Labelled(sh, l))
  {
    forall k | k in Met(sh.labelIdx, IndexPrefix(l)) ensures k in KeyedBy(IndexPrefix(l), Labelled(sh, l)) {
      var id, m :| id in sh.labels && m in sh.labels[id] && k == IndexKey(m, id);
      IndexScanExact(l, m, id);
      IndexKeySplits(l, id);
    }
    forall k | k in KeyedBy(IndexPrefix(l), Labelled(sh, l)) ensures k in Met(sh.labelIdx, IndexPrefix(l)) {
      var id :| id in Labelled(sh, l) && k == IndexPrefix(l) + EncodeID(id);
      IndexKeySplits(l, id);
      LabelKeyIn(sh.labels, l, id);
    }
  }

  // ---- the lookups ------------------------------------------------------------------------------------

  /** A full scan: every record in ID order, kept if it has the property with that rendering. */
  method ScanProperty(r: Render, sh: Shard, p: Str, text: Str) returns (found: seq<NodeID>)
    ensures found == Ascending(Having(r, sh, p, text))
  {
    var order := Ascending(sh.nodes.Keys);
    ghost var hits := Having(r, sh, p, text);
    found := [];
    for j := 0 to |order|
      invariant found == Select(order[..j], hits)
    {
      var id := order[j];
      SelectStep(order, hits, j);
      assert id in sh.nodes;
      if p in sh.nodes[id] && r(sh.nodes[id][p]) == text {
        found := found + [id];
      }
    }
    SelectAll(sh, order, hits);
  }

  lemma SelectStep(s: seq<uint64>, keep: set<uint64>, j: nat)
    requires j < |s|
    ensures Select(s[..j + 1], keep) == Select(s[..j], keep) + (if s[j] in keep then [s[j]] else []) && s[j] in s
  {
    assert s[..j + 1][..j] == s[..j];
  }

  lemma SelectAll(sh: Shard, order: seq<NodeID>, hits: set<NodeID>)
    requires order == Ascending(sh.nodes.Keys) && hits <= sh.nodes.Keys
    ensures Select(order[..|order|], hits) == Ascending(hits)
  {
    assert order[..|order|] == order;
    SelectOfSet(sh.nodes.Keys, hits);
    assert sh.nodes.Keys * hits == hits;
  }

  /** Names, renderings and labels fit the key format. */
  ghost predicate Encodable(r: Render, db: DB) {
    forall i :: 0 <= i < |db.shards| ==> TextsOk(r, db.shards[i]) && LabelTextsOk(db.shards[i])
  }

  /** What FindByProperty reads from one shard. */
  ghost function PropertyHits(r: Render, reg: Registry, p: Str, v: Value, sh: Shard): seq<NodeID> {
    var prefix := IndexPrefix(PropText(p, r(v)));
    if p in reg.indexed then Decoded(sh.nodes, prefix, Walk(Met(sh.propIdx, prefix)))
      else Ascending(Having(r, sh, p, r(v)))
  }

  /** With the index complete and the names and texts encodable, the index answers like the scan. */
  lemma PropertyHitsExact(r: Render, db: DB, p: Str, v: Value, staleP: set<Str>, staleC: set<Str>)
    requires IndexInv(r, db, staleP, staleC) && Encodable(r, db) &&
             (p in db.reg.indexed ==> p !in staleP && NulFree(r(v)))
    ensures Gather(db.shards, sh => PropertyHits(r, db.reg, p, v, sh)) ==
              PerShard(db.shards, sh => Having(r, sh, p, r(v)))
  {
    var f := sh => PropertyHits(r, db.reg, p, v, sh);
    var hits := sh => Having(r, sh, p, r(v));
    var g := sh => Ascending(hits(sh));
    forall i | 0 <= i < |db.shards| ensures f(db.shards[i]) == g(db.shards[i]) {
      var sh := db.shards[i];
      if p in db.reg.indexed {
        assert IndexesAt(r, db, i, staleP, staleC);
        PropScan(r, db.reg, sh, p, r(v), staleP);
        SeekExact(sh.nodes, sh.propIdx, IndexPrefix(PropText(p, r(v))), Having(r, sh, p, r(v)));
      }
    }
    GatherSame(db.shards, f, g);
  }

  /** FindByProperty: through the index if there is one, else by a scan. */
  method FindByProperty(r: Render, db: DB, p: Str, v: Value) returns (found: seq<NodeID>)
    ensures found == Gather(db.shards, sh => PropertyHits(r, db.reg, p, v, sh))
    ensures forall staleP, staleC {:trigger IndexInv(r, db, staleP, staleC)} ::
              IndexInv(r, db, staleP, staleC) && Encodable(r, db) &&
                  (p in db.reg.indexed ==> p !in staleP && NulFree(r(v))) ==>
                found == PerShard(db.shards, sh => Having(r, sh, p, r(v)))
  {
    ghost var give := (sh: Shard) => PropertyHits(r, db.reg, p, v, sh);
    found := [];
    for i := 0 to |db.shards|
      invariant found == Gather(db.shards[..i], give)
    {
      var sh := db.shards[i];
      assert db.shards[..i + 1][..i] == db.shards[..i];
      var part;
      if p in db.reg.indexed {
        part := SeekIDs(sh.nodes, sh.propIdx, IndexPrefix(PropText(p, r(v))));
      } else {
        part := ScanProperty(r, sh, p, r(v));
      }
      found := found + part;
    }
    assert db.shards[..|db.shards|] == db.shards;
    PropertyExact(r, db, p, v, found);
  }

  lemma PropertyExact(r: Render, db: DB, p: Str, v: Value, found: seq<NodeID>)
    requires found == Gather(db.shards, sh => PropertyHits(r, db.reg, p, v, sh))
    ensures forall staleP, staleC {:trigger IndexInv(r, db, staleP, staleC)} ::
              IndexInv(r, db, staleP, staleC) && Encodable(r, db) &&
                  (p in db.reg.indexed ==> p !in staleP && NulFree(r(v))) ==>
                found == PerShard(db.shards, sh => Having(r, sh, p, r(v)))
  {
    forall staleP, staleC
      | IndexInv(r, db, staleP, staleC) && Encodable(r, db) && (p in db.reg.indexed ==> p !in staleP && NulFree(r(v)))
      ensures found == PerShard(db.shards, sh => Having(r, sh, p, r(v)))
    {
      PropertyHitsExact(r, db, p, v, staleP, staleC);
    }
  }

  /** What FindByLabel reads from one shard. */
  ghost function LabelHits(l: Str, sh: Shard): seq<NodeID> {
    Decoded(sh.nodes, IndexPrefix(l), Walk(Met(sh.labelIdx, IndexPrefix(l))))
  }

  lemma LabelHitsExact(r: Render, db: DB, l: Str)
    requires RecordsOk(db) && Encodable(r, db) && NulFree(l)
    ensures Gather(db.shards, sh => LabelHits(l, sh)) == PerShard(db.shards, sh => Labelled(sh, l))
  {
    var f := sh => LabelHits(l, sh);
    var hits := sh => Labelled(sh, l);
    var g := sh => Ascending(hits(sh));
    forall i | 0 <= i < |db.shards| ensures f(db.shards[i]) == g(db.shards[i]) {
      assert RecordsAt(db, i);
      LabelScan(db.shards[i], l);
      SeekExact(db.shards[i].nodes, db.shards[i].labelIdx, IndexPrefix(l), Labelled(db.shards[i], l));
    }
    GatherSame(db.shards, f, g);
  }

  method FindByLabel(db: DB, l: Str) returns (found: seq<NodeID>)
    ensures found == Gather(db.shards, sh => LabelHits(l, sh))
    ensures RecordsOk(db) && NulFree(l) && (exists r :: Encodable(r, db)) ==>
              found == PerShard(db.shards, sh => Labelled(sh, l))
  {
    ghost var give := (sh: Shard) => LabelHits(l, sh);
    found := [];
    for i := 0 to |db.shards|
      invariant found == Gather(db.shards[..i], give)
    {
      assert db.shards[..i + 1][..i] == db.shards[..i];
      var part := SeekIDs(db.shards[i].nodes, db.shards[i].labelIdx, IndexPrefix(l));
      found := found + part;
    }
    assert db.shards[..|db.shards|] == db.shards;
    if RecordsOk(db) && NulFree(l) && exists r :: Encodable(r, db) {
      ghost var r :| Encodable(r, db);
      LabelHitsExact(r, db, l);
    }
  }

  // ---- composite definitions are canonical -------------------------------------------------------------

  ghost predicate NamesSorted(s: seq<Str>) {
    forall i, j :: 0 <= i < j < |s| ==> CompareStr(s[i], s[j]) <= 0
  }

  lemma {:induction false} InsertKeeps(x: Str, s: seq<Str>)
    ensures multiset(Insert(x, s)) == multiset(s) + multiset{x}
  {
    if s != [] && CompareStr(x, s[0]) > 0 {
      InsertKeeps(x, s[1..]);
      assert s == [s[0]] + s[1..];
    }
  }

  lemma {:induction false} InsertSorts(x: Str, s: seq<Str>)
    requires NamesSorted(s)
    ensures NamesSorted(Insert(x, s))
  {
    if s != [] && CompareStr(x, s[0]) > 0 {
      InsertSorts(x, s[1..]);
      var t := Insert(x, s[1..]);
      InsertKeeps(x, s[1..]);
      StrAntisymmetric(x, s[0]);
      forall j | 0 <= j < |t| ensures CompareStr(s[0], t[j]) <= 0 {
        assert t[j] in multiset(s[1..]) + multiset{x};
      }
      ConsSorted(s[0], t);
    } else if s != [] {
      forall j | 0 <= j < |s| ensures CompareStr(x, s[j]) <= 0 {
        if j > 0 {
          StrTransitive(x, s[0], s[j]);
        }
      }
      ConsSorted(x, s);
    }
  }

  lemma ConsSorted(x: Str, s: seq<Str>)
    requires NamesSorted(s) && forall j :: 0 <= j < |s| ==> CompareStr(x, s[j]) <= 0
    ensures NamesSorted([x] + s)
  {
  }

  lemma {:induction false} DefinitionSorts(names: seq<Str>)
    ensures NamesSorted(Definition(names)) && multiset(Definition(names)) == multiset(names)
  {
    if names != [] {
      DefinitionSorts(names[1..]);
      InsertSorts(names[0], Definition(names[1..]));
      InsertKeeps(names[0], Definition(names[1..]));
      assert names == [names[0]] + names[1..];
    }
  }

  lemma {:induction false} SortedUnique(s: seq<Str>, t: seq<Str>)
    requires NamesSorted(s) && NamesSorted(t) && multiset(s) == multiset(t)
    ensures s == t
  {
    if s == [] {
      assert |multiset(t)| == 0;
    } else {
      assert |multiset(t)| == |s|;
      assert s[0] in multiset(t) && t[0] in multiset(s);
      HeadIsLeast(s, t[0]);
      HeadIsLeast(t, s[0]);
      StrAntisymmetric(s[0], t[0]);
      assert s == [s[0]] + s[1..] && t == [t[0]] + t[1..];
      assert multiset(s[1..]) == multiset(s) - multiset{s[0]} && multiset(t[1..]) == multiset(t) - multiset{t[0]};
      SortedUnique(s[1..], t[1..]);
    }
  }

  lemma HeadIsLeast(s: seq<Str>, x: Str)
    requires NamesSorted(s) && x in s
    ensures CompareStr(s[0], x) <= 0
  {
    var j :| 0 <= j < |s| && s[j] == x;
    StrAntisymmetric(s[0], s[0]);
  }

  /** However the properties are listed, they name the same composite index. */
  lemma DefinitionCanonical(a: seq<Str>, b: seq<Str>)
    requires multiset(a) == multiset(b)
    ensures Definition(a) == Definition(b)
  {
    DefinitionSorts(a);
    DefinitionSorts(b);
    SortedUnique(Definition(a), Definition(b));
  }

  // ---- composite lookups ----------------------------------------------------------------------------

  /** The definition lists exactly the filtered properties. */
  ghost predicate Defines(def: seq<Str>, filters: Props) {
    forall p :: p in def <==> p in filters
  }

  lemma RenderedEqual(r: Render, def: seq<Str>, filters: Props, props: Props)
    requires Defines(def, filters) && HasAll(def, props)
    ensures HasAll(def, filters)
    ensures Rendered(r, def, filters) == Rendered(r, def, props) <==> MatchesAll(r, filters, props)
  {
    var a, b := Rendered(r, def, filters), Rendered(r, def, props);
    if MatchesAll(r, filters, props) {
      forall i | 0 <= i < |def| ensures a[i] == b[i] {
        assert def[i] in def;
      }
    }
    if a == b {
      forall p | p in filters ensures p in props && r(props[p]) == r(filters[p]) {
        assert p in def;
        var i :| 0 <= i < |def| && def[i] == p;
        assert a[i] == b[i];
      }
    }
  }

  lemma CompKeyStarts(r: Render, def: seq<Str>, filters: Props, props: Props, id: NodeID)
    requires Defines(def, filters) && HasAll(def, props) && HasAll(def, filters)
    requires AllNulFree(Rendered(r, def, filters)) && AllNulFree(Rendered(r, def, props))
    ensures CompPrefix(r, def, filters) <= CompKey(r, def, props, id) <==> MatchesAll(r, filters, props)
    ensures MatchesAll(r, filters, props) ==> CompKey(r, def, props, id) == CompPrefix(r, def, filters) + EncodeID(id)
  {
    RenderedEqual(r, def, filters, props);
    SameFields(Fields(def), Rendered(r, def, filters), Rendered(r, def, props), EncodeID(id));
  }

  /** After the same start, equally many NUL-free fields are a prefix exactly when they are equal. */
  lemma SameFields(start: Str, a: seq<Str>, b: seq<Str>, rest: Str)
    requires AllNulFree(a) && AllNulFree(b) && |a| == |b|
    ensures start + Fields(a) <= start + Fields(b) + rest <==> a == b
  {
    Regroup(start, Fields(b), rest);
    PrefixAfter(start, Fields(a), Fields(b) + rest);
    FieldsPrefix(a, b, rest);
    SameLengthPrefix(a, b);
  }

  lemma Regroup(a: Str, b: Str, c: Str)
    ensures a + b + c == a + (b + c)
  {
  }

  lemma SameLengthPrefix(a: seq<Str>, b: seq<Str>)
    requires |a| == |b|
    ensures a <= b <==> a == b
  {
  }

  lemma NulFreeTexts(r: Render, def: seq<Str>, props: Props)
    requires HasAll(def, props) && forall p :: p in props ==> NulFree(r(props[p]))
    ensures AllNulFree(Rendered(r, def, props))
  {
    var vs := Rendered(r, def, props);
    forall f | f in vs ensures NulFree(f) {
      var i :| 0 <= i < |vs| && vs[i] == f;
      assert def[i] in def;
    }
  }

  /** The composite seek meets exactly the entries of the nodes that match all filters. */
  lemma CompScan(r: Render, reg: Registry, sh: Shard, c: Str, filters: Props, stale: set<Str>)
    requires CompsOk(r, reg, sh, stale) && DefsOk(reg) && TextsOk(r, sh) && c in reg.composite - stale &&
             Defines(reg.composite[c], filters)
    requires forall p :: p in filters ==> NulFree(r(filters[p]))
    ensures HasAll(reg.composite[c], filters)
    ensures var prefix := CompPrefix(r, reg.composite[c], filters);
            Met(sh.compIdx, prefix) == KeyedBy(prefix, Matching(r, sh, filters))
  {
    var def := reg.composite[c];
    assert HasAll(def, filters);
    var prefix := CompPrefix(r, def, filters);
    NulFreeTexts(r, def, filters);
    forall k | k in Met(sh.compIdx, prefix) ensures k in KeyedBy(prefix, Matching(r, sh, filters)) {
      MetMatches(r, reg, sh, c, filters, k);
    }
    forall k | k in KeyedBy(prefix, Matching(r, sh, filters)) ensures k in Met(sh.compIdx, prefix) {
      var id :| id in Matching(r, sh, filters) && k == prefix + EncodeID(id);
      assert HasAll(def, sh.nodes[id]);
      NulFreeTexts(r, def, sh.nodes[id]);
      CompKeyStarts(r, def, filters, sh.nodes[id], id);
      CompEntryIn(r, reg.composite - stale, sh.nodes, id, c);
    }
  }

  lemma MetMatches(r: Render, reg: Registry, sh: Shard, c: Str, filters: Props, k: Str)
    requires sh.compIdx <= CompEntries(r, reg.composite, sh.nodes) && DefsOk(reg) && TextsOk(r, sh) &&
             c in reg.composite
    requires Defines(reg.composite[c], filters) && HasAll(reg.composite[c], filters) &&
             AllNulFree(Rendered(r, reg.composite[c], filters))
    requires k in Met(sh.compIdx, CompPrefix(r, reg.composite[c], filters))
    ensures k in KeyedBy(CompPrefix(r, reg.composite[c], filters), Matching(r, sh, filters))
  {
    var def, prefix := reg.composite[c], CompPrefix(r, reg.composite[c], filters);
    var id, d := CompEntryOwner(r, reg.composite, sh.nodes, k);
    FitsItself(reg, c);
    CompEntryStart(r, reg, def, d, sh.nodes[id], id);
    assert Fields(def) <= prefix;
    assert Fields(def) <= k;
    NulFreeTexts(r, def, sh.nodes[id]);
    CompKeyStarts(r, def, filters, sh.nodes[id], id);
    assert id in Matching(r, sh, filters);
  }

  lemma FitsItself(reg: Registry, c: Str)
    requires DefsOk(reg) && c in reg.composite
    ensures Fits(reg, reg.composite[c]) && DefKey(reg.composite[c]) == c
  {
    var def := reg.composite[c];
    forall d | d in reg.composite && reg.composite[d] != def ensures Apart(def, reg.composite[d]) {
      assert reg.composite[c] <= reg.composite[d] ==> c == d;
      assert reg.composite[d] <= reg.composite[c] ==> c == d;
    }
  }

  /** The IDs in the last eight bytes of the walked keys. */
  function DecodedLast(nodes: map<NodeID, Props>, walk: seq<Str>): seq<NodeID> {
    if walk == [] then []
    else
      var k := walk[|walk| - 1];
      DecodedLast(nodes, walk[..|walk| - 1]) + if |k| >= 8 &&
          FromBigEndian(k[|k| - 8..]) in nodes then [FromBigEndian(k[|k| - 8..])] else []
  }

  method SeekLast(nodes: map<NodeID, Props>, keys: set<Str>, prefix: Str) returns (found: seq<NodeID>)
    ensures found == DecodedLast(nodes, Walk(Met(keys, prefix)))
  {
    var walk := Walk(Met(keys, prefix));
    found := [];
    for j := 0 to |walk|
      invariant found == DecodedLast(nodes, walk[..j])
    {
      assert walk[..j + 1][..j] == walk[..j];
      if |walk[j]| >= 8 {
        var id := FromBigEndian(walk[j][|walk[j]| - 8..]);
        if id in nodes {
          found := found + [id];
        }
      }
    }
    assert walk[..|walk|] == walk;
  }

  lemma {:induction false} LastIsAfter(nodes: map<NodeID, Props>, prefix: Str, walk: seq<Str>)
    requires forall k :: k in walk ==> |k| == |prefix| + 8
    ensures DecodedLast(nodes, walk) == Decoded(nodes, prefix, walk)
  {
    if walk != [] {
      LastIsAfter(nodes, prefix, walk[..|walk| - 1]);
      var k := walk[|walk| - 1];
      assert k in walk && k[|k| - 8..] == k[|prefix|..|prefix| + 8];
    }
  }

  lemma SeekLastExact(nodes: map<NodeID, Props>, keys: set<Str>, prefix: Str, ids: set<NodeID>)
    requires Met(keys, prefix) == KeyedBy(prefix, ids) && ids <= nodes.Keys
    ensures DecodedLast(nodes, Walk(Met(keys, prefix))) == Ascending(ids)
  {
    SeekExact(nodes, keys, prefix, ids);
    WalkKeyed(prefix, ids);
    var walk := Keyed(prefix, Ascending(ids));
    forall k | k in walk ensures |k| == |prefix| + 8 {
      var j :| 0 <= j < |walk| && walk[j] == k;
      KeyedLength(prefix, Ascending(ids));
      KeyedAt(prefix, Ascending(ids), j);
    }
    LastIsAfter(nodes, prefix, walk);
  }

  /** Whether a record passes every filter. */
  method PassesAll(r: Render, filters: Props, props: Props) returns (pass: bool)
    ensures pass <==> MatchesAll(r, filters, props)
  {
    var todo := filters.Keys;
    while todo != {}
      invariant todo <= filters.Keys
      invariant forall p :: p in filters && p !in todo ==> p in props && r(props[p]) == r(filters[p])
      decreases |todo|
    {
      var p :| p in todo;
      if p !in props || r(props[p]) != r(filters[p]) {
        return false;
      }
      todo := todo - {p};
    }
    return true;
  }

  method ScanMatching(r: Render, sh: Shard, filters: Props) returns (found: seq<NodeID>)
    ensures found == Ascending(Matching(r, sh, filters))
  {
    var order := Ascending(sh.nodes.Keys);
    ghost var hits := Matching(r, sh, filters);
    found := [];
    for j := 0 to |order|
      invariant found == Select(order[..j], hits)
    {
      SelectStep(order, hits, j);
      assert order[j] in sh.nodes;
      var pass := PassesAll(r, filters, sh.nodes[order[j]]);
      if pass {
        found := found + [order[j]];
      }
    }
    SelectAll(sh, order, hits);
  }

  /** The filtered property names, in whatever order the map give them. */
  method NamesOf(filters: Props) returns (names: seq<Str>)
    ensures multiset(names) == multiset(filters.Keys)
  {
    names := [];
    var todo := filters.Keys;
    while todo != {}
      invariant todo <= filters.Keys && multiset(names) == multiset(filters.Keys - todo)
      decreases |todo|
    {
      var p :| p in todo;
      assert filters.Keys - (todo - {p}) == (filters.Keys - todo) + {p};
      assert multiset(filters.Keys - (todo - {p})) == multiset(filters.Keys - todo) + multiset{p};
      names, todo := names + [p], todo - {p};
    }
    assert filters.Keys - todo == filters.Keys;
  }

  lemma DefinitionDefines(names: seq<Str>, filters: Props)
    requires multiset(names) == multiset(filters.Keys)
    ensures Defines(Definition(names), filters)
  {
    DefinitionSorts(names);
    forall p ensures p in Definition(names) <==> p in filters {
      assert p in multiset(Definition(names)) <==> p in multiset(filters.Keys);
    }
  }

  /** What a composite lookup reads from one shard. */
  ghost function CompositeHits(r: Render, reg: Registry, def: seq<Str>, filters: Props, sh: Shard): seq<NodeID>
    requires HasAll(def, filters)
  {
    if DefKey(def) in reg.composite then DecodedLast(sh.nodes, Walk(Met(sh.compIdx, CompPrefix(r, def, filters))))
    else Ascending(Matching(r, sh, filters))
  }

  /** With the composite index complete, it answers like the scan. */
  lemma CompositeHitsExact(r: Render, db: DB, names: seq<Str>, filters: Props, staleP: set<Str>, staleC: set<Str>)
    requires IndexInv(r, db, staleP, staleC) && Encodable(r, db) && multiset(names) == multiset(filters.Keys) &&
             filters != map[]
    requires DefKey(Definition(names)) !in staleC && forall p :: p in filters ==> NulFree(p) && NulFree(r(filters[p]))
    ensures HasAll(Definition(names), filters)
    ensures Gather(db.shards, sh => CompositeHits(r, db.reg, Definition(names), filters, sh)) ==
              PerShard(db.shards, sh => Matching(r, sh, filters))
  {
    var def := Definition(names);
    DefinitionDefines(names, filters);
    assert HasAll(def, filters);
    var f := sh => CompositeHits(r, db.reg, def, filters, sh);
    var hits := sh => Matching(r, sh, filters);
    var g := sh => Ascending(hits(sh));
    forall i | 0 <= i < |db.shards| ensures f(db.shards[i]) == g(db.shards[i]) {
      var sh := db.shards[i];
      if DefKey(def) in db.reg.composite {
        assert IndexesAt(r, db, i, staleP, staleC);
        RegisteredIs(db.reg, names, filters);
        CompScan(r, db.reg, sh, DefKey(def), filters, staleC);
        SeekLastExact(sh.nodes, sh.compIdx, CompPrefix(r, def, filters), Matching(r, sh, filters));
      }
    }
    GatherSame(db.shards, f, g);
  }

  /** findByCompositeIndexFast and findByCompositeIndexScan over all shards. */
  method GatherComposite(r: Render, db: DB, def: seq<Str>, filters: Props) returns (ids: seq<NodeID>)
    requires HasAll(def, filters)
    ensures ids == Gather(db.shards, sh => CompositeHits(r, db.reg, def, filters, sh))
  {
    ids := [];
    ghost var give := (sh: Shard) => CompositeHits(r, db.reg, def, filters, sh);
    for i := 0 to |db.shards|
      invariant ids == Gather(db.shards[..i], give)
    {
      var sh := db.shards[i];
      assert db.shards[..i + 1][..i] == db.shards[..i];
      var part;
      if DefKey(def) in db.reg.composite {
        part := SeekLast(sh.nodes, sh.compIdx, CompPrefix(r, def, filters));
      } else {
        part := ScanMatching(r, sh, filters);
      }
      ids := ids + part;
    }
    assert db.shards[..|db.shards|] == db.shards;
  }

  ghost predicate PlainFilters(r: Render, filters: Props) {
    forall p :: p in filters ==> NulFree(p) && NulFree(r(filters[p]))
  }

  lemma CompositeExact(r: Render, db: DB, names: seq<Str>, filters: Props, ids: seq<NodeID>)
    requires multiset(names) == multiset(filters.Keys) && filters != map[] && HasAll(Definition(names), filters)
    requires ids == Gather(db.shards, sh => CompositeHits(r, db.reg, Definition(names), filters, sh))
    ensures forall staleP, staleC {:trigger IndexInv(r, db, staleP, staleC)} ::
              IndexInv(r, db, staleP, staleC) && Encodable(r, db) && DefKey(Definition(names)) !in staleC &&
                  PlainFilters(r, filters) ==>
                ids == PerShard(db.shards, sh => Matching(r, sh, filters))
  {
    forall staleP, staleC
      | IndexInv(r, db, staleP, staleC) && Encodable(r, db) && DefKey(Definition(names)) !in staleC &&
          PlainFilters(r, filters)
      ensures ids == PerShard(db.shards, sh => Matching(r, sh, filters))
    {
      CompositeHitsExact(r, db, names, filters, staleP, staleC);
    }
  }

  /** FindByCompositeIndex: refused below two filters, else by the index if there is one, else by a scan. */
  method FindByComposite(r: Render, db: DB, filters: Props) returns (found: Option<seq<NodeID>>, ghost names: seq<Str>)
    ensures found.None? <==> |filters| < 2
    ensures multiset(names) == multiset(filters.Keys) && HasAll(Definition(names), filters)
    ensures found.Some? ==>
              found.value == Gather(db.shards, sh => CompositeHits(r, db.reg, Definition(names), filters, sh))
    ensures forall staleP, staleC {:trigger IndexInv(r, db, staleP, staleC)} ::
              found.Some? && IndexInv(r, db, staleP, staleC) && Encodable(r, db) &&
                  DefKey(Definition(names)) !in staleC && PlainFilters(r, filters) ==>
                found.value == PerShard(db.shards, sh => Matching(r, sh, filters))
  {
    var list := NamesOf(filters);
    names := list;
    DefinitionDefines(list, filters);
    if |filters| < 2 {
      return None, names;
    }
    var ids := GatherComposite(r, db, Definition(list), filters);
    CompositeExact(r, db, names, filters, ids);
    return Some(ids), names;
  }

  lemma RegisteredIs(reg: Registry, names: seq<Str>, filters: Props)
    requires DefsOk(reg) && multiset(names) == multiset(filters.Keys) && filters != map[] &&
             (forall p :: p in filters ==> NulFree(p))
    requires DefKey(Definition(names)) in reg.composite
    ensures reg.composite[DefKey(Definition(names))] == Definition(names)
  {
    var def := Definition(names);
    DefinitionDefines(names, filters);
    var p :| p in filters;
    assert p in def;
    DefKeyInjective(def, reg.composite[DefKey(def)]);
  }

  // ---- after every run ----------------------------------------------------------------------------------

  lemma NewIsIndexed(r: Render, n: nat)
    requires n > 0
    ensures Placed(NewDB(n)) && IndexInv(r, NewDB(n), {}, {})
  {
    var db := NewDB(n);
    forall i | 0 <= i < n ensures PlacedIn(db, i) && RecordsAt(db, i) && IndexesAt(r, db, i, {}, {}) {
      assert db.shards[i] == EMPTY;
      assert AllLabelKeys(map[]) == {} && PropEntries(r, {}, map[]) == {} && CompEntries(r, map[], map[]) == {};
    }
  }

  /**
   From a new database, after any tidy run without AddNodeBatch, and with values, labels and
   the argument encodable: FindByProperty, FindByLabel and FindByCompositeIndex return
   exactly what scanning the records returns, in the same order.
   */
  lemma RunsAnswerLikeScans(r: Render, n: nat, calls: seq<Call>, p: Str, v: Value, l: Str, names: seq<Str>,
      filters: Props)
    requires n > 0 && RoomFor(r, NewDB(n), calls) && TidyRun(r, NewDB(n), calls) && NoBatch(calls)
    requires Encodable(r, Run(r, NewDB(n), calls).0) && NulFree(r(v)) && NulFree(l)
    requires filters != map[] && multiset(names) == multiset(filters.Keys) && forall q :: q in filters ==>
               NulFree(q) && NulFree(r(filters[q]))
    ensures var db := Run(r, NewDB(n), calls).0;
            && Gather(db.shards, sh => PropertyHits(r, db.reg, p, v, sh)) ==
                 PerShard(db.shards, sh => Having(r, sh, p, r(v)))
            && Gather(db.shards, sh => LabelHits(l, sh)) == PerShard(db.shards, sh => Labelled(sh, l))
            && HasAll(Definition(names), filters)
            && Gather(db.shards, sh => CompositeHits(r, db.reg, Definition(names), filters, sh)) ==
                 PerShard(db.shards, sh => Matching(r, sh, filters))
  {
    NewIsIndexed(r, n);
    var staleP, staleC := RunKeepsIndexes(r, NewDB(n), calls, {}, {});
    var db := Run(r, NewDB(n), calls).0;
    PropertyHitsExact(r, db, p, v, staleP, staleC);
    LabelHitsExact(r, db, l);
    CompositeHitsExact(r, db, names, filters, staleP, staleC);
  }
}
