/**
 The stored graph: shards of buckets, the in-memory registries, and the index
 keys each bucket holds. A transaction is a change to one shard value; bbolt,
 msgpack and checksums are not part of this model.
 */
module Store {
  import opened Types
  import opened Keys

  /** fmt.Sprintf("%v"). */
  type Render = Value -> Str

  datatype AdjVal = AdjVal(node: NodeID, lbl: Str)

  type AdjKey = (NodeID, EdgeID)

  /** One bbolt file: its buckets and the two cached counters. */
  datatype Shard = Shard(
    nodes: map<NodeID, Props>,
    labels: map<NodeID, seq<Str>>,
    labelIdx: set<Str>,
    propIdx: set<Str>,
    compIdx: set<Str>,
    uniqIdx: map<Str, NodeID>,
    edges: map<EdgeID, Edge>,
    adjOut: map<AdjKey, AdjVal>,
    adjIn: map<AdjKey, AdjVal>,
    edgeType: set<Str>,
    nodeCount: int,
    edgeCount: int)

  datatype Constraint = Constraint(name: Str, prop: Str)

  /** indexedProps, compositeIndexes and uniqueConstraints. */
  datatype Registry = Registry(indexed: set<Str>, composite: map<Str, seq<Str>>, unique: map<Str, Constraint>)

  datatype DB = DB(shards: seq<Shard>, nextNode: uint64, nextEdge: uint64, reg: Registry) {
    predicate Valid() {
      |shards| > 0
    }

    /** shardFor, and shardForEdge of the source node. */
    function Home(id: NodeID): (i: nat)
      requires Valid()
      ensures i < |shards|
    {
      id % |shards|
    }

    function ShardOf(id: NodeID): Shard
      requires Valid()
    {
      shards[Home(id)]
    }

    /** Commit a new value of the shard that owns `id`. */
    function Commit(id: NodeID, sh: Shard): DB
      requires Valid()
    {
      this.(shards := shards[Home(id) := sh])
    }

    predicate HasNode(id: NodeID)
      requires Valid()
    {
      id in ShardOf(id).nodes
    }
  }

  const EMPTY := Shard(map[], map[], {}, {}, {}, map[], map[], map[], map[], {}, 0, 0)

  /** A new database of `n` shards. */
  function NewDB(n: nat): DB {
    DB(seq(n, _ => EMPTY), 0, 0, Registry({}, map[], map[]))
  }

  // ---- index keys -------------------------------------------------------------------------

  function PropKey(r: Render, name: Str, v: Value, id: NodeID): Str {
    IndexKey(PropText(name, r(v)), id)
  }

  predicate HasAll(def: seq<Str>, props: Props) {
    forall p :: p in def ==> p in props
  }

  function Rendered(r: Render, def: seq<Str>, props: Props): (vs: seq<Str>)
    requires HasAll(def, props)
    ensures |vs| == |def| && forall i :: 0 <= i < |def| ==> vs[i] == r(props[def[i]])
  {
    if def == [] then [] else
      assert forall p :: p in def[1..] ==> p in def;
      [r(props[def[0]])] + Rendered(r, def[1..], props)
  }

  /** buildCompositePrefix: names, then values, each NUL-terminated. */
  function CompPrefix(r: Render, def: seq<Str>, props: Props): Str
    requires HasAll(def, props)
  {
    Fields(def) + Fields(Rendered(r, def, props))
  }

  /** buildCompositeKey, for nodes that have all the properties. */
  function CompKey(r: Render, def: seq<Str>, props: Props, id: NodeID): Str
    requires HasAll(def, props)
  {
    CompPrefix(r, def, props) + EncodeID(id)
  }

  function UniqueKey(name: Str, prop: Str, text: Str): Str {
    name + [NUL] + prop + [NUL] + text
  }

  /** The property index entries of a node. */
  function PropKeys(r: Render, indexed: set<Str>, id: NodeID, props: Props): set<Str> {
    set p | p in indexed && p in props :: PropKey(r, p, props[p], id)
  }

  /** The composite index entries of a node. */
  function CompKeys(r: Render, composite: map<Str, seq<Str>>, id: NodeID, props: Props): set<Str> {
    set k | k in composite && HasAll(composite[k], props) :: CompKey(r, composite[k], props, id)
  }

  function LabelKeys(names: seq<Str>, id: NodeID): set<Str> {
    set l | l in names :: IndexKey(l, id)
  }

  /** indexNodeProps and indexNodeComposite. */
  function Index(r: Render, reg: Registry, sh: Shard, id: NodeID, props: Props): (sh': Shard)
    ensures sh' == sh.(propIdx := sh'.propIdx, compIdx := sh'.compIdx)
  {
    if props == map[] then sh
    else sh.(propIdx := sh.propIdx + PropKeys(r, reg.indexed, id, props),
             compIdx := sh.compIdx + CompKeys(r, reg.composite, id, props))
  }

  /** unindexNodeProps and unindexNodeComposite. */
  function Unindex(r: Render, reg: Registry, sh: Shard, id: NodeID, props: Props): (sh': Shard)
    ensures sh' == sh.(propIdx := sh'.propIdx, compIdx := sh'.compIdx)
  {
    if props == map[] then sh
    else sh.(propIdx := sh.propIdx - PropKeys(r, reg.indexed, id, props),
             compIdx := sh.compIdx - CompKeys(r, reg.composite, id, props))
  }

  /** loadLabels. */
  function Labels(sh: Shard, id: NodeID): seq<Str> {
    if id in sh.labels then sh.labels[id] else []
  }

  /** A node as getNode reads it from its buckets. */
  function NodeIn(sh: Shard, id: NodeID): Node
    requires id in sh.nodes
  {
    Node(id, Labels(sh, id), sh.nodes[id])
  }

  // ---- unique constraints -------------------------------------------------------------------

  /** The constraints that bear on a node with these labels and properties. */
  function Bearing(reg: Registry, names: seq<Str>, props: Props): set<Constraint> {
    set k | k in reg.unique && reg.unique[k].name in names && reg.unique[k].prop in props :: reg.unique[k]
  }

  function KeyOf(r: Render, c: Constraint, props: Props): Str
    requires c.prop in props
  {
    UniqueKey(c.name, c.prop, r(props[c.prop]))
  }

  /** The unique index keys of a node. */
  function UniqueKeys(r: Render, reg: Registry, names: seq<Str>, props: Props): set<Str> {
    set c | c in Bearing(reg, names, props) :: KeyOf(r, c, props)
  }

  /** checkUniqueConstraintsInTx: some key is held by another node. */
  predicate Violates(r: Render, reg: Registry, sh: Shard, names: seq<Str>, props: Props, exclude: NodeID) {
    exists k :: k in UniqueKeys(r, reg, names, props) && k in sh.uniqIdx && sh.uniqIdx[k] != exclude
  }

  /** indexUniqueConstraints. */
  function IndexUnique(r: Render, reg: Registry, sh: Shard, id: NodeID, names: seq<Str>, props: Props): (sh': Shard)
    ensures sh' == sh.(uniqIdx := sh'.uniqIdx)
  {
    sh.(uniqIdx := sh.uniqIdx + map k | k in UniqueKeys(r, reg, names, props) :: id)
  }

  /** unindexUniqueConstraints: only entries this node owns. */
  function UnindexUnique(r: Render, reg: Registry, sh: Shard, id: NodeID, names: seq<Str>, props: Props): (sh': Shard)
    ensures sh' == sh.(uniqIdx := sh'.uniqIdx)
  {
    sh.(uniqIdx := map k | k in sh.uniqIdx &&
        !(k in UniqueKeys(r, reg, names, props) && sh.uniqIdx[k] == id) :: sh.uniqIdx[k])
  }

  // ---- the log ----------------------------------------------------------------------------------

  /** WAL payloads, one constructor per operation type. */
  datatype Op =
    | OpAddNode(id: NodeID, props: Props)
    | OpAddNodeBatch(nodes: seq<(NodeID, Props)>)
    | OpUpdateNode(id: NodeID, props: Props)
    | OpSetNodeProps(id: NodeID, props: Props)
    | OpDeleteNode(id: NodeID)
    | OpAddEdge(edge: Edge)
    | OpAddEdgeBatch(edges: seq<Edge>)
    | OpDeleteEdge(eid: EdgeID, from: NodeID, to: NodeID, lbl: Str)
    | OpUpdateEdge(eid: EdgeID, from: NodeID, props: Props)
    | OpAddNodeWithLabels(id: NodeID, names: seq<Str>, props: Props)
    | OpAddLabel(id: NodeID, names: seq<Str>)
    | OpRemoveLabel(id: NodeID, names: seq<Str>)
    | OpCreateIndex(prop: Str)
    | OpDropIndex(prop: Str)
    | OpCreateComposite(propNames: seq<Str>)
    | OpDropComposite(propNames: seq<Str>)
    | OpCreateUnique(constraint: Constraint)
    | OpDropUnique(constraint: Constraint)

  // ---- pieces used by both sides -------------------------------------------------------------------

  function PutEdge(sh: Shard, e: Edge): Shard {
    sh.(edges := sh.edges[e.id := e],
        adjOut := sh.adjOut[(e.from, e.id) := AdjVal(e.to, e.lbl)],
        edgeType := sh.edgeType + {IndexKey(e.lbl, e.id)},
        edgeCount := sh.edgeCount + 1)
  }

  function PutIncoming(sh: Shard, e: Edge): Shard {
    sh.(adjIn := sh.adjIn[(e.to, e.id) := AdjVal(e.from, e.lbl)])
  }

  function DropEdge(sh: Shard, eid: EdgeID, source: NodeID, name: Str): Shard {
    sh.(edges := sh.edges - {eid}, adjOut := sh.adjOut - {(source, eid)},
        edgeType := sh.edgeType - {IndexKey(name, eid)}, edgeCount := sh.edgeCount - 1)
  }

  function DropIncoming(sh: Shard, eid: EdgeID, target: NodeID): Shard {
    sh.(adjIn := sh.adjIn - {(target, eid)})
  }

  /** Labels to append: those not yet present, duplicates in the argument included. */
  function NewLabels(existing: seq<Str>, names: seq<Str>): seq<Str> {
    if names == [] then []
    else NewLabels(existing, names[..|names| - 1]) + if names[|names| - 1] in existing then [] else [names[|names| - 1]]
  }

  function KeptLabels(existing: seq<Str>, names: seq<Str>): seq<Str> {
    if existing == [] then []
    else KeptLabels(existing[..|existing| - 1], names) + if existing[|existing| - 1] in names then []
      else [existing[|existing| - 1]]
  }

  /** An empty label list is stored as no entry. */
  function StoreLabels(sh: Shard, id: NodeID, names: seq<Str>): Shard {
    sh.(labels := if names == [] then sh.labels - {id} else sh.labels[id := names])
  }

  function AllShards(db: DB, f: Shard -> Shard): DB {
    db.(shards := seq(|db.shards|, i requires 0 <= i < |db.shards| => f(db.shards[i])))
  }

  /** CreateIndex on one shard: an entry for every node that has the property. */
  function BuildProp(r: Render, p: Str, sh: Shard): Shard {
    sh.(propIdx := sh.propIdx + set id | id in sh.nodes && p in sh.nodes[id] :: PropKey(r, p, sh.nodes[id][p], id))
  }

  function ClearProp(p: Str, sh: Shard): Shard {
    sh.(propIdx := set k | k in sh.propIdx && !(p + [COLON] <= k))
  }

  function BuildComp(r: Render, def: seq<Str>, sh: Shard): Shard {
    sh.(compIdx := sh.compIdx + set id | id in sh.nodes &&
        HasAll(def, sh.nodes[id]) :: CompKey(r, def, sh.nodes[id], id))
  }

  function ClearComp(def: seq<Str>, sh: Shard): Shard {
    sh.(compIdx := set k | k in sh.compIdx && !(Fields(def) <= k))
  }

  function ClearUnique(c: Constraint, sh: Shard): Shard {
    sh.(uniqIdx := map k | k in sh.uniqIdx && !(UniqueKey(c.name, c.prop, []) <= k) :: sh.uniqIdx[k])
  }

  /** constraintKey. */
  function RegistryKey(c: Constraint): Str {
    c.name + [NUL] + c.prop
  }
}
