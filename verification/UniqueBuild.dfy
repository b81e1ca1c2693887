/**
 Building the index of a new unique constraint: a scan of the label index that notes
 which node has which rendered value and stops at a duplicate, then the entries written
 into the shards of their nodes.
 */
module UniqueBuild {
  import opened Types
  import opened Keys
  import opened Cursor
  import opened Store
  import opened Leader

  /** What a scanned key yields: the node it names and the rendered value, if both exist. */
  function Yield(r: Render, c: Constraint, sh: Shard, k: Str): Option<(NodeID, Str)> {
    var start := |IndexPrefix(c.name)|;
    if !(IndexPrefix(c.name) <= k) || |k| < start + 8 then None
    else
      var id := FromBigEndian(k[start..start + 8]);
      if id !in sh.nodes || c.prop !in sh.nodes[id] then None else Some((id, r(sh.nodes[id][c.prop])))
  }

  lemma YieldIs(r: Render, c: Constraint, db: DB, i: nat, k: Str, id: NodeID, text: Str)
    ensures Contributes(r, c, db, i, k, id, text) <==>
              i < |db.shards| && k in db.shards[i].labelIdx && Yield(r, c, db.shards[i], k) == Some((id, text))
  {
  }

  type Visited = set<(nat, Str)>

  /** What the key at a position yields. */
  function At(r: Render, c: Constraint, db: DB, p: (nat, Str)): Option<(NodeID, Str)> {
    if p.0 < |db.shards| then Yield(r, c, db.shards[p.0], p.1) else None
  }

  ghost predicate Stored(db: DB, visited: Visited) {
    forall p {:trigger p in visited} :: p in visited ==> p.0 < |db.shards| && p.1 in db.shards[p.0].labelIdx
  }

  ghost predicate Recorded(r: Render, c: Constraint, db: DB, visited: Visited, seen: map<Str, NodeID>) {
    forall p {:trigger p in visited} :: p in visited && At(r, c, db, p).Some? ==>
      At(r, c, db, p).value.1 in seen && seen[At(r, c, db, p).value.1] == At(r, c, db, p).value.0
  }

  ghost predicate Source(r: Render, c: Constraint, db: DB, visited: Visited, text: Str, id: NodeID) {
    exists p :: p in visited && At(r, c, db, p) == Some((id, text))
  }

  ghost predicate Distinct(r: Render, c: Constraint, db: DB, visited: Visited) {
    forall p, q :: p in visited && q in visited && p != q && At(r, c, db, p).Some? && At(r, c, db, q).Some? ==>
      At(r, c, db, p).value.1 != At(r, c, db, q).value.1
  }

  /** What has been noted is what the visited keys yield, each value once. */
  ghost predicate Noted(r: Render, c: Constraint, db: DB, visited: Visited, seen: map<Str, NodeID>) {
    && Stored(db, visited) && Recorded(r, c, db, visited, seen) && Distinct(r, c, db, visited)
    && forall text :: text in seen ==> Source(r, c, db, visited, text, seen[text])
  }

  lemma NoteNothing(r: Render, c: Constraint, db: DB, visited: Visited, seen: map<Str, NodeID>, i: nat, k: Str)
    requires Noted(r, c, db, visited, seen) && i < |db.shards| && k in db.shards[i].labelIdx &&
             Yield(r, c, db.shards[i], k).None?
    ensures Noted(r, c, db, visited + {(i, k)}, seen)
  {
    var more := visited + {(i, k)};
    forall text | text in seen ensures Source(r, c, db, more, text, seen[text]) {
      MoreSources(r, c, db, visited, (i, k), text, seen[text]);
    }
    assert At(r, c, db, (i, k)).None?;
    forall p | p in more && At(r, c, db, p).Some? ensures p in visited { }
    assert Stored(db, more);
    assert Recorded(r, c, db, more, seen);
    assert Distinct(r, c, db, more);
  }

  lemma MoreSources(r: Render, c: Constraint, db: DB, visited: Visited, p: (nat, Str), text: Str, id: NodeID)
    requires Source(r, c, db, visited, text, id)
    ensures Source(r, c, db, visited + {p}, text, id)
  {
    var q :| q in visited && At(r, c, db, q) == Some((id, text));
    assert q in visited + {p};
  }

  lemma NoteOne(r: Render, c: Constraint, db: DB, visited: Visited, seen: map<Str, NodeID>, i: nat, k: Str, id: NodeID,
      text: Str)
    requires Noted(r, c, db, visited, seen) && i < |db.shards| && k in db.shards[i].labelIdx
    requires Yield(r, c, db.shards[i], k) == Some((id, text)) && text !in seen
    ensures Noted(r, c, db, visited + {(i, k)}, seen[text := id])
  {
    var more, seen' := visited + {(i, k)}, seen[text := id];
    forall t | t in seen' ensures Source(r, c, db, more, t, seen'[t]) {
      if t == text {
        assert (i, k) in more;
      } else {
        MoreSources(r, c, db, visited, (i, k), t, seen[t]);
      }
    }
  }

  /** A value noted before makes the constraint fail. */
  lemma FoundDuplicate(r: Render, c: Constraint, db: DB, visited: Visited, seen: map<Str, NodeID>, i: nat, k: Str,
      id: NodeID, text: Str)
    requires Noted(r, c, db, visited, seen) && (i, k) !in visited && i < |db.shards| && k in db.shards[i].labelIdx
    requires Yield(r, c, db.shards[i], k) == Some((id, text)) && text in seen
    ensures Duplicated(r, c, db)
  {
    assert Source(r, c, db, visited, text, seen[text]);
    var q :| q in visited && At(r, c, db, q) == Some((seen[text], text));
    YieldIs(r, c, db, i, k, id, text);
    YieldIs(r, c, db, q.0, q.1, seen[text], text);
    assert (i, k) != (q.0, q.1);
    assert Repeats(r, c, db, i, k, id, q.0, q.1, seen[text], text);
  }

  /** Every key of the label's prefix has been visited. */
  ghost predicate Complete(c: Constraint, db: DB, visited: Visited) {
    forall i: nat, k {:trigger (i, k) in visited} ::
        i < |db.shards| && k in db.shards[i].labelIdx && IndexPrefix(c.name) <= k ==> (i, k) in visited
  }

  lemma NoDuplicates(r: Render, c: Constraint, db: DB, visited: Visited, seen: map<Str, NodeID>)
    requires Noted(r, c, db, visited, seen) && Complete(c, db, visited)
    ensures !Duplicated(r, c, db)
  {
    forall i: nat, k, id: NodeID, j: nat, k', id': NodeID, text ensures !Repeats(r, c, db, i, k, id, j, k', id', text) {
      YieldIs(r, c, db, i, k, id, text);
      YieldIs(r, c, db, j, k', id', text);
      assert Contributes(r, c, db, i, k, id, text) ==> (i, k) in visited;
      assert Contributes(r, c, db, j, k', id', text) ==> (j, k') in visited;
    }
  }

  /** One shard's label-index scan. */
  method ScanShard(r: Render, c: Constraint, db: DB, i: nat, was: map<Str, NodeID>, ghost before: Visited)
      returns (seen: map<Str, NodeID>, dup: bool, ghost visited: Visited)
    requires i < |db.shards| && Noted(r, c, db, before, was) && forall p :: p in before ==> p.0 < i
    ensures dup ==> Duplicated(r, c, db)
    ensures !dup ==> Noted(r, c, db, visited, seen) && before <= visited && forall p :: p in visited ==> p.0 <= i
    ensures !dup ==> forall k :: k in Met(db.shards[i].labelIdx, IndexPrefix(c.name)) ==> (i, k) in visited
  {
    var sh := db.shards[i];
    var todo := Met(sh.labelIdx, IndexPrefix(c.name));
    seen, dup, visited := was, false, before;
    while todo != {}
      invariant todo <= Met(sh.labelIdx, IndexPrefix(c.name)) && before <= visited
      invariant Noted(r, c, db, visited, seen) && forall p :: p in visited ==> p.0 <= i && (p.0 == i ==> p.1 !in todo)
      invariant forall k :: k in Met(sh.labelIdx, IndexPrefix(c.name)) && k !in todo ==> (i, k) in visited
      decreases |todo|
    {
      var k := First(todo);
      var found := Yield(r, c, sh, k);
      if found.Some? {
        var (id, text) := found.value;
        if text in seen {
          FoundDuplicate(r, c, db, visited, seen, i, k, id, text);
          return seen, true, visited;
        }
        NoteOne(r, c, db, visited, seen, i, k, id, text);
        seen := seen[text := id];
      } else {
        NoteNothing(r, c, db, visited, seen, i, k);
      }
      visited, todo := visited + {(i, k)}, todo - {k};
    }
  }

  /** Phase 1 over all shards: the values seen, or a duplicate. */
  method ScanAll(r: Render, c: Constraint, db: DB) returns (seen: map<Str, NodeID>, dup: bool, ghost visited: Visited)
    ensures dup <==> Duplicated(r, c, db)
    ensures !dup ==> Noted(r, c, db, visited, seen) && Complete(c, db, visited)
  {
    seen, dup, visited := map[], false, {};
    for i := 0 to |db.shards|
      invariant Noted(r, c, db, visited, seen) && forall p :: p in visited ==> p.0 < i
      invariant forall j: nat, k {:trigger (j, k) in visited} ::
                  j < i && k in db.shards[j].labelIdx && IndexPrefix(c.name) <= k ==> (j, k) in visited
    {
      var more, d, v := ScanShard(r, c, db, i, seen, visited);
      if d {
        return more, true, v;
      }
      seen, visited := more, v;
    }
    NoDuplicates(r, c, db, visited, seen);
  }

  // ---- the follower's scan: no check, a later value overwrites an earlier one -------------------------------

  function NoteLast(r: Render, c: Constraint, sh: Shard, k: Str, seen: map<Str, NodeID>): map<Str, NodeID> {
    match Yield(r, c, sh, k)
    case Some((id, text)) => seen[text := id]
    case None => seen
  }

  /** The keys in cursor order. */
  function Overwritten(r: Render, c: Constraint, sh: Shard, walk: seq<Str>, seen: map<Str, NodeID>): map<Str, NodeID> {
    if walk == [] then seen else Overwritten(r, c, sh, walk[1..], NoteLast(r, c, sh, walk[0], seen))
  }

  /** The first `i` shards in turn. */
  function LastSeen(r: Render, c: Constraint, shards: seq<Shard>, i: nat): map<Str, NodeID>
    requires i <= |shards|
  {
    if i == 0 then map[]
    else Overwritten(r, c, shards[i - 1], Walk(Met(shards[i - 1].labelIdx, IndexPrefix(c.name))),
                     LastSeen(r, c, shards, i - 1))
  }

  lemma WalkOn(r: Render, c: Constraint, sh: Shard, todo: set<Str>, seen: map<Str, NodeID>)
    requires todo != {}
    ensures Overwritten(r, c, sh, Walk(todo), seen) ==
              Overwritten(r, c, sh, Walk(todo - {First(todo)}), NoteLast(r, c, sh, First(todo), seen))
  {
    assert Walk(todo)[1..] == Walk(todo - {First(todo)});
  }

  method ScanOverwriting(r: Render, c: Constraint, shards: seq<Shard>) returns (seen: map<Str, NodeID>)
    ensures seen == LastSeen(r, c, shards, |shards|)
  {
    seen := map[];
    for i := 0 to |shards|
      invariant seen == LastSeen(r, c, shards, i)
    {
      ghost var was := seen;
      var sh := shards[i];
      var todo := Met(sh.labelIdx, IndexPrefix(c.name));
      ghost var all := todo;
      while todo != {}
        invariant todo <= all && Overwritten(r, c, sh, Walk(todo), seen) == Overwritten(r, c, sh, Walk(all), was)
        decreases |todo|
      {
        var k := First(todo);
        WalkOn(r, c, sh, todo, seen);
        var found := Yield(r, c, sh, k);
        if found.Some? {
          seen := seen[found.value.1 := found.value.0];
        }
        todo := todo - {k};
      }
    }
  }

  // ---- phase 2: the entries ---------------------------------------------------------------------------

  /** The rendered value in a unique key of the constraint. */
  function TextOf(c: Constraint, key: Str): Str {
    if |key| >= |c.name| + |c.prop| + 2 then key[|c.name| + |c.prop| + 2..] else []
  }

  lemma TextOfKey(c: Constraint, text: Str)
    ensures TextOf(c, UniqueKey(c.name, c.prop, text)) == text
  {
  }

  /** The key of a noted value whose node belongs to shard `i`. */
  predicate Entered(c: Constraint, seen: map<Str, NodeID>, n: nat, i: nat, key: Str)
    requires n > 0
  {
    key == UniqueKey(c.name, c.prop, TextOf(c, key)) && TextOf(c, key) in seen && seen[TextOf(c, key)] % n == i
  }

  ghost predicate EntriesAt(sh: Shard, was: Shard, c: Constraint, seen: map<Str, NodeID>, n: nat, i: nat)
    requires n > 0
  {
    && sh == was.(uniqIdx := sh.uniqIdx)
    && forall key {:trigger key in sh.uniqIdx} ::
         && (key in sh.uniqIdx <==> key in was.uniqIdx || Entered(c, seen, n, i, key))
         && (key in sh.uniqIdx ==>
             sh.uniqIdx[key] == if Entered(c, seen, n, i, key) then seen[TextOf(c, key)] else was.uniqIdx[key])
  }

  /** The shard with the entries of its own nodes among the noted values. */
  ghost function WithEntries(sh: Shard, c: Constraint, seen: map<Str, NodeID>, n: nat, i: nat): Shard
    requires n > 0
  {
    var keys := set text | text in seen && seen[text] % n == i :: UniqueKey(c.name, c.prop, text);
    sh.(uniqIdx := sh.uniqIdx + map key | key in keys :: if TextOf(c, key) in seen then seen[TextOf(c, key)] else 0)
  }

  lemma EntriesAre(sh: Shard, was: Shard, c: Constraint, seen: map<Str, NodeID>, n: nat, i: nat)
    requires n > 0 && EntriesAt(sh, was, c, seen, n, i)
    ensures sh == WithEntries(was, c, seen, n, i)
  {
    var spec := WithEntries(was, c, seen, n, i);
    forall key ensures (key in sh.uniqIdx <==> key in spec.uniqIdx) &&
        (key in sh.uniqIdx && key in spec.uniqIdx ==> sh.uniqIdx[key] == spec.uniqIdx[key]) {
      EnteredIs(c, seen, n, i, key);
    }
    assert sh.uniqIdx == spec.uniqIdx;
  }

  lemma EnteredIs(c: Constraint, seen: map<Str, NodeID>, n: nat, i: nat, key: Str)
    requires n > 0
    ensures Entered(c, seen, n, i, key) <==>
              key in (set text | text in seen && seen[text] % n == i :: UniqueKey(c.name, c.prop, text))
  {
    if key in (set text | text in seen && seen[text] % n == i :: UniqueKey(c.name, c.prop, text)) {
      var text :| text in seen && seen[text] % n == i && key == UniqueKey(c.name, c.prop, text);
      TextOfKey(c, text);
    }
  }

  ghost predicate EntriesIn(shards: seq<Shard>, was: seq<Shard>, c: Constraint, seen: map<Str, NodeID>) {
    && |shards| == |was| && |was| > 0
    && forall i {:trigger shards[i]} :: 0 <= i < |was| ==> EntriesAt(shards[i], was[i], c, seen, |was|, i)
  }

  lemma EntryStep(sh: Shard, was: Shard, c: Constraint, seen: map<Str, NodeID>, n: nat, i: nat, text: Str, id: NodeID)
    requires n > 0 && EntriesAt(sh, was, c, seen, n, i) && text !in seen
    ensures EntriesAt(if id % n == i then sh.(uniqIdx := sh.uniqIdx[UniqueKey(c.name, c.prop, text) := id])
                      else sh, was, c, seen[text := id], n, i)
  {
    TextOfKey(c, text);
  }

  /** Every noted value becomes an entry in the shard of its node. */
  method WriteEntries(c: Constraint, was: seq<Shard>, seen: map<Str, NodeID>) returns (shards: seq<Shard>)
    requires |was| > 0
    ensures EntriesIn(shards, was, c, seen)
  {
    shards := was;
    var todo := seen.Keys;
    ghost var done: map<Str, NodeID> := map[];
    while todo != {}
      invariant todo <= seen.Keys && done == seen - todo && EntriesIn(shards, was, c, done)
      decreases |todo|
    {
      var text :| text in todo;
      var i := seen[text] % |was|;
      forall j | 0 <= j < |was|
        ensures EntriesAt(if j == i then
                          shards[i].(uniqIdx := shards[i].uniqIdx[UniqueKey(c.name, c.prop, text) := seen[text]])
                            else shards[j], was[j], c, done[text := seen[text]], |was|, j)
      {
        EntryStep(shards[j], was[j], c, done, |was|, j, text, seen[text]);
      }
      shards := shards[i := shards[i].(uniqIdx := shards[i].uniqIdx[UniqueKey(c.name, c.prop, text) := seen[text]])];
      assert seen - (todo - {text}) == done[text := seen[text]];
      done, todo := done[text := seen[text]], todo - {text};
    }
    assert seen - todo == seen;
  }

  // ---- the two descriptions agree -------------------------------------------------------------------------

  /** A key is seen for a node exactly when its value is noted with that node. */
  lemma SeenIsNoted(r: Render, c: Constraint, db: DB, visited: Visited, seen: map<Str, NodeID>, key: Str, id: NodeID)
    requires Noted(r, c, db, visited, seen) && Complete(c, db, visited)
    ensures Seen(r, c, db, key, id) <==>
              key == UniqueKey(c.name, c.prop, TextOf(c, key)) && TextOf(c, key) in seen && seen[TextOf(c, key)] == id
  {
    if Seen(r, c, db, key, id) {
      var i: nat, k, text :| Contributes(r, c, db, i, k, id, text) && key == UniqueKey(c.name, c.prop, text);
      YieldIs(r, c, db, i, k, id, text);
      TextOfKey(c, text);
      assert (i, k) in visited;
    }
    if key == UniqueKey(c.name, c.prop, TextOf(c, key)) && TextOf(c, key) in seen && seen[TextOf(c, key)] == id {
      var text := TextOf(c, key);
      assert Source(r, c, db, visited, text, id);
      var p :| p in visited && At(r, c, db, p) == Some((id, text));
      YieldIs(r, c, db, p.0, p.1, id, text);
      assert Contributes(r, c, db, p.0, p.1, id, text);
    }
  }

  lemma SeenKeysAre(r: Render, c: Constraint, db: DB, visited: Visited, seen: map<Str, NodeID>, i: nat, key: Str)
    requires db.Valid() && Noted(r, c, db, visited, seen) && Complete(c, db, visited)
    ensures key in SeenKeys(r, c, db, i) <==> Entered(c, seen, |db.shards|, i, key)
    ensures Entered(c, seen, |db.shards|, i, key) ==> Owner(r, c, db, i, key) == seen[TextOf(c, key)]
  {
    if key in SeenKeys(r, c, db, i) {
      var j, id :| 0 <= j < |db.shards| && id in db.shards[j].nodes && db.Home(id) == i &&
          c.prop in db.shards[j].nodes[id]
        && key == UniqueKey(c.name, c.prop, r(db.shards[j].nodes[id][c.prop])) && Seen(r, c, db, key, id);
      SeenIsNoted(r, c, db, visited, seen, key, id);
    }
    if Entered(c, seen, |db.shards|, i, key) {
      var id := seen[TextOf(c, key)];
      SeenIsNoted(r, c, db, visited, seen, key, id);
      KeyIsSeen(r, c, db, i, key, id);
      forall w: NodeID | Seen(r, c, db, key, w) ensures w == id {
        SeenIsNoted(r, c, db, visited, seen, key, w);
      }
    }
  }

  lemma KeyIsSeen(r: Render, c: Constraint, db: DB, i: nat, key: Str, id: NodeID)
    requires db.Valid() && Seen(r, c, db, key, id) && db.Home(id) == i
    ensures key in SeenKeys(r, c, db, i)
  {
    var j: nat, k, text :| Contributes(r, c, db, j, k, id, text) && key == UniqueKey(c.name, c.prop, text);
    assert id in db.shards[j].nodes && key == UniqueKey(c.name, c.prop, r(db.shards[j].nodes[id][c.prop]));
  }

  /** The entries written are those of the specification. */
  lemma EntriesAreBuilt(r: Render, c: Constraint, db: DB, visited: Visited, seen: map<Str, NodeID>, shards: seq<Shard>)
    requires db.Valid() && Noted(r, c, db, visited, seen) && Complete(c, db, visited) &&
             EntriesIn(shards, db.shards, c, seen)
    ensures shards == BuildUnique(r, c, db).shards
  {
    forall i | 0 <= i < |shards| ensures shards[i] == BuildUnique(r, c, db).shards[i] {
      var built := BuildUnique(r, c, db).shards[i];
      assert EntriesAt(shards[i], db.shards[i], c, seen, |db.shards|, i);
      forall key ensures (key in shards[i].uniqIdx <==> key in built.uniqIdx) &&
          (key in shards[i].uniqIdx ==> shards[i].uniqIdx[key] == built.uniqIdx[key]) {
        SeenKeysAre(r, c, db, visited, seen, i, key);
      }
      assert shards[i].uniqIdx == built.uniqIdx;
    }
  }

  lemma EntriesFrom(was: Shard, c: Constraint, seen: map<Str, NodeID>, n: nat, i: nat)
    requires n > 0
    ensures EntriesAt(WithEntries(was, c, seen, n, i), was, c, seen, n, i)
  {
    var sh := WithEntries(was, c, seen, n, i);
    forall key
      ensures key in sh.uniqIdx <==> key in was.uniqIdx || Entered(c, seen, n, i, key)
      ensures key in sh.uniqIdx ==>
                sh.uniqIdx[key] == if Entered(c, seen, n, i, key) then seen[TextOf(c, key)] else was.uniqIdx[key]
    {
      EnteredIs(c, seen, n, i, key);
    }
  }

  /** The keys visited are those of the first `i` shards that start with the label's prefix. */
  ghost predicate VisitedUpTo(c: Constraint, db: DB, visited: Visited, i: nat) {
    && (forall p {:trigger p in visited} :: p in visited ==> p.0 < i)
    && forall j: nat, k {:trigger (j, k) in visited} ::
         j < i && j < |db.shards| && k in db.shards[j].labelIdx && IndexPrefix(c.name) <= k ==> (j, k) in visited
  }

  /** Without duplicates the overwriting scan notes what the checking one does. */
  lemma {:induction false} ScanAgreesUpTo(r: Render, c: Constraint, db: DB, i: nat) returns (visited: Visited)
    requires !Duplicated(r, c, db) && i <= |db.shards|
    ensures Noted(r, c, db, visited, LastSeen(r, c, db.shards, i)) && VisitedUpTo(c, db, visited, i)
  {
    if i == 0 {
      return {};
    }
    var before := ScanAgreesUpTo(r, c, db, i - 1);
    var met := Met(db.shards[i - 1].labelIdx, IndexPrefix(c.name));
    visited := ShardAgrees(r, c, db, i - 1, met, LastSeen(r, c, db.shards, i - 1), before);
    forall j: nat, k | j < i && k in db.shards[j].labelIdx && IndexPrefix(c.name) <= k ensures (j, k) in visited {
      if j < i - 1 {
        assert (j, k) in before;
      } else {
        assert k in met;
      }
    }
  }

  lemma ScanAgrees(r: Render, c: Constraint, db: DB) returns (visited: Visited)
    requires !Duplicated(r, c, db)
    ensures Noted(r, c, db, visited, LastSeen(r, c, db.shards, |db.shards|)) && Complete(c, db, visited)
  {
    visited := ScanAgreesUpTo(r, c, db, |db.shards|);
  }

  lemma ShardAgrees(r: Render, c: Constraint, db: DB, i: nat, todo: set<Str>, seen: map<Str, NodeID>, before: Visited)
    returns (visited: Visited)
    requires !Duplicated(r, c, db) && i < |db.shards| && todo <= Met(db.shards[i].labelIdx, IndexPrefix(c.name))
    requires Noted(r, c, db, before, seen) && forall p :: p in before ==> p.0 <= i && (p.0 == i ==> p.1 !in todo)
    ensures Noted(r, c, db, visited, Overwritten(r, c, db.shards[i], Walk(todo), seen)) && before <= visited
    ensures (forall p :: p in visited ==> p in before || p.0 == i) && forall k :: k in todo ==> (i, k) in visited
    decreases |todo|
  {
    if todo == {} {
      return before;
    }
    var sh, k := db.shards[i], First(todo);
    WalkOn(r, c, sh, todo, seen);
    var found := Yield(r, c, sh, k);
    if found.None? {
      NoteNothing(r, c, db, before, seen, i, k);
    } else {
      if found.value.1 in seen {
        FoundDuplicate(r, c, db, before, seen, i, k, found.value.0, found.value.1);
      }
      NoteOne(r, c, db, before, seen, i, k, found.value.0, found.value.1);
    }
    visited := ShardAgrees(r, c, db, i, todo - {k}, NoteLast(r, c, sh, k, seen), before + {(i, k)});
  }
}
