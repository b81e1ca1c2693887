/**
 The hot-node cache: sixteen byte-budgeted LRU shards, each a map plus a doubly
 linked list in recency order.
 */
module NodeCache {
  import opened Types

  // ---- what a shard means: its entries, most recent first ------------------------------

  datatype Cached = Cached(key: NodeID, node: Node, size: nat)

  type Recency = seq<Cached>

  ghost function Bytes(s: Recency): nat {
    if s == [] then 0 else Bytes(s[..|s| - 1]) + s[|s| - 1].size
  }

  ghost predicate KeysOnce(s: Recency) {
    forall i, j :: 0 <= i < j < |s| ==> s[i].key != s[j].key
  }

  ghost function Without(s: Recency, key: NodeID): Recency {
    if s == [] then []
    else Without(s[..|s| - 1], key) + if s[|s| - 1].key == key then [] else [s[|s| - 1]]
  }

  ghost function Find(s: Recency, key: NodeID): Option<Cached> {
    if s == [] then None
    else if s[|s| - 1].key == key then Some(s[|s| - 1]) else Find(s[..|s| - 1], key)
  }

  /** Drop from the least recent end until within budget. */
  ghost function Evicted(s: Recency, budget: nat): Recency {
    if s == [] || Bytes(s) <= budget then s else Evicted(s[..|s| - 1], budget)
  }

  ghost function Touched(s: Recency, key: NodeID): Recency {
    match Find(s, key)
    case None => s
    case Some(c) => [c] + Without(s, key)
  }

  ghost function Stored(s: Recency, c: Cached, budget: nat): Recency {
    Evicted([c] + Without(s, c.key), budget)
  }

  /** Eviction keeps the longest prefix of the recency order that fits the budget. */
  lemma {:induction false} EvictsFromTheEnd(s: Recency, budget: nat)
    ensures var r := Evicted(s, budget);
            && r <= s && (r == [] || Bytes(r) <= budget)
            && forall n {:trigger s[..n]} :: |r| < n <= |s| ==> Bytes(s[..n]) > budget
  {
    if s != [] && Bytes(s) > budget {
      EvictsFromTheEnd(s[..|s| - 1], budget);
      forall n | |Evicted(s, budget)| < n <= |s| ensures Bytes(s[..n]) > budget {
        if n == |s| {
          assert s[..n] == s;
        } else {
          assert s[..|s| - 1][..n] == s[..n];
        }
      }
    } else {
      assert s[..|s|] == s;
    }
  }

  lemma {:induction false} WithoutAt(s: Recency, k: nat)
    requires KeysOnce(s) && k < |s|
    ensures Without(s, s[k].key) == s[..k] + s[k + 1..]
    ensures Find(s, s[k].key) == Some(s[k])
  {
    var n := |s| - 1;
    if k == n {
      WithoutAbsent(s[..n], s[k].key);
      assert s[k + 1..] == [];
    } else {
      WithoutAt(s[..n], k);
      assert s[..n][..k] == s[..k] && s[..n][k + 1..] + [s[n]] == s[k + 1..];
    }
  }

  lemma {:induction false} WithoutAbsent(s: Recency, key: NodeID)
    requires forall i :: 0 <= i < |s| ==> s[i].key != key
    ensures Without(s, key) == s && Find(s, key) == None
  {
    if s != [] {
      WithoutAbsent(s[..|s| - 1], key);
    }
  }

  lemma {:induction false} BytesConcat(a: Recency, b: Recency)
    ensures Bytes(a + b) == Bytes(a) + Bytes(b)
  {
    if b == [] {
      assert a + b == a;
    } else {
      assert (a + b)[..|a + b| - 1] == a + b[..|b| - 1];
      BytesConcat(a, b[..|b| - 1]);
    }
  }

  // ---- the linked list ---------------------------------------------------------------------

  class Entry {
    const key: NodeID
    var node: Node
    var sizeBytes: nat
    var prev: Entry?
    var next: Entry?

    constructor (key: NodeID, node: Node, sizeBytes: nat)
      ensures this.key == key && this.node == node && this.sizeBytes == sizeBytes && prev == null && next == null
    {
      this.key, this.node, this.sizeBytes := key, node, sizeBytes;
      prev, next := null, null;
    }
  }

  class Shard {
    var items: map<NodeID, Entry>
    var head: Entry?
    var tail: Entry?
    const budget: nat
    var totalBytes: int
    ghost var list: seq<Entry>
    ghost var contents: Recency

    ghost predicate Linked(i: int)
      requires 0 <= i < |list|
      reads this`list, list`prev, list`next
    {
      && list[i].prev == (if i == 0 then null else list[i - 1])
      && list[i].next == (if i == |list| - 1 then null else list[i + 1])
    }

    ghost predicate Apart(i: int, j: int)
      requires 0 <= i < j < |list|
      reads this`list
    {
      list[i].key != list[j].key
    }

    /** The list is well formed both ways. */
    ghost predicate ListOk()
      reads this`list, this`head, this`tail, list`prev, list`next
    {
      && (forall i {:trigger Linked(i)} :: 0 <= i < |list| ==> Linked(i))
      && (forall i, j {:trigger Apart(i, j)} :: 0 <= i < j < |list| ==> Apart(i, j))
      && head == (if list == [] then null else list[0])
      && tail == (if list == [] then null else list[|list| - 1])
    }

    /** The map and the list hold the same entries. */
    ghost predicate MapOk()
      reads this`list, this`items
    {
      && (forall i {:trigger Mapped(i)} :: 0 <= i < |list| ==> Mapped(i))
      && (forall k {:trigger Owned(k)} :: k in items ==> Owned(k))
    }

    ghost predicate Mapped(i: int)
      requires 0 <= i < |list|
      reads this`list, this`items
    {
      list[i].key in items && items[list[i].key] == list[i]
    }

    ghost predicate Owned(k: NodeID)
      requires k in items
      reads this`list, this`items
    {
      items[k] in list && items[k].key == k
    }

    ghost predicate Shown(i: int)
      requires 0 <= i < |list| && |contents| == |list|
      reads this`list, this`contents, list`node, list`sizeBytes
    {
      contents[i] == Cached(list[i].key, list[i].node, list[i].sizeBytes)
    }

    /** `contents` is what the list holds, in list order. */
    ghost predicate ContentsOk()
      reads this`list, this`contents, list`node, list`sizeBytes
    {
      |contents| == |list| && forall i {:trigger Shown(i)} :: 0 <= i < |list| ==> Shown(i)
    }

    ghost predicate Valid()
      reads this, list
    {
      ListOk() && MapOk() && ContentsOk() && totalBytes == Bytes(contents)
    }

    constructor (budget: nat)
      ensures Valid() && list == [] && this.budget == budget && contents == []
    {
      this.budget := budget;
      items, head, tail, totalBytes, list, contents := map[], null, null, 0, [], [];
    }

    /** Position `k` is the only place of its entry. */
    lemma OnlyAt(k: nat)
      requires ListOk() && k < |list|
      ensures forall i {:trigger list[i]} :: 0 <= i < |list| && i != k ==> list[i].key != list[k].key
    {
      forall i | 0 <= i < |list| && i != k ensures list[i].key != list[k].key {
        assert if i < k then Apart(i, k) else Apart(k, i);
      }
    }

    method PushFront(e: Entry)
      requires ListOk() && forall i {:trigger list[i]} :: 0 <= i < |list| ==> list[i].key != e.key
      modifies this`head, this`tail, this`list, e`prev, e`next, list`prev
      ensures ListOk() && list == [e] + old(list)
    {
      ghost var before := list;
      if list != [] {
        OnlyAt(0);
      }
      e.prev := null;
      e.next := head;
      if head != null {
        head.prev := e;
      }
      head := e;
      if tail == null {
        tail := e;
      }
      list := [e] + list;
      forall i | 0 <= i < |list| ensures Linked(i) {
        if i > 0 {
          assert list[i] == before[i - 1];
          assert old(Linked(i - 1));
        }
      }
      forall i, j | 0 <= i < j < |list| ensures Apart(i, j) {
        assert list[j] == before[j - 1];
        if i > 0 {
          assert list[i] == before[i - 1];
          assert old(Apart(i - 1, j - 1));
        }
      }
    }

    method RemoveEntry(e: Entry, ghost k: nat)
      requires ListOk() && k < |list| && list[k] == e
      modifies this`head, this`tail, this`list, list`prev, list`next
      ensures ListOk() && list == old(list)[..k] + old(list)[k + 1..]
      ensures e.prev == null && e.next == null
    {
      ghost var before := list;
      assert Linked(k);
      OnlyAt(k);
      if k > 0 { OnlyAt(k - 1); }
      if k + 1 < |list| { OnlyAt(k + 1); }
      if e.prev != null {
        e.prev.next := e.next;
      } else {
        head := e.next;
      }
      if e.next != null {
        e.next.prev := e.prev;
      } else {
        tail := e.prev;
      }
      e.prev := null;
      e.next := null;
      list := before[..k] + before[k + 1..];
      forall i | 0 <= i < |list| ensures Linked(i) {
        var j := if i < k then i else i + 1;
        assert list[i] == before[j];
        assert old(Linked(j));
      }
      forall i, j | 0 <= i < j < |list| ensures Apart(i, j) {
        assert old(Apart(if i < k then i else i + 1, if j < k then j else j + 1));
      }
    }

    method MoveToFront(e: Entry, ghost k: nat)
      requires ListOk() && k < |list| && list[k] == e
      modifies this`head, this`tail, this`list, list`prev, list`next
      ensures ListOk() && list == [e] + old(list)[..k] + old(list)[k + 1..]
    {
      OnlyAt(k);
      if head == e {
        return;
      }
      ghost var before := list;
      RemoveEntry(e, k);
      forall i | 0 <= i < |list| ensures list[i].key != e.key {
        assert list[i] == before[if i < k then i else i + 1];
      }
      SubFrame(before, k);
      PushFront(e);
      assert list == [e] + before[..k] + before[k + 1..];
    }

    lemma SubFrame(before: seq<Entry>, k: nat)
      requires k < |before| && list == before[..k] + before[k + 1..]
      ensures forall x :: x in list ==> x in before
    {
    }

    lemma SameMembers(before: seq<Entry>, k: nat)
      requires k < |before| && list == [before[k]] + before[..k] + before[k + 1..]
      ensures forall x :: x in list <==> x in before
    {
      assert before == before[..k] + [before[k]] + before[k + 1..];
    }

    /** Where the map's entry sits in the list. */
    ghost function Index(id: NodeID): (k: nat)
      requires MapOk() && id in items
      reads this`list, this`items
      ensures k < |list| && list[k] == items[id] && items[id].key == id
    {
      assert Owned(id);
      var k :| 0 <= k < |list| && list[k] == items[id];
      k
    }

    /** Looking a key up in the map agrees with looking it up in the contents. */
    lemma FoundAt(id: NodeID)
      requires ListOk() && MapOk() && ContentsOk()
      ensures KeysOnce(contents)
      ensures id in items ==>
                var k := Index(id);
                && Find(contents, id) == Some(contents[k])
                && contents[k] == Cached(id, items[id].node, items[id].sizeBytes)
                && Without(contents, id) == contents[..k] + contents[k + 1..]
      ensures id !in items ==> Find(contents, id) == None && Without(contents, id) == contents
    {
      forall i, j | 0 <= i < j < |contents| ensures contents[i].key != contents[j].key {
        assert Shown(i) && Shown(j) && Apart(i, j);
      }
      if id in items {
        assert Shown(Index(id));
        WithoutAt(contents, Index(id));
      } else {
        forall i | 0 <= i < |contents| ensures contents[i].key != id {
          assert Shown(i) && Mapped(i);
        }
        WithoutAbsent(contents, id);
      }
    }

    /** Get: a hit moves to the front; the caller gets its own copy. */
    method Get(id: NodeID) returns (r: Option<Node>)
      requires Valid()
      modifies this, list
      ensures Valid() && contents == Touched(old(contents), id)
      ensures r == match Find(old(contents), id) case None => None case Some(c) => Some(c.node)
      ensures forall i {:trigger list[i]} :: 0 <= i < |list| ==> list[i] in old(list)
    {
      FoundAt(id);
      if id !in items {
        return None;
      }
      var e := items[id];
      Promote(e, Index(id));
      r := Some(e.node);
    }

    /** moveToFront seen from outside: the entry at `k` becomes the most recent. */
    method Promote(e: Entry, ghost k: nat)
      requires ListOk() && MapOk() && ContentsOk() && k < |list| && list[k] == e
      modifies this`head, this`tail, this`list, this`contents, list`prev, list`next
      ensures ListOk() && MapOk() && ContentsOk()
      ensures contents == [old(contents)[k]] + (old(contents)[..k] + old(contents)[k + 1..])
      ensures Bytes(contents) == Bytes(old(contents))
      ensures forall x :: x in list <==> x in old(list)
    {
      ghost var entries, before := list, contents;
      MoveToFront(e, k);
      contents := [before[k]] + (before[..k] + before[k + 1..]);
      SameMembers(entries, k);
      MovedBytes(before, k);
      forall i | 0 <= i < |list| ensures Shown(i) && Mapped(i) {
        var j := if i == 0 then k else if i <= k then i - 1 else i;
        assert list[i] == entries[j] && contents[i] == before[j];
        assert old(Shown(j)) && old(Mapped(j));
      }
      forall x | x in items ensures Owned(x) {
        assert old(Owned(x));
      }
    }

    /** Put: insert or overwrite at the front, then evict. */
    method Put(node: Node, size: nat)
      requires Valid()
      modifies this, list
      ensures Valid() && contents == Stored(old(contents), Cached(node.id, node, size), budget)
      ensures forall x :: x in list ==> x in old(list) || (fresh(x) && x.key == node.id)
    {
      FoundAt(node.id);
      if node.id in items {
        Overwrite(node, size);
      } else {
        var e := Insert(node, size);
      }
      EvictUntilBudget();
    }

    method Insert(node: Node, size: nat) returns (e: Entry)
      requires Valid() && node.id !in items
      modifies this, list
      ensures Valid() && contents == [Cached(node.id, node, size)] + old(contents)
      ensures fresh(e) && e.key == node.id && list == [e] + old(list)
    {
      ghost var before, entries, c := contents, list, Cached(node.id, node, size);
      e := new Entry(node.id, node, size);
      forall i | 0 <= i < |list| ensures list[i].key != node.id {
        assert Mapped(i);
      }
      items := items[node.id := e];
      PushFront(e);
      totalBytes := totalBytes + size;
      contents := [c] + before;
      BytesConcat([c], before);
      assert [c][..0] == [];
      forall i | 0 <= i < |list| ensures Shown(i) && Mapped(i) {
        if i > 0 {
          assert list[i] == entries[i - 1];
          assert old(Shown(i - 1)) && old(Mapped(i - 1));
        }
      }
      forall x | x in items ensures Owned(x) {
        assert x != node.id ==> old(Owned(x));
      }
    }

    method Overwrite(node: Node, size: nat)
      requires Valid() && node.id in items
      modifies this, list
      ensures Valid() && contents == [Cached(node.id, node, size)] + Without(old(contents), node.id)
      ensures forall i {:trigger list[i]} :: 0 <= i < |list| ==> list[i] in old(list)
    {
      FoundAt(node.id);
      var e := items[node.id];
      assert e == list[Index(node.id)];
      ghost var k, before, c := Index(node.id), contents, Cached(node.id, node, size);
      totalBytes := totalBytes + size - e.sizeBytes;
      e.node := node;
      e.sizeBytes := size;
      contents := before[k := c];
      OnlyAt(k);
      forall i | 0 <= i < |list| ensures Shown(i) {
        assert old(Shown(i));
      }
      Promote(e, k);
      assert contents == [c] + (before[..k] + before[k + 1..]);
      ReplacedBytes(before, k, c);
    }

    method EvictUntilBudget()
      requires Valid()
      modifies this, list
      ensures Valid() && contents == Evicted(old(contents), budget)
      ensures list <= old(list)
    {
      ghost var before, entries := contents, list;
      while totalBytes > budget && tail != null
        invariant Valid() && list <= entries
        invariant Evicted(contents, budget) == Evicted(before, budget)
        decreases |list|
      {
        EvictOne();
      }
    }

    method EvictOne()
      requires Valid() && tail != null && totalBytes > budget
      modifies this, list
      ensures Valid() && list == old(list)[..|old(list)| - 1]
      ensures contents == old(contents)[..|old(list)| - 1]
    {
      var victim := tail;
      ghost var n := |list| - 1;
      Detach(victim, n);
      assert old(list)[n + 1..] == [] && old(contents)[n + 1..] == [];
    }

    /** Remove the entry at `k` from list, map and byte count. */
    method Detach(e: Entry, ghost k: nat)
      requires Valid() && k < |list| && list[k] == e
      modifies this, list
      ensures Valid() && list == old(list)[..k] + old(list)[k + 1..]
      ensures contents == old(contents)[..k] + old(contents)[k + 1..]
    {
      ghost var before, entries := contents, list;
      assert Shown(k);
      OnlyAt(k);
      RemoveEntry(e, k);
      totalBytes := totalBytes - e.sizeBytes;
      items := items - {e.key};
      contents := before[..k] + before[k + 1..];
      RemovedBytes(before, k);
      forall i | 0 <= i < |list| ensures Shown(i) && Mapped(i) {
        var j := if i < k then i else i + 1;
        assert list[i] == entries[j] && contents[i] == before[j];
        assert old(Shown(j)) && old(Mapped(j));
      }
      forall x | x in items ensures Owned(x) {
        assert old(Owned(x));
        assert entries == entries[..k] + [e] + entries[k + 1..];
      }
    }

    /** Invalidate: forget one node. */
    method Invalidate(id: NodeID)
      requires Valid()
      modifies this, list
      ensures Valid() && contents == Without(old(contents), id)
      ensures forall i {:trigger list[i]} :: 0 <= i < |list| ==> list[i] in old(list)
    {
      FoundAt(id);
      if id !in items {
        return;
      }
      Detach(items[id], Index(id));
    }
  }

  lemma RemovedBytes(s: Recency, k: nat)
    requires k < |s|
    ensures Bytes(s[..k] + s[k + 1..]) == Bytes(s) - s[k].size
  {
    JoinedBytes(s[..k], s[k], s[k + 1..]);
    assert s == (s[..k] + [s[k]]) + s[k + 1..];
  }

  lemma JoinedBytes(a: Recency, c: Cached, b: Recency)
    ensures Bytes((a + [c]) + b) == Bytes(a + b) + c.size
  {
    BytesConcat(a + [c], b);
    BytesConcat(a, b);
    assert (a + [c])[..|a|] == a;
  }

  lemma ReplacedBytes(s: Recency, k: nat, c: Cached)
    requires k < |s|
    ensures Bytes([c] + (s[..k] + s[k + 1..])) == Bytes(s) - s[k].size + c.size
  {
    RemovedBytes(s, k);
    BytesConcat([c], s[..k] + s[k + 1..]);
    assert [c][..0] == [];
  }

  lemma MovedBytes(s: Recency, k: nat)
    requires k < |s|
    ensures Bytes([s[k]] + (s[..k] + s[k + 1..])) == Bytes(s)
  {
    ReplacedBytes(s, k, s[k]);
  }

  // ---- sixteen shards -------------------------------------------------------------------------

  const SHARDS: nat := 16

  /** estimateNodeBytes starts from the sizes of the Node and entry structs. */
  const OVERHEAD: nat := 80

  ghost predicate SizesCount(s: Recency) {
    forall i {:trigger s[i]} :: 0 <= i < |s| ==> s[i].size >= OVERHEAD
  }

  lemma SmallMeansEmpty(s: Recency)
    requires SizesCount(s)
    ensures Bytes(s) < OVERHEAD ==> s == []
  {
    if s != [] {
      assert s[|s| - 1].size >= OVERHEAD;
    }
  }

  lemma {:induction false} WithoutKeepsSizes(s: Recency, key: NodeID)
    requires SizesCount(s)
    ensures SizesCount(Without(s, key))
  {
    if s != [] {
      WithoutKeepsSizes(s[..|s| - 1], key);
      assert s[|s| - 1].size >= OVERHEAD;
    }
  }

  lemma StoredOk(s: Recency, c: Cached, budget: nat)
    requires SizesCount(s) && c.size >= OVERHEAD
    ensures SizesCount(Stored(s, c, budget)) && Bytes(Stored(s, c, budget)) <= budget
  {
    WithoutKeepsSizes(s, c.key);
    EvictsFromTheEnd([c] + Without(s, c.key), budget);
  }

  lemma {:induction false} WithoutBytes(s: Recency, key: NodeID)
    ensures Bytes(Without(s, key)) <= Bytes(s)
  {
    if s != [] {
      var n := |s| - 1;
      WithoutBytes(s[..n], key);
      if s[n].key != key {
        assert (Without(s[..n], key) + [s[n]])[..|Without(s[..n], key)|] == Without(s[..n], key);
      } else {
        assert Without(s[..n], key) + [] == Without(s[..n], key);
      }
    }
  }

  lemma TouchedOk(s: Recency, key: NodeID, k: nat)
    requires SizesCount(s) && KeysOnce(s) && k < |s| && s[k].key == key
    ensures SizesCount(Touched(s, key)) && Bytes(Touched(s, key)) == Bytes(s)
  {
    WithoutAt(s, k);
    WithoutKeepsSizes(s, key);
    MovedBytes(s, k);
  }

  class Cache {
    const shards: seq<Shard>
    const budget: int
    const estimate: Node -> nat

    ghost const perShard: nat

    ghost predicate ShardOk(i: int)
      requires 0 <= i < |shards|
      reads shards[i], shards[i].list
    {
      var s := shards[i];
      && s.Valid() && s.budget == perShard
      && (forall k {:trigger s.list[k]} :: 0 <= k < |s.list| ==> s.list[k].key % SHARDS == i)
      && SizesCount(s.contents) && Bytes(s.contents) <= perShard
    }

    ghost predicate Valid()
      reads *
    {
      && |shards| == SHARDS && perShard == (if budget / SHARDS < 1 then 1 else budget / SHARDS)
      && (forall n :: estimate(n) >= OVERHEAD)
      && (forall i, j {:trigger shards[i], shards[j]} :: 0 <= i < j < |shards| ==> shards[i] != shards[j])
      && forall i {:trigger ShardOk(i)} :: 0 <= i < |shards| ==> ShardOk(i)
    }

    /** newNodeCache: an equal share of the budget per shard, at least one byte. */
    constructor (budget: int, estimate: Node -> nat)
      requires forall n :: estimate(n) >= OVERHEAD
      ensures Valid() && this.budget == budget && this.estimate == estimate
      ensures forall i :: 0 <= i < |shards| ==> shards[i].contents == []
    {
      var per := if budget / SHARDS < 1 then 1 else budget / SHARDS;
      var made: seq<Shard> := [];
      for n := 0 to SHARDS
        invariant |made| == n
        invariant forall i, j {:trigger made[i], made[j]} :: 0 <= i < j < n ==> made[i] != made[j]
        invariant forall i {:trigger made[i]} :: 0 <= i < n ==>
                    fresh(made[i]) && made[i].Valid() && made[i].budget == per && made[i].list == [] &&
                        made[i].contents == []
      {
        var s := new Shard(per);
        made := made + [s];
      }
      this.budget, this.estimate, this.shards, this.perShard := budget, estimate, made, per;
      new;
      assert forall i {:trigger ShardOk(i)} :: 0 <= i < |shards| ==> ShardOk(i);
    }

    /** Entries of other shards are other entries: their keys differ modulo the shard count. */
    lemma ListsApart(i: nat)
      requires Valid() && i < |shards|
      ensures forall j {:trigger shards[j]} :: 0 <= j < |shards| && j != i ==>
                shards[j] != shards[i] && forall k {:trigger shards[j].list[k]} :: 0 <= k < |shards[j].list| ==>
                    shards[j].list[k] !in shards[i].list
    {
      assert ShardOk(i);
      forall j | 0 <= j < |shards| && j != i ensures shards[j] != shards[i] &&
        forall k {:trigger shards[j].list[k]} :: 0 <= k < |shards[j].list| ==> shards[j].list[k] !in shards[i].list
      {
        assert ShardOk(j);
      }
    }

    method Put(node: Node)
      requires Valid()
      modifies shards[node.id % SHARDS], shards[node.id % SHARDS].list
      ensures Valid()
      ensures forall j {:trigger shards[j]} :: 0 <= j < |shards| ==>
                shards[j].contents ==
                if budget > 0 && j == node.id % SHARDS
                then Stored(old(shards[j].contents), Cached(node.id, node, estimate(node)), perShard)
                else old(shards[j].contents)
    {
      if budget <= 0 {
        return;
      }
      var i := node.id % SHARDS;
      var s := shards[i];
      assert ShardOk(i);
      var size := estimate(node);
      StoredOk(s.contents, Cached(node.id, node, size), perShard);
      ListsApart(i);
      s.Put(node, size);
      forall j | 0 <= j < |shards| ensures ShardOk(j) {
        assert j != i ==> old(ShardOk(j));
      }
    }

    method Get(id: NodeID) returns (r: Option<Node>)
      requires Valid()
      modifies shards[id % SHARDS], shards[id % SHARDS].list
      ensures Valid()
      ensures r == if budget <= 0 then None else
                match Find(old(shards[id % SHARDS].contents), id) case None => None case Some(c) => Some(c.node)
      ensures forall j {:trigger shards[j]} :: 0 <= j < |shards| ==>
                shards[j].contents ==
                if budget > 0 && j == id % SHARDS then Touched(old(shards[j].contents), id) else old(shards[j].contents)
      ensures forall k {:trigger shards[id % SHARDS].list[k]} :: 0 <= k < |shards[id % SHARDS].list| ==>
                shards[id % SHARDS].list[k] in old(shards[id % SHARDS].list)
    {
      if budget <= 0 {
        return None;
      }
      var i := id % SHARDS;
      assert ShardOk(i);
      ListsApart(i);
      GetOk(shards[i], id);
      r := shards[i].Get(id);
      forall j | 0 <= j < |shards| ensures ShardOk(j) {
        assert j != i ==> old(ShardOk(j));
      }
    }

    lemma GetOk(s: Shard, id: NodeID)
      requires s.Valid() && SizesCount(s.contents)
      ensures SizesCount(Touched(s.contents, id)) && Bytes(Touched(s.contents, id)) == Bytes(s.contents)
    {
      s.FoundAt(id);
      if id in s.items {
        TouchedOk(s.contents, id, s.Index(id));
      }
    }

    lemma InvalidateOk(s: Recency, id: NodeID, budget: nat)
      requires SizesCount(s) && Bytes(s) <= budget
      ensures SizesCount(Without(s, id)) && Bytes(Without(s, id)) <= budget
    {
      WithoutKeepsSizes(s, id);
      WithoutBytes(s, id);
    }

    method Invalidate(id: NodeID)
      requires Valid()
      modifies shards[id % SHARDS], shards[id % SHARDS].list
      ensures Valid()
      ensures forall j {:trigger shards[j]} :: 0 <= j < |shards| ==>
                shards[j].contents ==
                if budget > 0 && j == id % SHARDS then Without(old(shards[j].contents), id) else old(shards[j].contents)
    {
      if budget <= 0 {
        return;
      }
      var i := id % SHARDS;
      assert ShardOk(i);
      ListsApart(i);
      InvalidateOk(shards[i].contents, id, perShard);
      shards[i].Invalidate(id);
      forall j | 0 <= j < |shards| ensures ShardOk(j) {
        assert j != i ==> old(ShardOk(j));
      }
    }

    /** TotalBytes: never above a positive budget, even one smaller than the number of shards. */
    method TotalBytes() returns (total: int)
      requires Valid()
      ensures 0 <= total && (budget > 0 ==> total <= budget)
    {
      total := 0;
      if budget <= 0 {
        return;
      }
      for i := 0 to |shards|
        invariant 0 <= total <= i * perShard
        invariant budget < SHARDS ==> total == 0
      {
        assert ShardOk(i);
        if budget < SHARDS {
          SmallMeansEmpty(shards[i].contents);
        }
        total := total + shards[i].totalBytes;
      }
    }
  }
}
