/**
 Ascending iteration. A bucket keyed by big-endian IDs is walked in byte order, which is
 ID order (Keys.IDOrder), so a cursor over a set of IDs yields them smallest first.
 */
module Cursor {
  import opened Types
  import opened Values
  import opened Keys

  predicate StrictlyAscending(s: seq<uint64>) {
    forall i, j :: 0 <= i < j < |s| ==> s[i] < s[j]
  }

  predicate IsLeast(x: uint64, ids: set<uint64>) {
    x in ids && forall y :: y in ids ==> x <= y
  }

  lemma {:induction false} HasLeast(ids: set<uint64>)
    requires ids != {}
    ensures exists x: uint64 :: IsLeast(x, ids)
  {
    var z :| z in ids;
    var rest := ids - {z};
    assert forall y :: y in ids ==> y == z || y in rest;
    if rest == {} {
      assert IsLeast(z, ids);
    } else {
      HasLeast(rest);
      var x: uint64 :| IsLeast(x, rest);
      assert IsLeast(if z < x then z else x, ids);
    }
  }

  function Least(ids: set<uint64>): (x: uint64)
    requires ids != {}
    ensures IsLeast(x, ids)
  {
    HasLeast(ids);
    var x: uint64 :| IsLeast(x, ids);
    x
  }

  ghost predicate Lists(s: seq<uint64>, ids: set<uint64>) {
    forall x :: x in s <==> x in ids
  }

  /** The IDs in the order the cursor yields them. */
  function Ascending(ids: set<uint64>): (s: seq<uint64>)
    ensures StrictlyAscending(s) && Lists(s, ids)
  {
    if ids == {} then [] else [Least(ids)] + Ascending(ids - {Least(ids)})
  }

  lemma {:induction false} EachOnce(s: seq<uint64>, ids: set<uint64>)
    requires StrictlyAscending(s) && Lists(s, ids)
    ensures multiset(s) == multiset(ids) && |s| == |ids|
  {
    if s == [] {
      assert ids == {};
    } else {
      var x := s[0];
      assert s == [x] + s[1..];
      forall y ensures y in s[1..] <==> y in ids - {x} {
        assert y in s <==> y == x || y in s[1..];
      }
      EachOnce(s[1..], ids - {x});
      assert multiset(s) == multiset{x} + multiset(s[1..]);
      assert multiset(ids) == multiset{x} + multiset(ids - {x});
    }
  }

  /** There is only one ascending listing of a set. */
  lemma {:induction false} AscendingUnique(s: seq<uint64>, t: seq<uint64>)
    requires StrictlyAscending(s) && StrictlyAscending(t) && forall x :: x in s <==> x in t
    ensures s == t
  {
    assert t != [] ==> t[0] in t;
    if s != [] {
      assert s[0] in t && t[0] in s;
      assert s[0] == t[0];
      forall x ensures x in s[1..] <==> x in t[1..] {
        assert x in s <==> x == s[0] || x in s[1..];
        assert x in t <==> x == t[0] || x in t[1..];
      }
      AscendingUnique(s[1..], t[1..]);
      assert s == [s[0]] + s[1..] && t == [t[0]] + t[1..];
    }
  }

  /** Filtering a walk is walking the filtered set. */
  function Select(s: seq<uint64>, keep: set<uint64>): seq<uint64> {
    if s == [] then [] else Select(s[..|s| - 1], keep) + if s[|s| - 1] in keep then [s[|s| - 1]] else []
  }

  lemma {:induction false} SelectIn(s: seq<uint64>, keep: set<uint64>)
    ensures forall x :: x in Select(s, keep) <==> x in s && x in keep
  {
    if s != [] {
      SelectIn(s[..|s| - 1], keep);
      assert s == s[..|s| - 1] + [s[|s| - 1]];
    }
  }

  lemma {:induction false} SelectAscends(s: seq<uint64>, keep: set<uint64>)
    requires StrictlyAscending(s)
    ensures StrictlyAscending(Select(s, keep))
  {
    if s != [] {
      SelectAscends(s[..|s| - 1], keep);
      var head := Select(s[..|s| - 1], keep);
      SelectIn(s[..|s| - 1], keep);
      forall i | 0 <= i < |head| ensures head[i] < s[|s| - 1] {
        assert head[i] in s[..|s| - 1];
      }
    }
  }

  lemma SelectOfSet(ids: set<uint64>, keep: set<uint64>)
    ensures Select(Ascending(ids), keep) == Ascending(ids * keep)
  {
    SelectAscends(Ascending(ids), keep);
    SelectIn(Ascending(ids), keep);
    AscendingUnique(Select(Ascending(ids), keep), Ascending(ids * keep));
  }

  // ---- keys in byte order ----------------------------------------------------------------------------

  predicate Before(a: Str, b: Str) {
    CompareStr(a, b) < 0
  }

  lemma BeforeTransitive(a: Str, b: Str, c: Str)
    requires Before(a, b) && Before(b, c)
    ensures Before(a, c)
  {
    StrTransitive(a, b, c);
    StrAntisymmetric(a, c);
    StrAntisymmetric(a, b);
    if a == c {
      StrAntisymmetric(b, c);
    }
  }

  predicate IsFirst(x: Str, keys: set<Str>) {
    x in keys && forall y :: y in keys ==> y == x || Before(x, y)
  }

  lemma {:induction false} HasFirst(keys: set<Str>)
    requires keys != {}
    ensures exists x :: IsFirst(x, keys)
  {
    var z :| z in keys;
    var rest := keys - {z};
    assert forall y :: y in keys ==> y == z || y in rest;
    if rest == {} {
      assert IsFirst(z, keys);
    } else {
      HasFirst(rest);
      var x :| IsFirst(x, rest);
      StrAntisymmetric(x, z);
      if Before(z, x) {
        forall y | y in keys ensures y == z || Before(z, y) {
          if y != z && y != x {
            BeforeTransitive(z, x, y);
          }
        }
        assert IsFirst(z, keys);
      } else {
        assert IsFirst(x, keys);
      }
    }
  }

  lemma FirstUnique(x: Str, y: Str, keys: set<Str>)
    requires IsFirst(x, keys) && IsFirst(y, keys)
    ensures x == y
  {
    StrAntisymmetric(x, y);
  }

  function First(keys: set<Str>): (x: Str)
    requires keys != {}
    ensures IsFirst(x, keys)
  {
    HasFirst(keys);
    assert forall x, y :: IsFirst(x, keys) && IsFirst(y, keys) ==> x == y by {
      forall x, y | IsFirst(x, keys) && IsFirst(y, keys) ensures x == y { FirstUnique(x, y, keys); }
    }
    var x :| IsFirst(x, keys);
    x
  }

  /** The keys in cursor order. */
  function Walk(keys: set<Str>): seq<Str> {
    if keys == {} then [] else [First(keys)] + Walk(keys - {First(keys)})
  }

  lemma FirstIs(keys: set<Str>, x: Str)
    requires IsFirst(x, keys)
    ensures keys != {} && First(keys) == x
  {
    FirstUnique(x, First(keys), keys);
  }

  // ---- keys of one prefix ------------------------------------------------------------------------------

  function KeyedBy(prefix: Str, ids: set<uint64>): set<Str> {
    set id | id in ids :: prefix + EncodeID(id)
  }

  lemma {:induction false} SamePrefixOrder(prefix: Str, a: Str, b: Str)
    ensures CompareStr(prefix + a, prefix + b) == CompareStr(a, b)
  {
    if prefix == [] {
      assert prefix + a == a && prefix + b == b;
    } else {
      assert (prefix + a)[1..] == prefix[1..] + a && (prefix + b)[1..] == prefix[1..] + b;
      SamePrefixOrder(prefix[1..], a, b);
    }
  }

  lemma KeyedInjective(prefix: Str, a: uint64, b: uint64)
    requires prefix + EncodeID(a) == prefix + EncodeID(b)
    ensures a == b
  {
    assert (prefix + EncodeID(a))[|prefix|..] == EncodeID(a) && (prefix + EncodeID(b))[|prefix|..] == EncodeID(b);
    IDInjective(a, b);
  }

  /** The ID after the prefix. */
  function DecodeAfter(prefix: Str, k: Str): nat
    requires |k| >= |prefix| + 8
  {
    FromBigEndian(k[|prefix|..|prefix| + 8])
  }

  lemma DecodeKeyed(prefix: Str, id: uint64)
    ensures DecodeAfter(prefix, prefix + EncodeID(id)) == id
  {
    assert (prefix + EncodeID(id))[|prefix|..|prefix| + 8] == EncodeID(id);
    IDRoundTrip(id);
  }

  lemma FirstKeyed(prefix: Str, ids: set<uint64>)
    requires ids != {}
    ensures IsFirst(prefix + EncodeID(Least(ids)), KeyedBy(prefix, ids))
  {
    var x := Least(ids);
    forall y | y in KeyedBy(prefix, ids) ensures y == prefix + EncodeID(x) || Before(prefix + EncodeID(x), y) {
      var id :| id in ids && y == prefix + EncodeID(id);
      SamePrefixOrder(prefix, EncodeID(x), EncodeID(id));
      IDOrder(x, id);
    }
  }

  lemma KeyedMinus(prefix: Str, ids: set<uint64>, x: uint64)
    requires x in ids
    ensures KeyedBy(prefix, ids) - {prefix + EncodeID(x)} == KeyedBy(prefix, ids - {x})
  {
    forall k | k in KeyedBy(prefix, ids - {x}) ensures k != prefix + EncodeID(x) {
      var id :| id in ids - {x} && k == prefix + EncodeID(id);
      if k == prefix + EncodeID(x) {
        KeyedInjective(prefix, id, x);
      }
    }
  }

  function Keyed(prefix: Str, s: seq<uint64>): seq<Str> {
    if s == [] then [] else [prefix + EncodeID(s[0])] + Keyed(prefix, s[1..])
  }

  /** Over the keys of one prefix the byte order is the ID order. */
  lemma {:induction false} WalkKeyed(prefix: Str, ids: set<uint64>)
    ensures Walk(KeyedBy(prefix, ids)) == Keyed(prefix, Ascending(ids))
  {
    var keys := KeyedBy(prefix, ids);
    if ids == {} {
      assert keys == {};
    } else {
      var x := Least(ids);
      FirstKeyed(prefix, ids);
      FirstIs(keys, prefix + EncodeID(x));
      KeyedMinus(prefix, ids, x);
      WalkKeyed(prefix, ids - {x});
      assert Ascending(ids)[1..] == Ascending(ids - {x});
    }
  }

  /** The keys that start with the prefix. */
  function Met(keys: set<Str>, prefix: Str): set<Str> {
    set k | k in keys && prefix <= k
  }

  // ---- the seek loop --------------------------------------------------------------------------------

  /** The IDs after the prefix of the walked keys, short keys and missing records skipped. */
  function Decoded<V>(records: map<uint64, V>, prefix: Str, walk: seq<Str>): seq<uint64> {
    if walk == [] then []
    else
      var k := walk[|walk| - 1];
      Decoded(records, prefix, walk[..|walk| - 1])
      + if |k| >= |prefix| + 8 && DecodeAfter(prefix, k) in records then [DecodeAfter(prefix, k)] else []
  }

  /** Seek the prefix and walk on while keys start with it. */
  method SeekIDs<V>(records: map<uint64, V>, keys: set<Str>, prefix: Str) returns (found: seq<uint64>)
    ensures found == Decoded(records, prefix, Walk(Met(keys, prefix)))
  {
    var walk := Walk(Met(keys, prefix));
    found := [];
    for j := 0 to |walk|
      invariant found == Decoded(records, prefix, walk[..j])
    {
      assert walk[..j + 1][..j] == walk[..j];
      if |walk[j]| >= |prefix| + 8 {
        var id := DecodeAfter(prefix, walk[j]);
        if id in records {
          found := found + [id];
        }
      }
    }
    assert walk[..|walk|] == walk;
  }

  /** Each key of the walk carries the ID of the same position, which has a record. */
  ghost predicate Decodes<V>(records: map<uint64, V>, prefix: Str, walk: seq<Str>, order: seq<uint64>) {
    && |walk| == |order|
    && forall j {:trigger walk[j]} :: 0 <= j < |walk| ==>
         |walk[j]| >= |prefix| + 8 && DecodeAfter(prefix, walk[j]) == order[j] && order[j] in records
  }

  lemma {:induction false} DecodedIs<V>(records: map<uint64, V>, prefix: Str, walk: seq<Str>, order: seq<uint64>)
    requires Decodes(records, prefix, walk, order)
    ensures Decoded(records, prefix, walk) == order
  {
    if walk != [] {
      var last := |walk| - 1;
      assert forall j :: 0 <= j < last ==> walk[..last][j] == walk[j];
      DecodedIs(records, prefix, walk[..last], order[..last]);
      assert order == order[..last] + [order[last]];
    }
  }

  /** Over keys that are the prefix and an ID, the walk decodes to the IDs in order. */
  lemma SeekExact<V>(records: map<uint64, V>, keys: set<Str>, prefix: Str, ids: set<uint64>)
    requires Met(keys, prefix) == KeyedBy(prefix, ids) && ids <= records.Keys
    ensures Decoded(records, prefix, Walk(Met(keys, prefix))) == Ascending(ids)
  {
    WalkKeyed(prefix, ids);
    var walk, order := Keyed(prefix, Ascending(ids)), Ascending(ids);
    KeyedLength(prefix, order);
    forall j | 0 <= j < |walk|
      ensures |walk[j]| >= |prefix| + 8 && DecodeAfter(prefix, walk[j]) == order[j] && order[j] in records
    {
      DecodesTo(prefix, ids, j);
    }
    DecodedIs(records, prefix, walk, order);
  }

  lemma DecodesTo(prefix: Str, ids: set<uint64>, j: nat)
    requires j < |Ascending(ids)|
    ensures var walk, order := Keyed(prefix, Ascending(ids)), Ascending(ids);
            |walk| == |order| && |walk[j]| == |prefix| + 8 && DecodeAfter(prefix, walk[j]) == order[j] &&
                order[j] in ids
  {
    var order := Ascending(ids);
    KeyedAt(prefix, order, j);
    DecodeKeyed(prefix, order[j]);
    assert order[j] in order;
  }

  lemma {:induction false} KeyedLength(prefix: Str, s: seq<uint64>)
    ensures |Keyed(prefix, s)| == |s|
  {
    if s != [] {
      KeyedLength(prefix, s[1..]);
    }
  }

  lemma {:induction false} KeyedAt(prefix: Str, s: seq<uint64>, j: nat)
    requires j < |s|
    ensures |Keyed(prefix, s)| == |s| && Keyed(prefix, s)[j] == prefix + EncodeID(s[j])
  {
    KeyedLength(prefix, s);
    if j > 0 {
      KeyedAt(prefix, s[1..], j - 1);
    }
  }
}
