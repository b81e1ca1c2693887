/**
 Key encodings: big-endian integers, NUL-separated index keys and multi-field
 keys, with the facts that make prefix scans over them exact.
 */
module Keys {
  import opened Types
  import opened Values

  function Pow256(n: nat): nat {
    if n == 0 then 1 else 256 * Pow256(n - 1)
  }

  /** `n` bytes, most significant first. */
  function BigEndian(v: nat, n: nat): (s: Str)
    ensures |s| == n
  {
    if n == 0 then [] else BigEndian(v / 256, n - 1) + [(v % 256) as byte]
  }

  function FromBigEndian(s: Str): nat {
    if s == [] then 0 else 256 * FromBigEndian(s[..|s| - 1]) + s[|s| - 1] as nat
  }

  lemma {:induction false} BigEndianRoundTrip(v: nat, n: nat)
    requires v < Pow256(n)
    ensures FromBigEndian(BigEndian(v, n)) == v
  {
    if n > 0 {
      BigEndianRoundTrip(v / 256, n - 1);
      assert BigEndian(v, n)[..n - 1] == BigEndian(v / 256, n - 1);
    }
  }

  lemma EightBytes()
    ensures Pow256(8) == TWO64
  {
    assert Pow256(4) == 256 * 256 * 256 * 256;
    assert Pow256(8) == 256 * 256 * 256 * 256 * Pow256(4);
  }

  function EncodeID(id: uint64): (s: Str)
    ensures |s| == 8
  {
    BigEndian(id, 8)
  }

  lemma IDRoundTrip(id: uint64)
    ensures FromBigEndian(EncodeID(id)) == id
  {
    EightBytes();
    BigEndianRoundTrip(id, 8);
  }

  lemma IDInjective(a: uint64, b: uint64)
    requires EncodeID(a) == EncodeID(b)
    ensures a == b
  {
    IDRoundTrip(a);
    IDRoundTrip(b);
  }

  lemma {:induction false} CompareLastByte(a: Str, b: Str, x: byte, y: byte)
    requires |a| == |b|
    ensures CompareStr(a + [x], b + [y]) ==
            if CompareStr(a, b) != 0 then CompareStr(a, b) else if x < y then -1 else if x > y then 1 else 0
  {
    if a != [] {
      assert (a + [x])[1..] == a[1..] + [x] && (b + [y])[1..] == b[1..] + [y];
      CompareLastByte(a[1..], b[1..], x, y);
    }
  }

  lemma {:induction false} BigEndianOrder(a: nat, b: nat, n: nat)
    requires a < Pow256(n) && b < Pow256(n)
    ensures CompareStr(BigEndian(a, n), BigEndian(b, n)) == if a < b then -1 else if a > b then 1 else 0
  {
    if n > 0 {
      BigEndianOrder(a / 256, b / 256, n - 1);
      CompareLastByte(BigEndian(a / 256, n - 1), BigEndian(b / 256, n - 1), (a % 256) as byte, (b % 256) as byte);
    }
  }

  /** Byte order of encoded IDs is numeric order, so a bucket keyed by ID iterates in ID order. */
  lemma IDOrder(a: uint64, b: uint64)
    ensures CompareStr(EncodeID(a), EncodeID(b)) == if a < b then -1 else if a > b then 1 else 0
  {
    EightBytes();
    BigEndianOrder(a, b, 8);
  }

  // ---- prefix + NUL + ID ---------------------------------------------------------

  const NUL: byte := 0
  const COLON: byte := 58

  predicate NulFree(s: Str) {
    NUL !in s
  }

  /** encodeIndexKey, encodeLabelIndexKey. */
  function IndexKey(prefix: Str, id: uint64): Str {
    prefix + [NUL] + EncodeID(id)
  }

  /** encodeIndexPrefix, encodeLabelIndexPrefix. */
  function IndexPrefix(prefix: Str): Str {
    prefix + [NUL]
  }

  /** The last eight bytes tell apart the keys of different IDs, whatever the prefixes. */
  lemma IndexKeyInjective(p: Str, a: uint64, q: Str, b: uint64)
    requires IndexKey(p, a) == IndexKey(q, b)
    ensures a == b && p == q
  {
    var k := IndexKey(p, a);
    assert k[|k| - 8..] == EncodeID(a) && k[|k| - 8..] == EncodeID(b);
    IDInjective(a, b);
    assert k[..|k| - 9] == p && k[..|k| - 9] == q;
  }

  /** Up to a separator that neither name contains, a prefix match is equality. */
  lemma {:induction false} SeparatorSplits(sep: byte, q: Str, p: Str, rest: Str)
    requires sep !in q && sep !in p
    ensures q + [sep] <= p + [sep] + rest <==> p == q
    decreases |q|
  {
    var k, qs := p + [sep] + rest, q + [sep];
    assert k[|p|] == sep;
    if p != [] && q != [] {
      SeparatorSplits(sep, q[1..], p[1..], rest);
      assert qs == [q[0]] + (q[1..] + [sep]) && k == [p[0]] + (p[1..] + [sep] + rest);
      PrefixAfter([p[0]], q[1..] + [sep], p[1..] + [sep] + rest);
      assert p == [p[0]] + p[1..] && q == [q[0]] + q[1..];
      assert qs[0] == q[0] && k[0] == p[0];
    } else {
      assert q != [] ==> qs[0] == q[0];
      assert p != [] ==> k[0] == p[0];
    }
  }

  /** Seeking a NUL-free prefix among NUL-free ones finds exactly its own keys, and the ID follows it. */
  lemma IndexScanExact(q: Str, p: Str, id: uint64)
    requires NulFree(q) && NulFree(p)
    ensures IndexPrefix(q) <= IndexKey(p, id) <==> p == q
    ensures IndexKey(q, id)[|IndexPrefix(q)|..] == EncodeID(id)
  {
    SeparatorSplits(NUL, q, p, EncodeID(id));
  }

  // ---- property keys: "name:value" --------------------------------------------------

  function PropText(name: Str, text: Str): Str {
    name + [COLON] + text
  }

  predicate PlainName(name: Str) {
    NUL !in name && COLON !in name
  }

  lemma PropTextInjective(p: Str, v: Str, q: Str, w: Str)
    requires COLON !in p && COLON !in q && PropText(p, v) == PropText(q, w)
    ensures p == q && v == w
  {
    SeparatorSplits(COLON, p, q, w);
    assert p + [COLON] <= PropText(p, v);
    assert v == PropText(p, v)[|p| + 1..];
  }

  // ---- several NUL-terminated fields --------------------------------------------------

  /** Each field followed by NUL. */
  function Fields(fs: seq<Str>): Str {
    if fs == [] then [] else fs[0] + [NUL] + Fields(fs[1..])
  }

  predicate AllNulFree(fs: seq<Str>) {
    forall f :: f in fs ==> NulFree(f)
  }

  lemma {:induction false} FieldsConcat(a: seq<Str>, b: seq<Str>)
    ensures Fields(a + b) == Fields(a) + Fields(b)
  {
    if a == [] {
      assert a + b == b;
    } else {
      assert (a + b)[1..] == a[1..] + b;
      FieldsConcat(a[1..], b);
    }
  }

  /** A run of NUL-free fields at the start of longer ones is a prefix of the field list. */
  lemma {:induction false} FieldsPrefix(a: seq<Str>, b: seq<Str>, rest: Str)
    requires AllNulFree(a) && AllNulFree(b) && |a| <= |b|
    ensures Fields(a) <= Fields(b) + rest <==> a <= b
  {
    if a != [] {
      var ra, rb := Fields(a[1..]), Fields(b[1..]) + rest;
      assert Fields(a) == IndexPrefix(a[0]) + ra;
      assert Fields(b) + rest == IndexPrefix(b[0]) + rb;
      assert NulFree(a[0]) && NulFree(b[0]);
      SeparatorSplits(NUL, a[0], b[0], rb);
      FieldsPrefix(a[1..], b[1..], rest);
      assert a == [a[0]] + a[1..] && b == [b[0]] + b[1..];
      if a[0] == b[0] {
        PrefixAfter(IndexPrefix(a[0]), ra, rb);
      }
      if Fields(a) <= Fields(b) + rest {
        assert IndexPrefix(a[0]) <= Fields(a);
        assert IndexPrefix(a[0]) <= b[0] + [NUL] + rb;
      }
    }
  }

  lemma PrefixAfter(p: Str, a: Str, b: Str)
    ensures p + a <= p + b <==> a <= b
  {
    if p + a <= p + b {
      assert forall i :: 0 <= i < |a| ==> a[i] == (p + a)[|p| + i] == (p + b)[|p| + i] == b[i];
    }
  }
}
