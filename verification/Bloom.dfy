/**
 The bloom filter in front of HasEdge: four probes by double hashing into a word
 array, over an arbitrary pair of 64-bit hashes.
 */
module Bloom {
  import opened Types

  const PROBES: nat := 4

  type Hash = (NodeID, NodeID) -> (uint64, uint64)

  /** Probe `i`: (h1 + i*h2) with 64-bit wrap-around, modulo the size. A zero h2 is replaced by 1. */
  function Probe(hash: Hash, source: NodeID, target: NodeID, i: nat, size: nat): (k: nat)
    requires size > 0
    ensures k < size
  {
    var (h1, h2) := hash(source, target);
    var step := if h2 == 0 then 1 else h2;
    ((h1 + i * step) % TWO64) % size
  }

  function Mask(k: nat): bv64 {
    1 << (k % 64)
  }

  lemma MaskNonZero(k: nat)
    ensures Mask(k) != 0
  {
    var s := (k % 64) as bv7;
    assert (1 as bv64) << s != 0 by { ShiftNonZero(s); }
  }

  lemma ShiftNonZero(s: bv7)
    requires s < 64
    ensures (1 as bv64) << s != 0
  {
  }

  lemma OrKeeps(w: bv64, m: bv64, n: bv64)
    requires n != 0
    ensures (w | n) & n != 0
    ensures w & m != 0 ==> (w | n) & m != 0
  {
  }

  ghost predicate BitSet(bits: seq<bv64>, k: nat)
    requires k / 64 < |bits|
  {
    bits[k / 64] & Mask(k) != 0
  }

  /** All probes of the pair hit a set bit. */
  ghost predicate Hit(hash: Hash, bits: seq<bv64>, source: NodeID, target: NodeID)
    requires |bits| > 0
  {
    forall i {:trigger Probe(hash, source, target, i, |bits| * 64)} ::
      0 <= i < PROBES ==> BitSet(bits, Probe(hash, source, target, i, |bits| * 64))
  }

  function SetBit(bits: seq<bv64>, k: nat): seq<bv64>
    requires k / 64 < |bits|
  {
    bits[k / 64 := bits[k / 64] | Mask(k)]
  }

  lemma SetBitKeeps(bits: seq<bv64>, k: nat, j: nat)
    requires k / 64 < |bits| && j / 64 < |bits|
    ensures BitSet(SetBit(bits, k), k) && (BitSet(bits, j) ==> BitSet(SetBit(bits, k), j))
  {
    MaskNonZero(k);
    OrKeeps(bits[k / 64], Mask(j), Mask(k));
  }

  /** The words after the first `n` probes of a pair have been set. */
  function Probed(hash: Hash, bits: seq<bv64>, source: NodeID, target: NodeID, n: nat): (after: seq<bv64>)
    requires |bits| > 0
    ensures |after| == |bits|
  {
    if n == 0 then bits
    else SetBit(Probed(hash, bits, source, target, n - 1), Probe(hash, source, target, n - 1, |bits| * 64))
  }

  lemma {:induction false} ProbedKeeps(hash: Hash, bits: seq<bv64>, source: NodeID, target: NodeID, n: nat, j: nat)
    requires |bits| > 0 && j / 64 < |bits| && BitSet(bits, j)
    ensures BitSet(Probed(hash, bits, source, target, n), j)
  {
    if n > 0 {
      ProbedKeeps(hash, bits, source, target, n - 1, j);
      SetBitKeeps(Probed(hash, bits, source, target, n - 1), Probe(hash, source, target, n - 1, |bits| * 64), j);
    }
  }

  lemma {:induction false} ProbedSets(hash: Hash, bits: seq<bv64>, source: NodeID, target: NodeID, n: nat, i: nat)
    requires |bits| > 0 && i < n
    ensures BitSet(Probed(hash, bits, source, target, n), Probe(hash, source, target, i, |bits| * 64))
  {
    var k, was := Probe(hash, source, target, n - 1, |bits| * 64), Probed(hash, bits, source, target, n - 1);
    if i == n - 1 {
      SetBitKeeps(was, k, k);
    } else {
      ProbedSets(hash, bits, source, target, n - 1, i);
      SetBitKeeps(was, k, Probe(hash, source, target, i, |bits| * 64));
    }
  }

  /** After its probes the pair hits, and so does every pair that did before. */
  lemma ProbedHits(hash: Hash, bits: seq<bv64>, source: NodeID, target: NodeID, a: NodeID, b: NodeID)
    requires |bits| > 0 && ((a, b) == (source, target) || Hit(hash, bits, a, b))
    ensures Hit(hash, Probed(hash, bits, source, target, PROBES), a, b)
  {
    var after := Probed(hash, bits, source, target, PROBES);
    forall i | 0 <= i < PROBES ensures BitSet(after, Probe(hash, a, b, i, |after| * 64)) {
      if (a, b) == (source, target) {
        ProbedSets(hash, bits, source, target, PROBES, i);
      } else {
        ProbedKeeps(hash, bits, source, target, PROBES, Probe(hash, a, b, i, |bits| * 64));
      }
    }
  }

  class BloomFilter {
    const bits: array<bv64>
    const hash: Hash
    ghost var added: set<(NodeID, NodeID)>

    /** No false negatives: every pair ever added hits. */
    ghost predicate Valid()
      reads this, bits
    {
      && bits.Length > 0
      && forall p {:trigger p in added} :: p in added ==> Hit(hash, bits[..], p.0, p.1)
    }

    /** newBloomFilter: ten bits per expected item, at least 1024 bits, whole words. */
    constructor (expected: nat, hash: Hash)
      ensures Valid() && fresh(bits) && added == {} && this.hash == hash
      ensures bits.Length * 64 >= 1024 && bits.Length * 64 >= expected * 10
    {
      var items := if expected < 100 then 100 else expected;
      var needed := items * 10;
      if needed < 1024 {
        needed := 1024;
      }
      bits := new bv64[(needed + 63) / 64](_ => 0);
      this.hash := hash;
      added := {};
    }

    method Add(source: NodeID, target: NodeID)
      requires Valid()
      modifies this, bits
      ensures Valid() && added == old(added) + {(source, target)}
    {
      ghost var before := bits[..];
      var size := bits.Length * 64;
      for i := 0 to PROBES
        invariant bits.Length == |before| && added == old(added) && bits[..] == Probed(hash, before, source, target, i)
      {
        var k := Probe(hash, source, target, i, size);
        ghost var was := bits[..];
        bits[k / 64] := bits[k / 64] | Mask(k);
        assert bits[..] == SetBit(was, k);
      }
      added := added + {(source, target)};
      forall p | p in added ensures Hit(hash, bits[..], p.0, p.1) {
        ProbedHits(hash, before, source, target, p.0, p.1);
      }
    }

    method Test(source: NodeID, target: NodeID) returns (maybe: bool)
      requires Valid()
      ensures maybe <==> Hit(hash, bits[..], source, target)
      ensures (source, target) in added ==> maybe
    {
      var size := bits.Length * 64;
      for i := 0 to PROBES
        invariant forall j {:trigger Probe(hash, source, target, j, size)} :: 0 <= j < i ==>
                    BitSet(bits[..], Probe(hash, source, target, j, size))
      {
        var k := Probe(hash, source, target, i, size);
        if bits[k / 64] & Mask(k) == 0 {
          assert !BitSet(bits[..], k);
          return false;
        }
      }
      return true;
    }
  }
}
