/**
 The Bloom filter (bloom-filter-crdt.ts): a bit array that only grows, merged by bitwise or, with
 double hashing over two FNV-1a variants.
 */
module BloomFilter {
  import opened JsValue

  /** The contents of the byte array. */
  type Bits = seq<bv8>

  datatype Shape = Shape(sizeInBits: nat, numHashFunctions: nat)

  predicate ValidShape(s: Shape) {
    s.sizeInBits > 0 && s.numHashFunctions > 0
  }

  /** `Math.ceil(sizeInBits / 8)`. */
  function ByteLength(s: Shape): nat {
    (s.sizeInBits + 7) / 8
  }

  /** `1 << k` in a byte. */
  function Mask(k: nat): bv8
    requires k < 8
  {
    if k == 0 then 1 else if k == 1 then 2 else if k == 2 then 4 else if k == 3 then 8
    else if k == 4 then 16 else if k == 5 then 32 else if k == 6 then 64 else 128
  }

  predicate ByteHas(x: bv8, k: nat)
    requires k < 8
  {
    x & Mask(k) != 0
  }

  function ByteWith(x: bv8, k: nat): bv8
    requires k < 8
  {
    x | Mask(k)
  }

  /** Bit `i` of the array: bit `i % 8` of byte `i / 8`. */
  predicate BitAt(bits: Bits, i: nat)
    requires i / 8 < |bits|
  {
    ByteHas(bits[i / 8], i % 8)
  }

  /** The bits that are set. */
  ghost function SetBits(bits: Bits): set<nat> {
    set i | 0 <= i < 8 * |bits| && BitAt(bits, i)
  }

  function Zeros(n: nat): Bits {
    seq(n, _ => 0)
  }

  /** Bitwise or of two arrays of the same length. */
  function Join(a: Bits, b: Bits): (r: Bits)
    requires |a| == |b|
    ensures |r| == |a|
  {
    seq(|a|, i requires 0 <= i < |a| => a[i] | b[i])
  }

  /** Every bit of `a` is set in `b`. */
  ghost predicate AtMost(a: Bits, b: Bits) {
    |a| == |b| && forall i :: 0 <= i < |a| ==> a[i] | b[i] == b[i]
  }

  // ----- the join-semilattice

  lemma JoinIdempotent(a: Bits)
    ensures Join(a, a) == a
  {
    assert forall i :: 0 <= i < |a| ==> Join(a, a)[i] == a[i];
  }

  lemma JoinCommutative(a: Bits, b: Bits)
    requires |a| == |b|
    ensures Join(a, b) == Join(b, a)
  {
    assert forall i :: 0 <= i < |a| ==> Join(a, b)[i] == Join(b, a)[i];
  }

  lemma OrAssociative(x: bv8, y: bv8, z: bv8)
    ensures (x | y) | z == x | (y | z)
  {
  }

  lemma JoinAssociative(a: Bits, b: Bits, c: Bits)
    requires |a| == |b| == |c|
    ensures Join(Join(a, b), c) == Join(a, Join(b, c))
  {
    forall i | 0 <= i < |a| ensures Join(Join(a, b), c)[i] == Join(a, Join(b, c))[i] {
      OrAssociative(a[i], b[i], c[i]);
    }
  }

  /** The join is the least upper bound. */
  lemma JoinIsLeastUpperBound(a: Bits, b: Bits, c: Bits)
    requires |a| == |b| == |c|
    ensures AtMost(a, Join(a, b)) && AtMost(b, Join(a, b))
    ensures AtMost(a, c) && AtMost(b, c) ==> AtMost(Join(a, b), c)
  {
    forall i | 0 <= i < |a| ensures a[i] | (a[i] | b[i]) == a[i] | b[i] && b[i] | (a[i] | b[i]) == a[i] | b[i] {
      OrAbsorbs(a[i], b[i]);
    }
    forall i | 0 <= i < |a| ensures (a[i] | b[i]) | c[i] == a[i] | (b[i] | c[i]) {
      OrAssociative(a[i], b[i], c[i]);
    }
  }

  lemma OrAbsorbs(x: bv8, y: bv8)
    ensures x | (x | y) == x | y && y | (x | y) == x | y
  {
  }

  lemma AtMostTransitive(a: Bits, b: Bits, c: Bits)
    requires AtMost(a, b) && AtMost(b, c)
    ensures AtMost(a, c)
  {
    forall i | 0 <= i < |a| ensures a[i] | c[i] == c[i] {
      OrAssociative(a[i], b[i], c[i]);
    }
  }

  lemma AtMostReflexive(a: Bits)
    ensures AtMost(a, a)
  {
    forall i | 0 <= i < |a| ensures a[i] | a[i] == a[i] { OrIdempotent(a[i]); }
  }

  lemma OrIdempotent(x: bv8)
    ensures x | x == x
  {
  }

  lemma OrKeepsBit(x: bv8, y: bv8, mask: bv8)
    ensures (x | y) & mask != 0 <==> x & mask != 0 || y & mask != 0
  {
  }

  /** On the bits that are set, the join is union and the order is inclusion. */
  lemma JoinIsUnion(a: Bits, b: Bits)
    requires |a| == |b|
    ensures SetBits(Join(a, b)) == SetBits(a) + SetBits(b)
  {
    hide BitAt, Join;
    forall i | 0 <= i < 8 * |a| ensures BitAt(Join(a, b), i) <==> BitAt(a, i) || BitAt(b, i) {
      JoinBit(a, b, i);
    }
  }

  lemma JoinBit(a: Bits, b: Bits, i: nat)
    requires |a| == |b| && i / 8 < |a|
    ensures BitAt(Join(a, b), i) <==> BitAt(a, i) || BitAt(b, i)
  {
    hide ByteHas;
    OrByteHas(a[i / 8], b[i / 8], i % 8);
    assert Join(a, b)[i / 8] == a[i / 8] | b[i / 8];
  }

  lemma OrByteHas(x: bv8, y: bv8, k: nat)
    requires k < 8
    ensures ByteHas(x | y, k) <==> ByteHas(x, k) || ByteHas(y, k)
  {
    hide Mask;
    OrKeepsBit(x, y, Mask(k));
  }

  lemma AtMostKeepsBits(a: Bits, b: Bits, i: nat)
    requires AtMost(a, b) && i / 8 < |a| && BitAt(a, i)
    ensures BitAt(b, i)
  {
    hide ByteHas;
    OrByteHas(a[i / 8], b[i / 8], i % 8);
  }

  // ----- hashing and membership

  /** One FNV-1a round in 32-bit arithmetic. */
  function Mix(h: bv32, c: CodeUnit): bv32 {
    (h ^ (c as bv32)) * 0x0100_0193
  }

  /** FNV-1a over the first `n` code units. */
  function Fnv(term: Text, n: nat, seed: bv32): bv32
    requires n <= |term|
  {
    if n == 0 then seed else Mix(Fnv(term, n - 1, seed), term[n - 1])
  }

  const SEED1: bv32 := 0x811c_9dc5
  const SEED2: bv32 := 0x6c62_272e

  /** `x >>> 0`. */
  function Unsigned(x: bv32): nat {
    x as int
  }

  function Hash1(term: Text): nat {
    Unsigned(Fnv(term, |term|, SEED1))
  }

  function MadeOdd(x: bv32): bv32 {
    x | 1
  }

  function Hash2(term: Text): nat {
    Unsigned(MadeOdd(Fnv(term, |term|, SEED2)))
  }

  lemma HashesAre(term: Text)
    ensures Hash1(term) == Unsigned(Fnv(term, |term|, SEED1))
    ensures Hash2(term) == Unsigned(MadeOdd(Fnv(term, |term|, SEED2)))
  {
    hide Unsigned, MadeOdd, Fnv;
  }

  /** The `i`-th bit of double hashing. */
  function DoubleHash(s: Shape, h1: nat, h2: nat, i: nat): (r: nat)
    requires ValidShape(s)
    ensures r < s.sizeInBits && r / 8 < ByteLength(s)
  {
    (h1 + i * h2) % s.sizeInBits
  }

  /** The bit that the `i`-th hash function picks for a term. */
  function Probe(s: Shape, term: Text, i: nat): (r: nat)
    requires ValidShape(s)
    ensures r < s.sizeInBits && r / 8 < ByteLength(s)
  {
    DoubleHash(s, Hash1(term), Hash2(term), i)
  }

  ghost predicate Has(s: Shape, bits: Bits, term: Text)
    requires ValidShape(s) && |bits| == ByteLength(s)
  {
    forall i :: 0 <= i < s.numHashFunctions ==> BitAt(bits, Probe(s, term, i))
  }

  lemma HasIsMonotone(s: Shape, a: Bits, b: Bits, term: Text)
    requires ValidShape(s) && |a| == ByteLength(s) && AtMost(a, b) && Has(s, a, term)
    ensures Has(s, b, term)
  {
    forall i | 0 <= i < s.numHashFunctions ensures BitAt(b, Probe(s, term, i)) {
      AtMostKeepsBits(a, b, Probe(s, term, i));
    }
  }

  function WithBit(bits: Bits, i: nat): (r: Bits)
    requires i / 8 < |bits|
    ensures |r| == |bits|
  {
    bits[i / 8 := ByteWith(bits[i / 8], i % 8)]
  }

  lemma MaskBit(x: bv8, k: nat)
    requires k < 8
    ensures ByteHas(ByteWith(x, k), k) && x | ByteWith(x, k) == ByteWith(x, k)
  {
    MasksAreSingleBits(k, k);
    hide Mask;
    OrKeepsBit(x, Mask(k), Mask(k));
    OrAbsorbs(x, Mask(k));
  }

  lemma WithBitSets(bits: Bits, i: nat)
    requires i / 8 < |bits|
    ensures AtMost(bits, WithBit(bits, i)) && BitAt(WithBit(bits, i), i)
  {
    hide ByteHas, ByteWith;
    MaskBit(bits[i / 8], i % 8);
    forall j | 0 <= j < |bits| ensures bits[j] | WithBit(bits, i)[j] == WithBit(bits, i)[j] {
      OrIdempotent(bits[j]);
    }
  }

  /** The array after the first `n` bits of a term have been set. */
  function Added(s: Shape, bits: Bits, term: Text, n: nat): (r: Bits)
    requires ValidShape(s) && |bits| == ByteLength(s)
    ensures |r| == |bits|
  {
    if n == 0 then bits else WithBit(Added(s, bits, term, n - 1), Probe(s, term, n - 1))
  }

  function Add(s: Shape, bits: Bits, term: Text): (r: Bits)
    requires ValidShape(s) && |bits| == ByteLength(s)
    ensures |r| == |bits|
  {
    Added(s, bits, term, s.numHashFunctions)
  }

  lemma {:induction false} AddedGrows(s: Shape, bits: Bits, term: Text, n: nat)
    requires ValidShape(s) && |bits| == ByteLength(s)
    ensures AtMost(bits, Added(s, bits, term, n))
    ensures forall i :: 0 <= i < n ==> BitAt(Added(s, bits, term, n), Probe(s, term, i))
  {
    hide BitAt, WithBit, DoubleHash;
    if n == 0 {
      AtMostReflexive(bits);
    } else {
      AddedGrows(s, bits, term, n - 1);
      var before, after := Added(s, bits, term, n - 1), Added(s, bits, term, n);
      WithBitSets(before, Probe(s, term, n - 1));
      AtMostTransitive(bits, before, after);
      forall i | 0 <= i < n ensures BitAt(after, Probe(s, term, i)) {
        if i < n - 1 { AtMostKeepsBits(before, after, Probe(s, term, i)); }
      }
    }
  }

  lemma MasksAreSingleBits(j: nat, k: nat)
    requires j < 8 && k < 8
    ensures Mask(j) & Mask(k) != 0 <==> j == k
  {
  }

  /** Setting a bit sets that bit and no other. */
  lemma WithBitSetsOne(bits: Bits, i: nat, j: nat)
    requires i / 8 < |bits| && j / 8 < |bits|
    ensures BitAt(WithBit(bits, i), j) <==> BitAt(bits, j) || i == j
  {
    hide ByteHas, ByteWith;
    SameByteSameBit(i, j);
    if i / 8 == j / 8 {
      OneBitOfAByte(bits[i / 8], i % 8, j % 8);
    }
  }

  lemma SameByteSameBit(i: nat, j: nat)
    ensures i == j <==> i / 8 == j / 8 && i % 8 == j % 8
  {
  }

  lemma OneBitOfAByte(x: bv8, k: nat, l: nat)
    requires k < 8 && l < 8
    ensures ByteHas(ByteWith(x, k), l) <==> ByteHas(x, l) || k == l
  {
    MasksAreSingleBits(k, l);
    hide Mask;
    OrKeepsBit(x, Mask(k), Mask(l));
  }

  /** The bits that adding a term may set. */
  ghost function Probes(s: Shape, term: Text, n: nat): set<nat>
    requires ValidShape(s)
  {
    set i | 0 <= i < n :: Probe(s, term, i)
  }

  lemma {:induction false} AddedSetsProbes(s: Shape, bits: Bits, term: Text, n: nat, j: nat)
    requires ValidShape(s) && |bits| == ByteLength(s) && j / 8 < |bits|
    ensures BitAt(Added(s, bits, term, n), j) <==> BitAt(bits, j) || j in Probes(s, term, n)
  {
    hide BitAt, WithBit, Probe;
    if n > 0 {
      AddedSetsProbes(s, bits, term, n - 1, j);
      WithBitSetsOne(Added(s, bits, term, n - 1), Probe(s, term, n - 1), j);
      assert Probes(s, term, n) == Probes(s, term, n - 1) + {Probe(s, term, n - 1)};
    }
  }

  /** Adding a term sets exactly the bits that its hash functions pick. */
  lemma AddSetsExactlyProbes(s: Shape, bits: Bits, term: Text)
    requires ValidShape(s) && |bits| == ByteLength(s)
    ensures SetBits(Add(s, bits, term)) == SetBits(bits) + Probes(s, term, s.numHashFunctions)
  {
    hide BitAt, Added;
    forall j | 0 <= j < 8 * |bits|
      ensures BitAt(Add(s, bits, term), j) <==> BitAt(bits, j) || j in Probes(s, term, s.numHashFunctions)
    {
      AddedSetsProbes(s, bits, term, s.numHashFunctions, j);
    }
    forall j | j in Probes(s, term, s.numHashFunctions) ensures j < 8 * |bits| {
      var i :| 0 <= i < s.numHashFunctions && j == Probe(s, term, i);
    }
  }

  /** Adding a term makes it present and keeps every term that was: no false negatives. */
  lemma AddMakesPresent(s: Shape, bits: Bits, term: Text, other: Text)
    requires ValidShape(s) && |bits| == ByteLength(s)
    ensures Has(s, Add(s, bits, term), term) && AtMost(bits, Add(s, bits, term))
    ensures Has(s, bits, other) ==> Has(s, Add(s, bits, term), other)
  {
    AddedGrows(s, bits, term, s.numHashFunctions);
    if Has(s, bits, other) { HasIsMonotone(s, bits, Add(s, bits, term), other); }
  }

  // ----- the object

  class BloomFilterCRDT {
    const shape: Shape
    var bits: array<bv8>

    ghost predicate Valid()
      reads this
    {
      ValidShape(shape) && bits.Length == ByteLength(shape)
    }

    constructor (shape: Shape)
      requires ValidShape(shape)
      ensures Valid() && this.shape == shape && fresh(bits) && bits[..] == Zeros(ByteLength(shape))
    {
      this.shape := shape;
      bits := new bv8[ByteLength(shape)](_ => 0);
    }

    method FnvHash(term: Text, seed: bv32) returns (h: bv32)
      ensures h == Fnv(term, |term|, seed)
    {
      hide Mix;
      h := seed;
      for i := 0 to |term|
        invariant h == Fnv(term, i, seed)
      {
        h := Mix(h, term[i]);
      }
    }

    method BaseHashes(term: Text) returns (h1: nat, h2: nat)
      ensures h1 == Hash1(term) && h2 == Hash2(term)
    {
      hide *;
      HashesAre(term);
      var a := FnvHash(term, SEED1);
      var b := FnvHash(term, SEED2);
      h1, h2 := Unsigned(a), Unsigned(MadeOdd(b));
    }

    method SetBit(i: nat)
      requires Valid() && i / 8 < bits.Length
      modifies bits
      ensures bits[..] == WithBit(old(bits[..]), i)
    {
      hide ByteWith;
      bits[i / 8] := ByteWith(bits[i / 8], i % 8);
    }

    method GetBit(i: nat) returns (b: bool)
      requires Valid() && i / 8 < bits.Length
      ensures b == BitAt(bits[..], i)
    {
      hide ByteHas;
      b := ByteHas(bits[i / 8], i % 8);
    }

    /** `add`. */
    method AddTerm(term: Text)
      requires Valid()
      modifies bits
      ensures bits[..] == Add(shape, old(bits[..]), term)
    {
      hide DoubleHash, Hash1, Hash2, WithBit;
      var h1, h2 := BaseHashes(term);
      for i := 0 to shape.numHashFunctions
        invariant bits[..] == Added(shape, old(bits[..]), term, i)
      {
        SetBit(DoubleHash(shape, h1, h2, i));
      }
    }

    /** `has`. */
    method HasTerm(term: Text) returns (r: bool)
      requires Valid()
      ensures r <==> Has(shape, bits[..], term)
    {
      hide DoubleHash, Hash1, Hash2, BitAt;
      var h1, h2 := BaseHashes(term);
      for i := 0 to shape.numHashFunctions
        invariant forall j :: 0 <= j < i ==> BitAt(bits[..], Probe(shape, term, j))
      {
        var isSet := GetBit(DoubleHash(shape, h1, h2, i));
        assert isSet == BitAt(bits[..], Probe(shape, term, i));
        if !isSet { return false; }
      }
      return true;
    }

    /** `merge`; false where the source throws. */
    method Merge(other: BloomFilterCRDT) returns (ok: bool)
      requires Valid() && other.Valid()
      modifies bits
      ensures ok <==> shape == other.shape
      ensures bits[..] == if ok then Join(old(bits[..]), old(other.bits[..])) else old(bits[..])
    {
      if shape != other.shape { return false; }
      for i := 0 to bits.Length
        invariant forall j :: 0 <= j < i ==> bits[j] == old(bits[j]) | old(other.bits[j])
        invariant forall j :: i <= j < bits.Length ==> bits[j] == old(bits[j]) && other.bits[j] == old(other.bits[j])
      {
        bits[i] := bits[i] | other.bits[i];
      }
      return true;
    }
  }
}
