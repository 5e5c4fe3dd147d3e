/**
 Which bits of a Bloom filter a term stands for (bloom-filter-crdt.ts), down to the hash constants, the
 place of a bit in its byte and the terms that a filter tells apart.
 */
module BloomProbes {
  import opened JsValue
  import opened BloomFilter

  /** The hashes of a term start from the two offset bases, and each code unit is one round of FNV-1a. */
  lemma HashRounds(term: Text, c: CodeUnit, seed: bv32)
    ensures Fnv([], 0, seed) == seed
    ensures Fnv(term + [c], |term| + 1, seed) == (Fnv(term, |term|, seed) ^ (c as bv32)) * 0x0100_0193
    ensures Hash1(term) == Fnv(term, |term|, 0x811c_9dc5) as int
    ensures Hash2(term) == (Fnv(term, |term|, 0x6c62_272e) | 1) as int
  {
    FnvOfPrefix(term, [c], |term|, seed);
    UnsignedIs(Fnv(term, |term|, 0x811c_9dc5));
    UnsignedIs(Fnv(term, |term|, 0x6c62_272e) | 1);
    hide Unsigned;
  }

  lemma UnsignedIs(x: bv32)
    ensures Unsigned(x) == x as int
  {
  }

  lemma {:induction false} FnvOfPrefix(a: Text, b: Text, n: nat, seed: bv32)
    requires n <= |a|
    ensures Fnv(a + b, n, seed) == Fnv(a, n, seed)
  {
    hide Mix;
    if n > 0 { FnvOfPrefix(a, b, n - 1, seed); }
  }

  /** The second hash is odd: its lowest bit is set, whatever the term. */
  lemma Hash2IsOdd(term: Text)
    ensures var h := Fnv(term, |term|, 0x6c62_272e) | 1; h & 1 == 1 && Hash2(term) == h as int
  {
    HashRounds(term, 0, 0);
    LowestBit(Fnv(term, |term|, 0x6c62_272e));
    hide Fnv, Hash2;
  }

  lemma LowestBit(x: bv32)
    ensures (x | 1) & 1 == 1
  {
  }

  /** The `i`-th probe is what is left of the first hash and `i` times the second when the size is taken out of
      it as often as possible. */
  lemma ProbeIsRemainder(s: Shape, term: Text, i: nat)
    requires ValidShape(s)
    ensures 0 <= Probe(s, term, i) < s.sizeInBits
    ensures exists q: nat :: Hash1(term) + i * Hash2(term) == q * s.sizeInBits + Probe(s, term, i)
  {
    hide Hash1, Hash2;
    Division(Hash1(term) + i * Hash2(term), s.sizeInBits);
  }

  lemma Division(n: nat, m: nat)
    requires m > 0
    ensures exists q: nat :: n == q * m + n % m
  {
    assert n == (n / m) * m + n % m;
  }

  /** Bit `k` of a byte is the one worth 2 to the power of `k`, and there are just enough bytes. */
  lemma BitPlaces(s: Shape)
    ensures ByteWith(0, 0) == 1 && ByteWith(0, 1) == 2 && ByteWith(0, 2) == 4 && ByteWith(0, 3) == 8
    ensures ByteWith(0, 4) == 16 && ByteWith(0, 5) == 32 && ByteWith(0, 6) == 64 && ByteWith(0, 7) == 128
    ensures s.sizeInBits <= 8 * ByteLength(s) < s.sizeInBits + 8
  {
  }

  lemma NothingInZeros(n: nat, i: nat)
    requires i / 8 < n
    ensures !BitAt(Zeros(n), i)
  {
    hide Mask;
    NoBitInZero(i % 8);
  }

  lemma NoBitInZero(k: nat)
    requires k < 8
    ensures !ByteHas(0, k)
  {
  }

  /** A filter that holds one term finds exactly the terms whose probes are all among that term's. */
  lemma FoundIffProbesAmong(s: Shape, term: Text, other: Text)
    requires ValidShape(s)
    ensures Has(s, Add(s, Zeros(ByteLength(s)), term), other) <==>
            forall i :: 0 <= i < s.numHashFunctions ==> Probe(s, other, i) in Probes(s, term, s.numHashFunctions)
  {
    hide BitAt, Zeros, Probe, Probes;
    var none := Zeros(ByteLength(s));
    ZerosLength(ByteLength(s));
    forall i | 0 <= i < s.numHashFunctions
      ensures BitAt(Add(s, none, term), Probe(s, other, i)) <==>
              Probe(s, other, i) in Probes(s, term, s.numHashFunctions)
    {
      AddedSetsProbes(s, none, term, s.numHashFunctions, Probe(s, other, i));
      NothingInZeros(ByteLength(s), Probe(s, other, i));
    }
  }

  lemma ZerosLength(n: nat)
    ensures |Zeros(n)| == n
  {
  }

  /** Two terms that a filter tells apart: with the letter "a" in it, 1024 bits and one hash function do not
      find the letter "b". */
  lemma TellsTermsApart()
    ensures var s := Shape(1024, 1);
            Hash1([97]) == 0xe40c_292c && Hash1([98]) == 0xe70c_2de5 &&
            Has(s, Add(s, Zeros(ByteLength(s)), [97]), [97]) && !Has(s, Add(s, Zeros(ByteLength(s)), [97]), [98])
  {
    LetterProbes();
    hide Hash1, Hash2, Probe, Add, Has, Zeros, ByteLength;
    var s := Shape(1024, 1);
    FoundIffProbesAmong(s, [97], [97]);
    FoundIffProbesAmong(s, [97], [98]);
    assert Probe(s, [97], 0) in Probes(s, [97], 1) && Probe(s, [98], 0) !in Probes(s, [97], 1);
  }

  lemma LetterProbes()
    ensures Hash1([97]) == 0xe40c_292c && Hash1([98]) == 0xe70c_2de5
    ensures Probe(Shape(1024, 1), [97], 0) == 300 && Probe(Shape(1024, 1), [98], 0) == 485
  {
    HashOfLetter(97);
    HashOfLetter(98);
    LetterHashes();
    hide Hash1, Hash2, Fnv, Mix, Unsigned, Probe, DoubleHash;
    FirstProbe(Shape(1024, 1), [97]);
    FirstProbe(Shape(1024, 1), [98]);
  }

  lemma FirstProbe(s: Shape, term: Text)
    requires ValidShape(s)
    ensures Probe(s, term, 0) == Hash1(term) % s.sizeInBits
  {
    hide Hash1, Hash2;
  }

  lemma HashOfLetter(c: CodeUnit)
    ensures Hash1([c]) == Unsigned(Mix(0x811c_9dc5, c))
  {
    hide Mix, Unsigned;
    assert Fnv([c], 1, SEED1) == Mix(Fnv([c], 0, SEED1), c);
  }

  lemma LetterHashes()
    ensures Unsigned(Mix(0x811c_9dc5, 97)) == 0xe40c_292c
    ensures Unsigned(Mix(0x811c_9dc5, 98)) == 0xe70c_2de5
  {
    assert Mix(0x811c_9dc5, 97) == 0xe40c_292c;
    assert Mix(0x811c_9dc5, 98) == 0xe70c_2de5;
  }
}
