/** Byte strings and the big-endian integer fields that the signed payloads are made of. */
module Bytes {

  /** One octet, kept as a number so that integer fields can be split by division. */
  type Octet = x: int | 0 <= x < 256

  type ByteString = seq<Octet>

  const TWO32: int := 0x1_0000_0000

  /** The four octets that `DataView.setUint32(_, v, false)` stores: `v` modulo 2^32, big-endian. */
  function U32(v: int): (r: ByteString)
    ensures |r| == 4
  {
    var w := v % TWO32;
    [w / 0x100_0000, w / 0x1_0000 % 256, w / 256 % 256, w % 256]
  }

  /** Reads a four-octet big-endian field back. */
  function ReadU32(b: ByteString): (v: nat)
    requires |b| == 4
    ensures v < TWO32
  {
    b[0] as int * 0x100_0000 + b[1] as int * 0x1_0000 + b[2] as int * 256 + b[3]
  }

  lemma U32RoundTrip(v: int)
    ensures ReadU32(U32(v)) == v % TWO32
  {
    var w := v % TWO32;
    assert w / 0x1_0000 == (w / 0x100_0000) * 256 + w / 0x1_0000 % 256 by {
      assert w / 0x1_0000 / 256 == w / 0x100_0000;
    }
    assert w / 256 == (w / 0x1_0000) * 256 + w / 256 % 256 by {
      assert w / 256 / 256 == w / 0x1_0000;
    }
  }

  /** The octets of a field are the digits of its number to base 256, the most significant first. */
  lemma U32Digits(a: Octet, b: Octet, c: Octet, d: Octet)
    ensures U32(a as int * 16777216 + b as int * 65536 + c as int * 256 + d) == [a, b, c, d]
  {
    var x := a as int * 256 + b;
    var y := x * 256 + c;
    var v := y * 256 + d;
    LastDigit(a, b);
    LastDigit(x, c);
    LastDigit(y, d);
    assert v / 65536 == v / 256 / 256 && v / 16777216 == v / 65536 / 256;
    assert v % TWO32 == v;
  }

  lemma LastDigit(x: int, d: Octet)
    requires x >= 0
    ensures (x * 256 + d) / 256 == x && (x * 256 + d) % 256 == d
  {
  }

  /** Octets `off` to `off + 4` are the number `v` to base 256, the most significant octet first. */
  ghost predicate NumberAt(s: ByteString, off: nat, v: int) {
    off + 4 <= |s| &&
    s[off] as int * 16777216 + s[off + 1] as int * 65536 + s[off + 2] as int * 256 + s[off + 3] == v
  }

  /** At `off` stand four octets of length, then that many octets. */
  ghost predicate FieldAt(s: ByteString, off: nat, b: ByteString) {
    NumberAt(s, off, |b|) && off + 4 + |b| <= |s| && s[off + 4..off + 4 + |b|] == b
  }

  lemma NumberStands(a: ByteString, v: int, b: ByteString)
    ensures NumberAt(a + (U32(v) + b), |a|, v % TWO32)
  {
    var s, w := a + (U32(v) + b), U32(v);
    U32RoundTrip(v);
    hide U32;
    assert s[|a|] == w[0] && s[|a| + 1] == w[1] && s[|a| + 2] == w[2] && s[|a| + 3] == w[3];
  }

  lemma FieldStands(a: ByteString, f: ByteString, b: ByteString)
    requires |f| < TWO32
    ensures FieldAt(a + (Prefixed(f) + b), |a|, f)
  {
    hide U32;
    assert a + (Prefixed(f) + b) == a + (U32(|f|) + (f + b));
    NumberStands(a, |f|, f + b);
  }

  /** What stands at a place determines it. */
  lemma SameNumberSameOctets(s: ByteString, t: ByteString, off: nat, v: int)
    requires NumberAt(s, off, v) && NumberAt(t, off, v)
    ensures s[off..off + 4] == t[off..off + 4]
  {
    U32Digits(s[off], s[off + 1], s[off + 2], s[off + 3]);
    U32Digits(t[off], t[off + 1], t[off + 2], t[off + 3]);
    hide U32;
    assert s[off..off + 4] == U32(v) == t[off..off + 4];
  }

  lemma SameFieldSameOctets(s: ByteString, t: ByteString, off: nat, b: ByteString)
    requires FieldAt(s, off, b) && FieldAt(t, off, b)
    ensures s[off..off + 4 + |b|] == t[off..off + 4 + |b|]
  {
    SameNumberSameOctets(s, t, off, |b|);
    assert s[off..off + 4 + |b|] == s[off..off + 4] + s[off + 4..off + 4 + |b|];
    assert t[off..off + 4 + |b|] == t[off..off + 4] + t[off + 4..off + 4 + |b|];
  }

  /** Two integer fields are equal exactly when the numbers agree modulo 2^32. */
  lemma U32EqualIff(v: int, w: int)
    ensures U32(v) == U32(w) <==> v % TWO32 == w % TWO32
  {
    U32RoundTrip(v);
    U32RoundTrip(w);
  }

  /** A length-prefixed field. */
  function Prefixed(b: ByteString): ByteString {
    U32(|b|) + b
  }

  /** Equal-length heads of equal concatenations are equal, and so are the tails. */
  lemma SplitEqual(a: ByteString, a': ByteString, b: ByteString, b': ByteString)
    requires |a| == |b| && a + a' == b + b'
    ensures a == b && a' == b'
  {
    assert a == (a + a')[..|a|] && b == (b + b')[..|b|];
    assert a' == (a + a')[|a|..] && b' == (b + b')[|b|..];
  }

  /** A length-prefixed field followed by anything can be told apart from its continuation. */
  lemma PrefixedSplit(a: ByteString, a': ByteString, b: ByteString, b': ByteString)
    requires |a| < TWO32 && |b| < TWO32
    requires Prefixed(a) + a' == Prefixed(b) + b'
    ensures a == b && a' == b'
  {
    hide U32;
    assert Prefixed(a) + a' == U32(|a|) + (a + a');
    assert Prefixed(b) + b' == U32(|b|) + (b + b');
    SplitEqual(U32(|a|), a + a', U32(|b|), b + b');
    U32EqualIff(|a|, |b|);
    SplitEqual(a, a', b, b');
  }

  /** Bitwise exclusive or of two naturals. */
  function BitXor(x: nat, y: nat): nat
    decreases x + y
  {
    if x == 0 && y == 0 then 0
    else 2 * BitXor(x / 2, y / 2) + (if x % 2 == y % 2 then 0 else 1)
  }

  /** Bitwise or of two naturals. */
  function BitOr(x: nat, y: nat): nat
    decreases x + y
  {
    if x == 0 && y == 0 then 0
    else 2 * BitOr(x / 2, y / 2) + (if x % 2 == 0 && y % 2 == 0 then 0 else 1)
  }

  lemma {:induction false} XorZeroIff(x: nat, y: nat)
    ensures BitXor(x, y) == 0 <==> x == y
    decreases x + y
  {
    if x != 0 || y != 0 {
      XorZeroIff(x / 2, y / 2);
      assert x == 2 * (x / 2) + x % 2 && y == 2 * (y / 2) + y % 2;
    }
  }

  lemma {:induction false} OrZeroIff(x: nat, y: nat)
    ensures BitOr(x, y) == 0 <==> x == 0 && y == 0
    decreases x + y
  {
    if x != 0 || y != 0 {
      OrZeroIff(x / 2, y / 2);
      assert x == 2 * (x / 2) + x % 2 && y == 2 * (y / 2) + y % 2;
    }
  }

  /** `bytesEqual`: the fixed-length exclusive-or loop decides equality of octet strings. */
  method BytesEqual(a: ByteString, b: ByteString) returns (eq: bool)
    ensures eq <==> a == b
  {
    if |a| != |b| { return false; }
    var diff: nat := 0;
    for i := 0 to |a|
      invariant diff == 0 <==> a[..i] == b[..i]
    {
      assert a[..i + 1] == a[..i] + [a[i]] && b[..i + 1] == b[..i] + [b[i]];
      XorZeroIff(a[i], b[i]);
      OrZeroIff(diff, BitXor(a[i], b[i]));
      diff := BitOr(diff, BitXor(a[i], b[i]));
    }
    assert a[..|a|] == a && b[..|a|] == b;
    return diff == 0;
  }

  /** `DataView.setUint32(off, v, false)` on a buffer. */
  method SetUint32(out: array<Octet>, off: nat, v: int)
    requires off + 4 <= out.Length
    modifies out
    ensures out[..] == old(out[..off]) + U32(v) + old(out[off + 4..])
  {
    var w := U32(v);
    out[off], out[off + 1], out[off + 2], out[off + 3] := w[0], w[1], w[2], w[3];
  }

  /** `out.set(bytes, off)`. */
  method SetBytes(out: array<Octet>, off: nat, b: ByteString)
    requires off + |b| <= out.Length
    modifies out
    ensures out[..] == old(out[..off]) + b + old(out[off + |b|..])
  {
    for i := 0 to |b|
      invariant out[..] == old(out[..off]) + b[..i] + old(out[off + i..])
    {
      out[off + i] := b[i];
    }
    assert b[..|b|] == b;
  }
}
