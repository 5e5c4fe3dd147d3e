/**
 The byte encodings that are hashed and signed: the canonical payload of an ACL entry
 (acl-chain.ts) and the payload of a snapshot signature (collabswarm-document.ts).
 */
module AclEncoding {
  import opened Bytes
  import opened Collections

  const TWO64: int := 0x1_0000_0000_0000_0000

  /** `Number.MAX_SAFE_INTEGER`. */
  const MAX_SAFE_INTEGER: int := 0x1f_ffff_ffff_ffff

  /** The fields of an entry that the signature covers, with the change already serialized. */
  datatype Payload = Payload(
    sequenceNumber: int,
    timestamp: int,
    parentHash: Option<ByteString>,
    signerKeyId: ByteString,
    changeBytes: ByteString)

  function ParentBytes(p: Payload): ByteString {
    if p.parentHash.Some? then p.parentHash.value else []
  }

  /** The canonical payload, field after field. */
  function Encode(p: Payload): ByteString {
    U32(p.sequenceNumber) + (U32(p.timestamp / TWO32) + (U32(p.timestamp) +
    (Prefixed(ParentBytes(p)) + (Prefixed(p.signerKeyId) + (Prefixed(p.changeBytes) + [])))))
  }

  /** Variable-length fields short enough for their four-octet length prefixes. */
  predicate Sized(p: Payload) {
    |ParentBytes(p)| < TWO32 && |p.signerKeyId| < TWO32 && |p.changeBytes| < TWO32
  }

  /** The layout of a payload: what stands at which octet, and nothing after it. */
  ghost predicate LaidOut(p: Payload, s: ByteString) {
    var parent := if p.parentHash.Some? then p.parentHash.value else [];
    && NumberAt(s, 0, p.sequenceNumber % 0x1_0000_0000)
    && NumberAt(s, 4, p.timestamp / 0x1_0000_0000 % 0x1_0000_0000)
    && NumberAt(s, 8, p.timestamp % 0x1_0000_0000)
    && FieldAt(s, 12, parent)
    && FieldAt(s, 16 + |parent|, p.signerKeyId)
    && FieldAt(s, 20 + |parent| + |p.signerKeyId|, p.changeBytes)
    && |s| == 24 + |parent| + |p.signerKeyId| + |p.changeBytes|
  }

  /** The encoding is the one octet string that is laid out like the payload. */
  lemma EncodeIsLaidOut(p: Payload, s: ByteString)
    requires Sized(p)
    ensures LaidOut(p, s) <==> s == Encode(p)
  {
    EncodingStands(p);
    if LaidOut(p, s) { SameLayoutSameOctets(p, s, Encode(p)); }
  }

  lemma EncodingStands(p: Payload)
    requires Sized(p)
    ensures LaidOut(p, Encode(p))
  {
    hide U32, Prefixed, NumberAt, FieldAt;
    PrefixedLengths(p);
    var a, b, c := U32(p.sequenceNumber), U32(p.timestamp / TWO32), U32(p.timestamp);
    var d, e, f := Prefixed(ParentBytes(p)), Prefixed(p.signerKeyId), Prefixed(p.changeBytes);
    var s := Encode(p);
    NumberStands([], p.sequenceNumber, b + (c + (d + (e + (f + [])))));
    assert [] + s == s;
    NumberStands(a, p.timestamp / TWO32, c + (d + (e + (f + []))));
    NumberStands(a + b, p.timestamp, d + (e + (f + [])));
    FieldStands(a + b + c, ParentBytes(p), e + (f + []));
    FieldStands(a + b + c + d, p.signerKeyId, f + []);
    FieldStands(a + b + c + d + e, p.changeBytes, []);
    Regrouped(a, b, c, d, e, f + []);
  }

  lemma Regrouped(a: ByteString, b: ByteString, c: ByteString, d: ByteString, e: ByteString, f: ByteString)
    ensures var s := a + (b + (c + (d + (e + f))));
            && s == a + b + (c + (d + (e + f)))
            && s == a + b + c + (d + (e + f))
            && s == a + b + c + d + (e + f)
            && s == a + b + c + d + e + f
  {
  }

  lemma SameLayoutSameOctets(p: Payload, s: ByteString, t: ByteString)
    requires LaidOut(p, s) && LaidOut(p, t)
    ensures s == t
  {
    hide NumberAt, FieldAt;
    SameNumbers(p, s, t);
    SameFields(p, s, t);
    SamePieces(s, t, 16 + |ParentBytes(p)|, 20 + |ParentBytes(p)| + |p.signerKeyId|);
  }

  lemma SameNumbers(p: Payload, s: ByteString, t: ByteString)
    requires LaidOut(p, s) && LaidOut(p, t)
    ensures s[0..4] == t[0..4] && s[4..8] == t[4..8] && s[8..12] == t[8..12]
  {
    hide NumberAt, FieldAt;
    SameNumberSameOctets(s, t, 0, p.sequenceNumber % TWO32);
    SameNumberSameOctets(s, t, 4, p.timestamp / TWO32 % TWO32);
    SameNumberSameOctets(s, t, 8, p.timestamp % TWO32);
  }

  lemma SameFields(p: Payload, s: ByteString, t: ByteString)
    requires LaidOut(p, s) && LaidOut(p, t)
    ensures var i := 16 + |ParentBytes(p)|;
            var j := i + 4 + |p.signerKeyId|;
            12 <= i <= j <= |s| == |t| && s[12..i] == t[12..i] && s[i..j] == t[i..j] && s[j..] == t[j..]
  {
    hide NumberAt, FieldAt;
    var i := 16 + |ParentBytes(p)|;
    var j := i + 4 + |p.signerKeyId|;
    SameFieldSameOctets(s, t, 12, ParentBytes(p));
    SameFieldSameOctets(s, t, i, p.signerKeyId);
    SameFieldSameOctets(s, t, j, p.changeBytes);
    assert s[j..] == s[j..|s|] && t[j..] == t[j..|t|];
  }

  lemma SamePieces(s: ByteString, t: ByteString, i: nat, j: nat)
    requires 12 <= i <= j <= |s| == |t|
    requires s[0..4] == t[0..4] && s[4..8] == t[4..8] && s[8..12] == t[8..12]
    requires s[12..i] == t[12..i] && s[i..j] == t[i..j] && s[j..] == t[j..]
    ensures s == t
  {
    assert s == s[0..4] + s[4..8] + s[8..12] + s[12..i] + s[i..j] + s[j..];
    assert t == t[0..4] + t[4..8] + t[8..12] + t[12..i] + t[i..j] + t[j..];
  }

  /** What survives of a payload in its encoding: the two numbers wrap, and an empty parent hash
      is the same as none. */
  function Canonical(p: Payload): Payload {
    p.(sequenceNumber := p.sequenceNumber % TWO32,
       timestamp := p.timestamp % TWO64,
       parentHash := if p.parentHash == Some([]) then None else p.parentHash)
  }

  /** The two 32-bit halves determine a number modulo 2^64. */
  lemma HalvesEqualIff(t: int, u: int)
    ensures t / TWO32 % TWO32 == u / TWO32 % TWO32 && t % TWO32 == u % TWO32 <==> t % TWO64 == u % TWO64
  {
    HalvesCompose(t);
    HalvesCompose(u);
  }

  lemma HalvesCompose(t: int)
    ensures t % TWO64 == (t / TWO32 % TWO32) * TWO32 + t % TWO32
  {
    var q, r := t / TWO32, t % TWO32;
    var h, l := q / TWO32, q % TWO32;
    assert t == h * TWO64 + (l * TWO32 + r);
    assert 0 <= l * TWO32 + r < TWO64;
  }

  /** Two payloads have the same encoding exactly when they are the same up to wrap-around and
      up to an empty parent hash: nothing else is ever confused. */
  lemma EncodeEqualIff(p: Payload, q: Payload)
    requires Sized(p) && Sized(q)
    ensures Encode(p) == Encode(q) <==> Canonical(p) == Canonical(q)
  {
    U32EqualIff(p.sequenceNumber, q.sequenceNumber);
    U32EqualIff(p.timestamp / TWO32, q.timestamp / TWO32);
    U32EqualIff(p.timestamp, q.timestamp);
    HalvesEqualIff(p.timestamp, q.timestamp);
    if Encode(p) == Encode(q) {
      EncodeSplits(p, q);
    }
  }

  lemma EncodeSplits(p: Payload, q: Payload)
    requires Sized(p) && Sized(q) && Encode(p) == Encode(q)
    ensures U32(p.sequenceNumber) == U32(q.sequenceNumber)
    ensures U32(p.timestamp / TWO32) == U32(q.timestamp / TWO32) && U32(p.timestamp) == U32(q.timestamp)
    ensures ParentBytes(p) == ParentBytes(q) && p.signerKeyId == q.signerKeyId && p.changeBytes == q.changeBytes
  {
    hide U32;
    var p5, q5 := Prefixed(p.changeBytes) + [], Prefixed(q.changeBytes) + [];
    var p4, q4 := Prefixed(p.signerKeyId) + p5, Prefixed(q.signerKeyId) + q5;
    var p3, q3 := Prefixed(ParentBytes(p)) + p4, Prefixed(ParentBytes(q)) + q4;
    var p2, q2 := U32(p.timestamp) + p3, U32(q.timestamp) + q3;
    var p1, q1 := U32(p.timestamp / TWO32) + p2, U32(q.timestamp / TWO32) + q2;
    SplitEqual(U32(p.sequenceNumber), p1, U32(q.sequenceNumber), q1);
    SplitEqual(U32(p.timestamp / TWO32), p2, U32(q.timestamp / TWO32), q2);
    SplitEqual(U32(p.timestamp), p3, U32(q.timestamp), q3);
    PrefixedSplit(ParentBytes(p), p4, ParentBytes(q), q4);
    PrefixedSplit(p.signerKeyId, p5, q.signerKeyId, q5);
    PrefixedSplit(p.changeBytes, [], q.changeBytes, []);
  }

  /** The bounds that shape validation puts on the fields of a payload. */
  predicate InRange(p: Payload) {
    && 0 <= p.sequenceNumber < TWO32
    && 0 <= p.timestamp <= MAX_SAFE_INTEGER
    && p.parentHash != Some([])
  }

  /** On payloads within those bounds the encoding is injective. */
  lemma EncodeInjective(p: Payload, q: Payload)
    requires Sized(p) && Sized(q) && InRange(p) && InRange(q)
    requires Encode(p) == Encode(q)
    ensures p == q
  {
    hide U32;
    EncodeEqualIff(p, q);
    assert Canonical(p) == p && Canonical(q) == q;
  }

  /** What the encoding forgets: a sequence number wraps at 2^32, just past its bound; a timestamp wraps
      at 2^64, far past the bound of 2^53 - 1 that shape validation puts on it; and an empty parent hash
      looks like none. */
  lemma EncodingWraps(p: Payload)
    requires Sized(p) && p.parentHash.None?
    ensures Encode(p) == Encode(p.(sequenceNumber := p.sequenceNumber + TWO32))
    ensures Encode(p) == Encode(p.(timestamp := p.timestamp + TWO64))
    ensures Encode(p) == Encode(p.(parentHash := Some([])))
  {
    hide U32;
    EncodeEqualIff(p, p.(sequenceNumber := p.sequenceNumber + TWO32));
    assert (p.timestamp + TWO64) % TWO64 == p.timestamp % TWO64;
    EncodeEqualIff(p, p.(timestamp := p.timestamp + TWO64));
    EncodeEqualIff(p, p.(parentHash := Some([])));
  }

  /** `canonicalEntryPayloadFromBytes`: the encoder that fills one buffer at a moving offset. */
  method EncodeIntoBuffer(p: Payload) returns (out: array<Octet>)
    ensures fresh(out) && out[..] == Encode(p)
    ensures Sized(p) ==> LaidOut(p, out[..])
  {
    hide U32, Prefixed, LaidOut;
    PrefixedLengths(p);
    if Sized(p) { EncodingStands(p); }
    var parent := ParentBytes(p);
    var total := 24 + |parent| + |p.signerKeyId| + |p.changeBytes|;
    out := new Octet[total](_ => 0);
    var off := PutUint32(out, 0, [], p.sequenceNumber);
    ghost var w := U32(p.sequenceNumber);
    off := PutUint32(out, off, w, p.timestamp / TWO32);
    w := w + U32(p.timestamp / TWO32);
    off := PutUint32(out, off, w, p.timestamp);
    w := w + U32(p.timestamp);
    off := PutField(out, off, w, parent);
    w := w + Prefixed(parent);
    off := PutField(out, off, w, p.signerKeyId);
    w := w + Prefixed(p.signerKeyId);
    off := PutField(out, off, w, p.changeBytes);
    w := w + Prefixed(p.changeBytes);
    assert out[..] == out[..off] == w;
    Regroup(U32(p.sequenceNumber), U32(p.timestamp / TWO32), U32(p.timestamp),
            Prefixed(parent), Prefixed(p.signerKeyId), Prefixed(p.changeBytes));
  }

  lemma Regroup(a: ByteString, b: ByteString, c: ByteString, d: ByteString, e: ByteString, f: ByteString)
    ensures a + b + c + d + e + f == a + (b + (c + (d + (e + (f + [])))))
  {
    assert a + b + c + d + e + f == a + b + c + d + (e + (f + []));
    assert a + b + c + d + (e + (f + [])) == a + b + (c + (d + (e + (f + []))));
  }

  lemma PrefixedLengths(p: Payload)
    ensures |Prefixed(ParentBytes(p))| == 4 + |ParentBytes(p)|
    ensures |Prefixed(p.signerKeyId)| == 4 + |p.signerKeyId|
    ensures |Prefixed(p.changeBytes)| == 4 + |p.changeBytes|
  {
  }

  /** One integer field: `view.setUint32(off, v); off += 4`. */
  method PutUint32(out: array<Octet>, off: nat, ghost done: ByteString, v: int) returns (next: nat)
    requires off + 4 <= out.Length && out[..off] == done
    modifies out
    ensures next == off + 4 && out[..next] == done + U32(v)
  {
    SetUint32(out, off, v);
    next := off + 4;
    assert out[..next] == out[..][..next];
  }

  /** One variable-length field: its length, then its octets. */
  method PutField(out: array<Octet>, off: nat, ghost done: ByteString, b: ByteString) returns (next: nat)
    requires off + 4 + |b| <= out.Length && out[..off] == done
    modifies out
    ensures next == off + 4 + |b| && out[..next] == done + Prefixed(b)
  {
    next := PutUint32(out, off, done, |b|);
    SetBytes(out, next, b);
    next := next + |b|;
    assert out[..next] == out[..][..next];
  }

  // ----- the payload of a snapshot signature

  datatype SnapshotFields = SnapshotFields(
    timestamp: int,
    compactedCount: int,
    cidBytes: ByteString,
    stateBytes: ByteString)

  const SNAPSHOT_VERSION: Octet := 1

  /** `_buildSnapshotSignPayload`; `None` where the source throws. */
  function SnapshotPayload(s: SnapshotFields): Option<ByteString> {
    if !(0 <= s.timestamp <= MAX_SAFE_INTEGER) then None
    else if !(0 <= s.compactedCount < TWO32) then None
    else if |s.cidBytes| >= TWO32 || |s.stateBytes| >= TWO32 then None
    else Some([SNAPSHOT_VERSION] + (U32(s.timestamp / TWO32) + (U32(s.timestamp) + (U32(s.compactedCount) +
              (Prefixed(s.cidBytes) + (Prefixed(s.stateBytes) + []))))))
  }

  /** The layout of a snapshot payload, version octet first. */
  ghost predicate SnapshotLaidOut(f: SnapshotFields, s: ByteString) {
    && s != [] && s[0] == 1
    && NumberAt(s, 1, f.timestamp / 0x1_0000_0000)
    && NumberAt(s, 5, f.timestamp % 0x1_0000_0000)
    && NumberAt(s, 9, f.compactedCount)
    && FieldAt(s, 13, f.cidBytes)
    && FieldAt(s, 17 + |f.cidBytes|, f.stateBytes)
    && |s| == 21 + |f.cidBytes| + |f.stateBytes|
  }

  /** The builder accepts exactly safe timestamps, 32-bit counts and fields with 32-bit lengths, and what it
      builds is the one octet string laid out so. */
  lemma SnapshotPayloadIsLaidOut(f: SnapshotFields, s: ByteString)
    ensures SnapshotPayload(f).Some? <==>
            && 0 <= f.timestamp <= 9007199254740991 && 0 <= f.compactedCount <= 4294967295
            && |f.cidBytes| <= 4294967295 && |f.stateBytes| <= 4294967295
    ensures SnapshotPayload(f).Some? ==> (SnapshotLaidOut(f, s) <==> s == SnapshotPayload(f).value)
  {
    if SnapshotPayload(f).Some? {
      SnapshotStands(f);
      if SnapshotLaidOut(f, s) { SameSnapshotLayout(f, s, SnapshotPayload(f).value); }
    }
  }

  lemma SnapshotStands(f: SnapshotFields)
    requires SnapshotPayload(f).Some?
    ensures SnapshotLaidOut(f, SnapshotPayload(f).value)
  {
    hide U32, NumberAt, FieldAt;
    var v, a, b, c := [SNAPSHOT_VERSION], U32(f.timestamp / TWO32), U32(f.timestamp), U32(f.compactedCount);
    var d, e := Prefixed(f.cidBytes), Prefixed(f.stateBytes);
    NumberStands(v, f.timestamp / TWO32, b + (c + (d + (e + []))));
    NumberStands(v + a, f.timestamp, c + (d + (e + [])));
    NumberStands(v + a + b, f.compactedCount, d + (e + []));
    FieldStands(v + a + b + c, f.cidBytes, e + []);
    FieldStands(v + a + b + c + d, f.stateBytes, []);
    Regrouped(v, a, b, c, d, e + []);
  }

  lemma SameSnapshotLayout(f: SnapshotFields, s: ByteString, t: ByteString)
    requires SnapshotLaidOut(f, s) && SnapshotLaidOut(f, t)
    ensures s == t
  {
    hide NumberAt, FieldAt;
    var i := 17 + |f.cidBytes|;
    SameNumberSameOctets(s, t, 1, f.timestamp / TWO32);
    SameNumberSameOctets(s, t, 5, f.timestamp % TWO32);
    SameNumberSameOctets(s, t, 9, f.compactedCount);
    SameFieldSameOctets(s, t, 13, f.cidBytes);
    SameFieldSameOctets(s, t, i, f.stateBytes);
    assert s[13..i] == t[13..i] && s[i..|s|] == t[i..|t|];
    SnapshotPieces(s, i);
    SnapshotPieces(t, i);
  }

  lemma SnapshotPieces(s: ByteString, i: nat)
    requires 13 <= i <= |s|
    ensures s == [s[0]] + s[1..5] + s[5..9] + s[9..13] + s[13..i] + s[i..|s|]
  {
  }

  /** The builder itself: it validates, then fills one buffer at a moving offset. */
  method BuildSnapshotPayload(s: SnapshotFields) returns (r: Option<ByteString>)
    ensures r == SnapshotPayload(s)
    ensures r.Some? ==> SnapshotLaidOut(s, r.value)
  {
    hide SnapshotLaidOut;
    if SnapshotPayload(s).Some? { SnapshotStands(s); }
    if s.timestamp < 0 || s.timestamp > MAX_SAFE_INTEGER { return None; }
    if s.compactedCount < 0 || s.compactedCount > 0xffff_ffff { return None; }
    if |s.cidBytes| > 0xffff_ffff || |s.stateBytes| > 0xffff_ffff { return None; }
    hide U32, Prefixed;
    var out := new Octet[21 + |s.cidBytes| + |s.stateBytes|](_ => 0);
    out[0] := SNAPSHOT_VERSION;
    var off := PutUint32(out, 1, [SNAPSHOT_VERSION], s.timestamp / TWO32);
    ghost var w := [SNAPSHOT_VERSION] + U32(s.timestamp / TWO32);
    off := PutUint32(out, off, w, s.timestamp);
    w := w + U32(s.timestamp);
    off := PutUint32(out, off, w, s.compactedCount);
    w := w + U32(s.compactedCount);
    off := PutField(out, off, w, s.cidBytes);
    w := w + Prefixed(s.cidBytes);
    off := PutField(out, off, w, s.stateBytes);
    w := w + Prefixed(s.stateBytes);
    assert out[..] == out[..off] == w;
    Regroup([SNAPSHOT_VERSION], U32(s.timestamp / TWO32), U32(s.timestamp), U32(s.compactedCount),
            Prefixed(s.cidBytes), Prefixed(s.stateBytes));
    r := Some(out[..]);
  }

  /** Whatever two inputs the builder accepts, equal payloads mean equal inputs. */
  lemma SnapshotPayloadInjective(s: SnapshotFields, t: SnapshotFields)
    requires SnapshotPayload(s).Some? && SnapshotPayload(s) == SnapshotPayload(t)
    ensures s == t
  {
    hide U32;
    var s4 := Prefixed(s.cidBytes) + (Prefixed(s.stateBytes) + []);
    var t4 := Prefixed(t.cidBytes) + (Prefixed(t.stateBytes) + []);
    var s3, t3 := U32(s.compactedCount) + s4, U32(t.compactedCount) + t4;
    var s2, t2 := U32(s.timestamp) + s3, U32(t.timestamp) + t3;
    var s1, t1 := U32(s.timestamp / TWO32) + s2, U32(t.timestamp / TWO32) + t2;
    SplitEqual([SNAPSHOT_VERSION], s1, [SNAPSHOT_VERSION], t1);
    SplitEqual(U32(s.timestamp / TWO32), s2, U32(t.timestamp / TWO32), t2);
    SplitEqual(U32(s.timestamp), s3, U32(t.timestamp), t3);
    SplitEqual(U32(s.compactedCount), s4, U32(t.compactedCount), t4);
    PrefixedSplit(s.cidBytes, Prefixed(s.stateBytes) + [], t.cidBytes, Prefixed(t.stateBytes) + []);
    PrefixedSplit(s.stateBytes, [], t.stateBytes, []);
    U32EqualIff(s.compactedCount, t.compactedCount);
    U32EqualIff(s.timestamp / TWO32, t.timestamp / TWO32);
    U32EqualIff(s.timestamp, t.timestamp);
  }
}
