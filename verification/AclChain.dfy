/**
 The ACL chain of trust (acl-chain.ts): an append-only, hash-linked log of signed ACL changes.

 Hashing, signing, verification and the ACL backend are fields of a configuration; a `None` result
 stands for a call that throws. Everything else is decided here.
 */
module AclChain {
  import opened Bytes
  import opened Collections
  import opened AclEncoding

  type Change(!new)
  type PublicKey(!new)
  type PrivateKey(!new)
  type AclState(!new)

  const MAX_PARENT_HASH_BYTES := 64
  const MAX_SIGNER_KEY_BYTES := 256
  const MAX_SIGNATURE_BYTES := 1024
  const MAX_CHANGE_BYTES := 0x10_0000

  datatype Config = Config(
    serializeKey: PublicKey -> Option<ByteString>,
    serializeChange: Change -> Option<ByteString>,
    rawLength: Change -> Option<nat>,  // Some(n) when the change is itself an n-octet array
    digest: ByteString -> Option<ByteString>,
    sign: (ByteString, PrivateKey) -> Option<ByteString>,
    verify: (ByteString, PublicKey, ByteString) -> Option<bool>,
    emptyState: Option<AclState>,
    applyChange: (AclState, Change) -> Option<AclState>,
    isWriter: (AclState, PublicKey) -> Option<bool>,
    genesisKeys: seq<PublicKey>)

  // ----- entries, as received and as stored

  /** A number field of received data: an integer, or anything else (fraction, NaN, wrong type). */
  datatype WireNumber = Whole(n: int) | NotWhole

  /** A byte field of received data. */
  datatype WireBytes = Octets(b: ByteString) | NotOctets

  datatype WireEntry =
    | NotAnObject
    | WireEntry(
        sequenceNumber: WireNumber,
        timestamp: WireNumber,
        parentHash: Option<WireBytes>,
        change: Change,
        signerKeyId: WireBytes,
        signature: WireBytes)

  datatype Entry = Entry(
    sequenceNumber: int,
    timestamp: int,
    parentHash: Option<ByteString>,
    change: Change,
    signerKeyId: ByteString,
    signature: ByteString)

  function ToWire(e: Entry): WireEntry {
    WireEntry(Whole(e.sequenceNumber), Whole(e.timestamp),
              if e.parentHash.Some? then Some(Octets(e.parentHash.value)) else None,
              e.change, Octets(e.signerKeyId), Octets(e.signature))
  }

  /** The bounds of `validateEntryShape` on the fields. */
  predicate GoodShape(e: Entry) {
    && 0 <= e.sequenceNumber < TWO32
    && 0 <= e.timestamp <= MAX_SAFE_INTEGER
    && 0 < |e.signerKeyId| <= MAX_SIGNER_KEY_BYTES
    && 0 < |e.signature| <= MAX_SIGNATURE_BYTES
    && (e.parentHash.Some? ==> 0 < |e.parentHash.value| <= MAX_PARENT_HASH_BYTES)
  }

  /** `validateEntryShape`: the typed entry when every check passes. */
  function ValidateShape(w: WireEntry): (r: Option<Entry>)
    ensures r.Some? ==> GoodShape(r.value) && ToWire(r.value) == w
    ensures forall e :: ToWire(e) == w && GoodShape(e) ==> r == Some(e)
  {
    match w
    case WireEntry(Whole(s), Whole(t), parent, change, Octets(k), Octets(g)) =>
      if parent.Some? && parent.value.NotOctets? then None
      else
        var e := Entry(s, t, if parent.Some? then Some(parent.value.b) else None, change, k, g);
        if GoodShape(e) then Some(e) else None
    case _ => None
  }

  /** The bounds, in numbers: what a received entry must be like. */
  lemma ShapeBounds(w: WireEntry)
    ensures ValidateShape(w).Some? <==>
            && w.WireEntry?
            && w.sequenceNumber.Whole? && 0 <= w.sequenceNumber.n <= 4294967295
            && w.timestamp.Whole? && 0 <= w.timestamp.n <= 9007199254740991
            && w.signerKeyId.Octets? && 1 <= |w.signerKeyId.b| <= 256
            && w.signature.Octets? && 1 <= |w.signature.b| <= 1024
            && (w.parentHash.Some? ==> w.parentHash.value.Octets? && 1 <= |w.parentHash.value.b| <= 64)
  {
  }

  function PayloadOf(e: Entry, changeBytes: ByteString): Payload {
    Payload(e.sequenceNumber, e.timestamp, e.parentHash, e.signerKeyId, changeBytes)
  }

  // ----- the chain and its gates

  datatype Chain = Chain(entries: seq<Entry>, hashes: seq<ByteString>, state: Option<AclState>)

  const EMPTY := Chain([], [], None)

  datatype Reason =
    | BadSignature
    | UnauthorizedSigner
    | ParentHashMismatch
    | SequenceOutOfOrder
    | UnknownSignerKey
    | MalformedEntry

  datatype Verdict = Accepted | Rejected(reason: Reason, index: nat)

  datatype Judgement = Commit(entry: Entry, hash: ByteString, state: AclState) | Refuse(reason: Reason)

  function HeadHash(c: Chain): Option<ByteString> {
    if |c.hashes| == 0 then None else Some(c.hashes[|c.hashes| - 1])
  }

  /** `_isInBootstrapSet`; a key that cannot be serialized before a match is found throws. */
  function InBootstrapSet(cfg: Config, candidate: ByteString, keys: seq<PublicKey>): Option<bool> {
    if keys == [] then Some(false)
    else
      match cfg.serializeKey(keys[0])
      case None => None
      case Some(b) => if b == candidate then Some(true) else InBootstrapSet(cfg, candidate, keys[1..])
  }

  /** Step 6: the bootstrap set signs the first entry, writers of the prior state sign the others. */
  function Authorized(cfg: Config, index: nat, prior: AclState, key: PublicKey): Option<bool> {
    if index == 0 then
      match cfg.serializeKey(key)
      case None => None
      case Some(b) => InBootstrapSet(cfg, b, cfg.genesisKeys)
    else cfg.isWriter(prior, key)
  }

  /** Steps 5 to 7 of `_ingestEntryInternal`. */
  function JudgeSigned(
    cfg: Config, c: Chain, e: Entry, key: PublicKey, payload: ByteString, hash: ByteString): Judgement
  {
    if cfg.verify(payload, key, e.signature) != Some(true) then Refuse(BadSignature)
    else
      var prior := if c.state.Some? then c.state else cfg.emptyState;
      if prior.None? then Refuse(MalformedEntry)
      else
        match Authorized(cfg, |c.entries|, prior.value, key)
        case None => Refuse(MalformedEntry)
        case Some(false) => Refuse(UnauthorizedSigner)
        case Some(true) =>
          match cfg.applyChange(prior.value, e.change)
          case None => Refuse(MalformedEntry)
          case Some(s) => Commit(e, hash, s)
  }

  /** Step 4: the change and the whole payload are size-gated, encoded and hashed. */
  function JudgePayload(cfg: Config, c: Chain, e: Entry, key: PublicKey): Judgement {
    var raw := cfg.rawLength(e.change);
    if raw.Some? && raw.value > MAX_CHANGE_BYTES then Refuse(MalformedEntry)
    else
      match cfg.serializeChange(e.change)
      case None => Refuse(MalformedEntry)
      case Some(changeBytes) =>
        if |changeBytes| > MAX_CHANGE_BYTES then Refuse(MalformedEntry)
        else
          var payload := Encode(PayloadOf(e, changeBytes));
          if |payload| > MAX_CHANGE_BYTES + 1024 then Refuse(MalformedEntry)
          else
            match cfg.digest(payload)
            case None => Refuse(MalformedEntry)
            case Some(hash) => JudgeSigned(cfg, c, e, key, payload, hash)
  }

  /** Steps 0 to 3: shape, declared key, sequence number, parent hash. */
  function Judge(cfg: Config, c: Chain, w: WireEntry, key: PublicKey): Judgement {
    match ValidateShape(w)
    case None => Refuse(MalformedEntry)
    case Some(e) =>
      match cfg.serializeKey(key)
      case None => Refuse(MalformedEntry)
      case Some(actual) =>
        if e.signerKeyId != actual then Refuse(UnknownSignerKey)
        else if e.sequenceNumber != |c.entries| then Refuse(SequenceOutOfOrder)
        else if e.parentHash != HeadHash(c) then Refuse(ParentHashMismatch)
        else JudgePayload(cfg, c, e, key)
  }

  function Append(c: Chain, j: Judgement): Chain
    requires j.Commit?
  {
    Chain(c.entries + [j.entry], c.hashes + [j.hash], Some(j.state))
  }

  /** `_ingestEntryInternal`: a refused entry leaves the chain as it was. */
  function Ingest(cfg: Config, c: Chain, w: WireEntry, key: PublicKey): (Chain, Verdict) {
    match Judge(cfg, c, w, key)
    case Refuse(reason) => (c, Rejected(reason, |c.entries|))
    case Commit(e, h, s) => (Append(c, Commit(e, h, s)), Accepted)
  }

  /** The wire form of the entry that `authorAndAppend` builds and signs; `None` if a step throws. */
  function Compose(
    cfg: Config, c: Chain, change: Change, pub: PublicKey, priv: PrivateKey, timestamp: WireNumber)
    : Option<WireEntry>
  {
    match (cfg.serializeKey(pub), cfg.serializeChange(change))
    case (Some(id), Some(changeBytes)) =>
      var t := if timestamp.Whole? then timestamp.n else 0;
      var payload := Encode(Payload(|c.entries|, t, HeadHash(c), id, changeBytes));
      (match cfg.sign(payload, priv)
       case None => None
       case Some(g) =>
         var head := HeadHash(c);
         Some(WireEntry(Whole(|c.entries|), timestamp, if head.Some? then Some(Octets(head.value)) else None,
                        change, Octets(id), Octets(g))))
    case _ => None
  }

  /** `authorAndAppend`: the new chain, and the entry unless the call throws. */
  function Author(
    cfg: Config, c: Chain, change: Change, pub: PublicKey, priv: PrivateKey, timestamp: WireNumber)
    : (Chain, Option<WireEntry>)
  {
    match Compose(cfg, c, change, pub, priv, timestamp)
    case None => (c, None)
    case Some(w) =>
      var (c', v) := Ingest(cfg, c, w, pub);
      (c', if v.Accepted? then Some(w) else None)
  }

  type Resolver = ByteString -> Option<PublicKey>

  /** One round of the loop in `replay`. */
  function ReplayOne(cfg: Config, c: Chain, w: WireEntry, resolve: Resolver, i: nat): (Chain, Verdict) {
    match ValidateShape(w)
    case None => (c, Rejected(MalformedEntry, i))
    case Some(e) =>
      match resolve(e.signerKeyId)
      case None => (c, Rejected(UnknownSignerKey, i))
      case Some(key) => Ingest(cfg, c, w, key)
  }

  /** The loop of `replay` from entry `i` on, starting from chain `c`. */
  function ReplayFrom(cfg: Config, c: Chain, ws: seq<WireEntry>, resolve: Resolver, i: nat): (Chain, Verdict)
    requires i <= |ws|
    decreases |ws| - i
  {
    if i == |ws| then (c, Accepted)
    else
      var (c', v) := ReplayOne(cfg, c, ws[i], resolve, i);
      if v.Accepted? then ReplayFrom(cfg, c', ws, resolve, i + 1) else (c', v)
  }

  function Replay(cfg: Config, ws: seq<WireEntry>, resolve: Resolver): (Chain, Verdict) {
    ReplayFrom(cfg, EMPTY, ws, resolve, 0)
  }

  // ----- the object

  /** The `ACLChain` object. Calls run one at a time, in the order in which they were queued. */
  class ACLChain {
    const cfg: Config
    var entries: seq<Entry>
    var entryHashes: seq<ByteString>
    var state: Option<AclState>

    constructor (cfg: Config)
      ensures this.cfg == cfg && Contents() == EMPTY
    {
      this.cfg := cfg;
      entries, entryHashes, state := [], [], None;
    }

    ghost function Contents(): Chain
      reads this
    {
      Chain(entries, entryHashes, state)
    }

    method IsInBootstrapSet(candidate: ByteString) returns (r: Option<bool>)
      ensures r == InBootstrapSet(cfg, candidate, cfg.genesisKeys)
    {
      for i := 0 to |cfg.genesisKeys|
        invariant InBootstrapSet(cfg, candidate, cfg.genesisKeys) ==
          InBootstrapSet(cfg, candidate, cfg.genesisKeys[i..])
      {
        var allowed := cfg.serializeKey(cfg.genesisKeys[i]);
        if allowed.None? { return None; }
        var eq := BytesEqual(candidate, allowed.value);
        if eq { return Some(true); }
        assert cfg.genesisKeys[i..][1..] == cfg.genesisKeys[i + 1..];
      }
      return Some(false);
    }

    /** Steps 5 to 7 for an entry whose payload has been encoded and hashed. */
    method CommitSigned(
      e: Entry, key: PublicKey, payload: ByteString, hash: ByteString) returns (reason: Option<Reason>)
      modifies this
      ensures var j := JudgeSigned(cfg, old(Contents()), e, key, payload, hash);
              match j
              case Refuse(r) => reason == Some(r) && Contents() == old(Contents())
              case Commit(_, _, _) => reason == None && Contents() == Append(old(Contents()), j)
    {
      if cfg.verify(payload, key, e.signature) != Some(true) { return Some(BadSignature); }
      var prior := if state.Some? then state else cfg.emptyState;
      if prior.None? { return Some(MalformedEntry); }
      var authorized;
      if |entries| == 0 {
        var candidate := cfg.serializeKey(key);
        if candidate.None? { return Some(MalformedEntry); }
        authorized := IsInBootstrapSet(candidate.value);
      } else {
        authorized := cfg.isWriter(prior.value, key);
      }
      if authorized.None? { return Some(MalformedEntry); }
      if !authorized.value { return Some(UnauthorizedSigner); }
      var newState := cfg.applyChange(prior.value, e.change);
      if newState.None? { return Some(MalformedEntry); }
      state := newState;
      entries := entries + [e];
      entryHashes := entryHashes + [hash];
      return None;
    }

    /** `_ingestEntryInternal`. */
    method IngestEntryInternal(w: WireEntry, key: PublicKey) returns (v: Verdict)
      modifies this
      ensures (Contents(), v) == Ingest(cfg, old(Contents()), w, key)
    {
      hide Encode;
      var index := |entries|;
      var shaped := ValidateShape(w);
      if shaped.None? { return Rejected(MalformedEntry, index); }
      var e := shaped.value;
      var actual := cfg.serializeKey(key);
      if actual.None? { return Rejected(MalformedEntry, index); }
      var sameKey := BytesEqual(e.signerKeyId, actual.value);
      if !sameKey { return Rejected(UnknownSignerKey, index); }
      if e.sequenceNumber != index { return Rejected(SequenceOutOfOrder, index); }
      if |entryHashes| == 0 {
        if e.parentHash.Some? { return Rejected(ParentHashMismatch, index); }
      } else {
        if e.parentHash.None? { return Rejected(ParentHashMismatch, index); }
        var sameHead := BytesEqual(entryHashes[|entryHashes| - 1], e.parentHash.value);
        if !sameHead { return Rejected(ParentHashMismatch, index); }
      }
      var raw := cfg.rawLength(e.change);
      if raw.Some? && raw.value > MAX_CHANGE_BYTES { return Rejected(MalformedEntry, index); }
      var changeBytes := cfg.serializeChange(e.change);
      if changeBytes.None? || |changeBytes.value| > MAX_CHANGE_BYTES { return Rejected(MalformedEntry, index); }
      var buffer := EncodeIntoBuffer(PayloadOf(e, changeBytes.value));
      var payload := buffer[..];
      if |payload| > MAX_CHANGE_BYTES + 1024 { return Rejected(MalformedEntry, index); }
      var hash := cfg.digest(payload);
      if hash.None? { return Rejected(MalformedEntry, index); }
      var reason := CommitSigned(e, key, payload, hash.value);
      return if reason.Some? then Rejected(reason.value, index) else Accepted;
    }

    method AuthorAndAppend(change: Change, pub: PublicKey, priv: PrivateKey, timestamp: WireNumber)
      returns (r: Option<WireEntry>)
      modifies this
      ensures (Contents(), r) == Author(cfg, old(Contents()), change, pub, priv, timestamp)
    {
      var w := Compose(cfg, Chain(entries, entryHashes, state), change, pub, priv, timestamp);
      if w.None? { return None; }
      var v := IngestEntryInternal(w.value, pub);
      return if v.Accepted? then w else None;
    }

    /** `replay`: the object is emptied first and not restored when an entry is refused. */
    method ReplayEntries(ws: seq<WireEntry>, resolve: Resolver) returns (v: Verdict)
      modifies this
      ensures (Contents(), v) == Replay(cfg, ws, resolve)
    {
      entries, entryHashes, state := [], [], None;
      for i := 0 to |ws|
        invariant Replay(cfg, ws, resolve) == ReplayFrom(cfg, Contents(), ws, resolve, i)
      {
        var shaped := ValidateShape(ws[i]);
        if shaped.None? { return Rejected(MalformedEntry, i); }
        var key := resolve(shaped.value.signerKeyId);
        if key.None? { return Rejected(UnknownSignerKey, i); }
        var one := IngestEntryInternal(ws[i], key.value);
        if one.Rejected? { return one; }
      }
      return Accepted;
    }
  }
}
