/**
 What the ACL chain guarantees: every run keeps the chain of trust, the head hash pins down the
 whole history, and replaying a history rebuilds the chain it came from.
 */
module AclTrust {
  import opened Bytes
  import opened Collections
  import opened AclEncoding
  import opened AclChain

  // ----- the chain of trust

  /** The ACL state after a list of entries, from the empty state on; `None` if a step throws. */
  ghost function StateAfter(cfg: Config, es: seq<Entry>): Option<AclState> {
    if es == [] then cfg.emptyState
    else
      var s := StateAfter(cfg, es[..|es| - 1]);
      if s.None? then None else cfg.applyChange(s.value, es[|es| - 1].change)
  }

  /** The octets an entry's hash and signature are made from. */
  ghost function SignedBytes(cfg: Config, e: Entry): Option<ByteString> {
    var changeBytes := cfg.serializeChange(e.change);
    if changeBytes.None? then None else Some(Encode(PayloadOf(e, changeBytes.value)))
  }

  /** `k` is the key the entry declares, and it made the entry's signature. */
  ghost predicate SignedBy(cfg: Config, e: Entry, k: PublicKey) {
    && cfg.serializeKey(k) == Some(e.signerKeyId)
    && SignedBytes(cfg, e).Some?
    && cfg.verify(SignedBytes(cfg, e).value, k, e.signature) == Some(true)
  }

  /** Key `j` has the octets, and the keys before it can be serialized. */
  ghost predicate FoundAt(cfg: Config, candidate: ByteString, keys: seq<PublicKey>, j: nat)
    requires j < |keys|
  {
    cfg.serializeKey(keys[j]) == Some(candidate) && forall i :: 0 <= i < j ==> cfg.serializeKey(keys[i]).Some?
  }

  /** A founding member: a genesis key that is reached without an error. */
  ghost predicate IsFounder(cfg: Config, k: PublicKey) {
    cfg.serializeKey(k).Some? &&
    exists j :: 0 <= j < |cfg.genesisKeys| && FoundAt(cfg, cfg.serializeKey(k).value, cfg.genesisKeys, j)
  }

  /** `k` was allowed to sign the entry that follows `before`: a founding member for the first
      entry, a writer of the state folded from all earlier entries for the others. */
  ghost predicate AuthorizedAfter(cfg: Config, before: seq<Entry>, k: PublicKey) {
    if before == [] then IsFounder(cfg, k)
    else StateAfter(cfg, before).Some? && cfg.isWriter(StateAfter(cfg, before).value, k) == Some(true)
  }

  ghost predicate WithinSize(cfg: Config, e: Entry) {
    && (cfg.serializeChange(e.change).Some? ==> |cfg.serializeChange(e.change).value| <= 1048576)
    && (cfg.rawLength(e.change).Some? ==> cfg.rawLength(e.change).value <= 1048576)
  }

  /** Entry `i` is linked, hashed, signed and authorized. */
  ghost predicate LinkOk(cfg: Config, c: Chain, i: nat)
    requires i < |c.entries| == |c.hashes|
  {
    var e := c.entries[i];
    && GoodShape(e)
    && WithinSize(cfg, e)
    && e.sequenceNumber == i
    && e.parentHash == (if i == 0 then None else Some(c.hashes[i - 1]))
    && SignedBytes(cfg, e).Some?
    && cfg.digest(SignedBytes(cfg, e).value) == Some(c.hashes[i])
    && exists k :: SignedBy(cfg, e, k) && AuthorizedAfter(cfg, c.entries[..i], k)
  }

  /** The whole chain of trust, and the stored state is the fold of all changes. */
  ghost predicate Trusted(cfg: Config, c: Chain) {
    && |c.entries| == |c.hashes|
    && (forall i :: 0 <= i < |c.entries| ==> LinkOk(cfg, c, i))
    && (c.entries == [] ==> c.state == None)
    && (c.entries != [] ==> c.state.Some? && c.state == StateAfter(cfg, c.entries))
  }

  /** The bootstrap loop finds the octets exactly if some key has them and all before it serialize, and
      throws exactly if it meets a key that does not serialize before it finds them. */
  lemma {:induction false} BootstrapFound(cfg: Config, candidate: ByteString, keys: seq<PublicKey>)
    ensures InBootstrapSet(cfg, candidate, keys) == Some(true) <==>
              exists j :: 0 <= j < |keys| && FoundAt(cfg, candidate, keys, j)
    ensures InBootstrapSet(cfg, candidate, keys).Some? && !InBootstrapSet(cfg, candidate, keys).value ==>
              forall i :: 0 <= i < |keys| ==> cfg.serializeKey(keys[i]).Some?
    ensures InBootstrapSet(cfg, candidate, keys) == None ==>
              exists i :: 0 <= i < |keys| && cfg.serializeKey(keys[i]).None?
  {
    if keys != [] {
      var rest := keys[1..];
      if cfg.serializeKey(keys[0]) == Some(candidate) {
        assert FoundAt(cfg, candidate, keys, 0);
      } else if cfg.serializeKey(keys[0]).Some? {
        BootstrapFound(cfg, candidate, rest);
        assert keys == [keys[0]] + rest;
        if j :| 0 <= j < |rest| && FoundAt(cfg, candidate, rest, j) {
          assert FoundAt(cfg, candidate, keys, j + 1);
        }
        if j :| 0 <= j < |keys| && FoundAt(cfg, candidate, keys, j) {
          assert FoundAt(cfg, candidate, rest, j - 1);
        }
        if i :| 0 <= i < |rest| && cfg.serializeKey(rest[i]).None? {
          assert cfg.serializeKey(keys[i + 1]).None?;
        }
      }
    }
  }

  /** An accepted entry extends a trusted chain to a trusted chain. */
  lemma CommitKeepsTrust(cfg: Config, c: Chain, w: WireEntry, key: PublicKey)
    requires Trusted(cfg, c) && Judge(cfg, c, w, key).Commit?
    ensures Trusted(cfg, Append(c, Judge(cfg, c, w, key)))
  {
    hide Encode, ValidateShape;
    var j := Judge(cfg, c, w, key);
    var c' := Append(c, j);
    var n := |c.entries|;
    assert c'.entries[..n] == c.entries;
    assert SignedBy(cfg, j.entry, key);
    if n == 0 {
      BootstrapFound(cfg, j.entry.signerKeyId, cfg.genesisKeys);
    }
    assert AuthorizedAfter(cfg, c'.entries[..n], key);
    assert c'.state == StateAfter(cfg, c'.entries) by {
      assert c'.entries[..|c'.entries| - 1] == c.entries;
    }
    assert LinkOk(cfg, c', n);
    forall i | 0 <= i < n + 1 ensures LinkOk(cfg, c', i) {
      if i < n {
        assert LinkOk(cfg, c, i);
        assert c'.entries[..i] == c.entries[..i];
      }
    }
  }

  /** Every call of the class, with its arguments. */
  datatype Call =
    | AuthorCall(change: Change, pub: PublicKey, priv: PrivateKey, timestamp: WireNumber)
    | IngestCall(entry: WireEntry, key: PublicKey)
    | ReplayCall(entries: seq<WireEntry>, resolve: Resolver)

  ghost function Perform(cfg: Config, c: Chain, call: Call): Chain {
    match call
    case AuthorCall(change, pub, priv, t) => Author(cfg, c, change, pub, priv, t).0
    case IngestCall(w, key) => Ingest(cfg, c, w, key).0
    case ReplayCall(ws, resolve) => Replay(cfg, ws, resolve).0
  }

  /** The chain after a list of calls, failing ones included. */
  ghost function Run(cfg: Config, calls: seq<Call>): Chain {
    if calls == [] then EMPTY
    else Perform(cfg, Run(cfg, calls[..|calls| - 1]), calls[|calls| - 1])
  }

  lemma {:induction false} ReplayKeepsTrust(cfg: Config, c: Chain, ws: seq<WireEntry>, resolve: Resolver, i: nat)
    requires i <= |ws| && Trusted(cfg, c)
    ensures Trusted(cfg, ReplayFrom(cfg, c, ws, resolve, i).0)
    decreases |ws| - i
  {
    hide Trusted, Judge;
    if i < |ws| {
      var (c', v) := ReplayOne(cfg, c, ws[i], resolve, i);
      if v.Accepted? {
        var e := ValidateShape(ws[i]).value;
        CommitKeepsTrust(cfg, c, ws[i], resolve(e.signerKeyId).value);
        ReplayKeepsTrust(cfg, c', ws, resolve, i + 1);
      }
    }
  }

  /** In every run every entry is numbered, linked, hashed, signed and authorized against the fold
      of the changes before it, and the stored state is the fold of them all. */
  lemma {:induction false} EveryRunIsTrusted(cfg: Config, calls: seq<Call>)
    ensures Trusted(cfg, Run(cfg, calls))
  {
    if calls != [] {
      var c := Run(cfg, calls[..|calls| - 1]);
      EveryRunIsTrusted(cfg, calls[..|calls| - 1]);
      hide Judge;
      match calls[|calls| - 1]
      case AuthorCall(change, pub, priv, t) =>
        var w := Compose(cfg, c, change, pub, priv, t);
        if w.Some? && Judge(cfg, c, w.value, pub).Commit? {
          CommitKeepsTrust(cfg, c, w.value, pub);
        }
      case IngestCall(w, key) =>
        if Judge(cfg, c, w, key).Commit? {
          CommitKeepsTrust(cfg, c, w, key);
        }
      case ReplayCall(ws, resolve) =>
        ReplayKeepsTrust(cfg, EMPTY, ws, resolve, 0);
    }
  }

  // ----- the head hash pins down the history

  /** The hash has no collision among the payloads of two chains. */
  ghost predicate NoCollision(cfg: Config, c: Chain, d: Chain) {
    forall i, j :: 0 <= i < |c.entries| && 0 <= j < |d.entries| ==>
      SameIfHashed(cfg, SignedBytes(cfg, c.entries[i]), SignedBytes(cfg, d.entries[j]))
  }

  ghost predicate SameIfHashed(cfg: Config, a: Option<ByteString>, b: Option<ByteString>) {
    a.Some? && b.Some? && cfg.digest(a.value).Some? && cfg.digest(a.value) == cfg.digest(b.value) ==> a == b
  }

  /** Different changes of two chains serialize differently. */
  ghost predicate TellsChanges(cfg: Config, es: seq<Entry>, fs: seq<Entry>) {
    forall i, j :: 0 <= i < |es| && 0 <= j < |fs| ==>
      SameIfSerialized(cfg, es[i].change, fs[j].change)
  }

  ghost predicate SameIfSerialized(cfg: Config, a: Change, b: Change) {
    cfg.serializeChange(a).Some? && cfg.serializeChange(a) == cfg.serializeChange(b) ==> a == b
  }

  /** Entries that differ at most in their signatures. */
  ghost predicate SamePayload(cfg: Config, d: Entry, e: Entry) {
    && d.sequenceNumber == e.sequenceNumber
    && d.timestamp == e.timestamp
    && d.parentHash == e.parentHash
    && d.signerKeyId == e.signerKeyId
    && cfg.serializeChange(d.change) == cfg.serializeChange(e.change)
  }

  /** Equal hashes of two stored entries mean equal payloads, hence equal positions. */
  lemma EqualHashEqualPayload(cfg: Config, c: Chain, d: Chain, i: nat, j: nat)
    requires NoCollision(cfg, c, d) && Trusted(cfg, c) && Trusted(cfg, d)
    requires i < |c.entries| && j < |d.entries| && c.hashes[i] == d.hashes[j]
    ensures i == j && SamePayload(cfg, c.entries[i], d.entries[j])
  {
    hide Encode;
    assert LinkOk(cfg, c, i) && LinkOk(cfg, d, j);
    assert SameIfHashed(cfg, SignedBytes(cfg, c.entries[i]), SignedBytes(cfg, d.entries[j]));
    var p := PayloadOf(c.entries[i], cfg.serializeChange(c.entries[i].change).value);
    var q := PayloadOf(d.entries[j], cfg.serializeChange(d.entries[j].change).value);
    EncodeInjective(p, q);
  }

  /** From equal hashes at one position, everything before it is equal too. */
  lemma {:induction false} EqualHashEqualHistory(cfg: Config, c: Chain, d: Chain, i: nat)
    requires NoCollision(cfg, c, d) && Trusted(cfg, c) && Trusted(cfg, d)
    requires i < |c.entries| && i < |d.entries| && c.hashes[i] == d.hashes[i]
    ensures forall k :: 0 <= k <= i ==> c.hashes[k] == d.hashes[k] && SamePayload(cfg, c.entries[k], d.entries[k])
  {
    EqualHashEqualPayload(cfg, c, d, i, i);
    if i > 0 {
      HoldsParentHash(cfg, c, i);
      HoldsParentHash(cfg, d, i);
      hide Trusted, NoCollision;
      EqualHashEqualHistory(cfg, c, d, i - 1);
    }
  }

  lemma HoldsParentHash(cfg: Config, c: Chain, i: nat)
    requires Trusted(cfg, c) && 0 < i < |c.entries|
    ensures c.entries[i].parentHash == Some(c.hashes[i - 1])
  {
    hide SignedBy, AuthorizedAfter, WithinSize, SignedBytes;
    assert LinkOk(cfg, c, i);
  }

  lemma {:induction false} EqualPayloadsEqualStates(cfg: Config, es: seq<Entry>, fs: seq<Entry>)
    requires TellsChanges(cfg, es, fs) && |es| == |fs|
    requires forall k :: 0 <= k < |es| ==> cfg.serializeChange(es[k].change).Some? && SamePayload(cfg, es[k], fs[k])
    ensures StateAfter(cfg, es) == StateAfter(cfg, fs)
  {
    if es != [] {
      var n := |es| - 1;
      assert SameIfSerialized(cfg, es[n].change, fs[n].change) && SamePayload(cfg, es[n], fs[n]);
      EqualPayloadsEqualStates(cfg, es[..n], fs[..n]);
    }
  }

  lemma EqualHeadsEqualChains(cfg: Config, c: Chain, d: Chain)
    requires NoCollision(cfg, c, d) && Trusted(cfg, c) && Trusted(cfg, d)
    requires c.entries != [] && d.entries != [] && HeadHash(c) == HeadHash(d)
    ensures |c.entries| == |d.entries|
    ensures forall k :: 0 <= k < |c.entries| ==> SamePayload(cfg, c.entries[k], d.entries[k])
    ensures TellsChanges(cfg, c.entries, d.entries) ==> c.state == d.state
  {
    EqualHashEqualPayload(cfg, c, d, |c.entries| - 1, |d.entries| - 1);
    EqualHashEqualHistory(cfg, c, d, |c.entries| - 1);
    if TellsChanges(cfg, c.entries, d.entries) {
      forall k | 0 <= k < |c.entries| ensures cfg.serializeChange(c.entries[k].change).Some? {
        assert LinkOk(cfg, c, k);
      }
      hide TellsChanges, NoCollision, LinkOk;
      EqualPayloadsEqualStates(cfg, c.entries, d.entries);
    }
  }

  /** Two non-empty chains, reached by any two runs, with the same head hash have the same length,
      the same payload at every position, and, if distinct changes serialize differently, the same
      ACL state: no reordering, fork or insertion survives. */
  lemma HeadHashDeterminesChain(cfg: Config, calls: seq<Call>, calls': seq<Call>)
    requires NoCollision(cfg, Run(cfg, calls), Run(cfg, calls'))
    requires Run(cfg, calls).entries != [] && Run(cfg, calls').entries != []
    requires HeadHash(Run(cfg, calls)) == HeadHash(Run(cfg, calls'))
    ensures var c, d := Run(cfg, calls), Run(cfg, calls');
            && |c.entries| == |d.entries|
            && (forall k :: 0 <= k < |c.entries| ==> SamePayload(cfg, c.entries[k], d.entries[k]))
            && (TellsChanges(cfg, c.entries, d.entries) ==> c.state == d.state)
  {
    hide *;
    EveryRunIsTrusted(cfg, calls);
    EveryRunIsTrusted(cfg, calls');
    EqualHeadsEqualChains(cfg, Run(cfg, calls), Run(cfg, calls'));
  }

  // ----- replay

  ghost function Wires(es: seq<Entry>): seq<WireEntry> {
    seq(|es|, i requires 0 <= i < |es| => ToWire(es[i]))
  }

  lemma {:induction false} ReplayPrefix(cfg: Config, c: Chain, ws: seq<WireEntry>, resolve: Resolver, i: nat)
    requires i <= |ws| && |c.entries| == i && Wires(c.entries) == ws[..i]
    ensures var (c', v) := ReplayFrom(cfg, c, ws, resolve, i);
            && |c'.entries| <= |ws|
            && Wires(c'.entries) == ws[..|c'.entries|]
            && (v.Accepted? <==> |c'.entries| == |ws|)
            && (v.Rejected? ==> v.index == |c'.entries| && ReplayOne(cfg, c', ws[v.index], resolve, v.index) == (c', v))
    decreases |ws| - i
  {
    hide JudgePayload;
    if i < |ws| {
      var (c', v) := ReplayOne(cfg, c, ws[i], resolve, i);
      if v.Accepted? {
        JudgeCommitsTheEntry(cfg, c, ws[i], resolve(ValidateShape(ws[i]).value.signerKeyId).value);
        assert Wires(c'.entries) == Wires(c.entries) + [ws[i]] == ws[..i + 1];
        ReplayPrefix(cfg, c', ws, resolve, i + 1);
      }
    }
  }

  lemma JudgeCommitsTheEntry(cfg: Config, c: Chain, w: WireEntry, key: PublicKey)
    ensures Judge(cfg, c, w, key).Commit? ==> ToWire(Judge(cfg, c, w, key).entry) == w
  {
    hide Encode;
  }

  /** What a replay kept is what replaying the kept entries alone gives. */
  lemma {:induction false} ReplayPrefixAlone(cfg: Config, c: Chain, ws: seq<WireEntry>, resolve: Resolver, i: nat)
    requires i <= |ws| && |c.entries| == i && Wires(c.entries) == ws[..i]
    ensures var c' := ReplayFrom(cfg, c, ws, resolve, i).0;
            i <= |c'.entries| <= |ws| && ReplayFrom(cfg, c, ws[..|c'.entries|], resolve, i) == (c', Accepted)
    decreases |ws| - i
  {
    hide JudgePayload;
    var c' := ReplayFrom(cfg, c, ws, resolve, i).0;
    ReplayPrefix(cfg, c, ws, resolve, i);
    if i < |ws| {
      var (next, v) := ReplayOne(cfg, c, ws[i], resolve, i);
      if v.Accepted? {
        JudgeCommitsTheEntry(cfg, c, ws[i], resolve(ValidateShape(ws[i]).value.signerKeyId).value);
        assert Wires(next.entries) == Wires(c.entries) + [ws[i]] == ws[..i + 1];
        ReplayPrefixAlone(cfg, next, ws, resolve, i + 1);
        assert ws[..|c'.entries|][i] == ws[i];
      }
    }
  }

  /** Replay keeps exactly the longest acceptable prefix: the kept entries are the first ones given, with
      the hashes and the state that replaying them alone gives; it accepts if and only if it kept them
      all; otherwise the reported index is the number kept, and ingesting that next entry on top of what
      was kept is refused for the reported reason. */
  lemma ReplayKeepsLongestPrefix(cfg: Config, ws: seq<WireEntry>, resolve: Resolver)
    ensures var (c, v) := Replay(cfg, ws, resolve);
            && |c.entries| <= |ws|
            && Wires(c.entries) == ws[..|c.entries|]
            && Replay(cfg, ws[..|c.entries|], resolve) == (c, Accepted)
            && (v.Accepted? <==> |c.entries| == |ws|)
            && (v.Rejected? ==> v.index == |c.entries| && ReplayOne(cfg, c, ws[v.index], resolve, v.index) == (c, v))
  {
    assert Wires(EMPTY.entries) == ws[..0];
    ReplayPrefix(cfg, EMPTY, ws, resolve, 0);
    ReplayPrefixAlone(cfg, EMPTY, ws, resolve, 0);
  }

  /** The reason of a refused replay: a bad shape, a key that is not found, or what ingesting the entry on
      top of what was kept reports. */
  lemma ReplayRefusalNames(cfg: Config, ws: seq<WireEntry>, resolve: Resolver)
    ensures var (c, v) := Replay(cfg, ws, resolve);
            v.Rejected? ==>
              && v.index == |c.entries| < |ws|
              && var w := ws[v.index];
                 (match ValidateShape(w)
                  case None => v.reason == MalformedEntry
                  case Some(e) =>
                    match resolve(e.signerKeyId)
                    case None => v.reason == UnknownSignerKey
                    case Some(key) => Ingest(cfg, c, w, key) == (c, v))
  {
    hide Replay, Ingest, ValidateShape, Wires;
    ReplayKeepsLongestPrefix(cfg, ws, resolve);
  }

  /** Keys with the same canonical octets are the same signer. */
  ghost predicate CanonicalKeys(cfg: Config) {
    forall k, l :: cfg.serializeKey(k).Some? && cfg.serializeKey(k) == cfg.serializeKey(l) ==>
      && (forall m, g :: cfg.verify(m, k, g) == cfg.verify(m, l, g))
      && (forall s :: cfg.isWriter(s, k) == cfg.isWriter(s, l))
  }

  ghost predicate Resolves(cfg: Config, resolve: Resolver, es: seq<Entry>) {
    forall i :: 0 <= i < |es| ==>
      resolve(es[i].signerKeyId).Some? && cfg.serializeKey(resolve(es[i].signerKeyId).value) == Some(es[i].signerKeyId)
  }

  /** The first `i` entries of a chain, as a chain. */
  ghost function Prefix(cfg: Config, c: Chain, i: nat): Chain
    requires i <= |c.entries| == |c.hashes|
  {
    Chain(c.entries[..i], c.hashes[..i], if i == 0 then None else StateAfter(cfg, c.entries[..i]))
  }

  /** A shaped, size-gated payload always fits the final size gate. */
  lemma PayloadFits(cfg: Config, e: Entry, changeBytes: ByteString)
    requires GoodShape(e) && |changeBytes| <= MAX_CHANGE_BYTES
    ensures |Encode(PayloadOf(e, changeBytes))| <= MAX_CHANGE_BYTES + 1024
  {
    hide U32;
  }

  lemma {:induction false} StatesExist(cfg: Config, es: seq<Entry>, i: nat)
    requires i <= |es| && StateAfter(cfg, es).Some?
    ensures StateAfter(cfg, es[..i]).Some?
  {
    if i == |es| {
      assert es[..i] == es;
    } else {
      StatesExist(cfg, es[..|es| - 1], i);
      assert es[..|es| - 1][..i] == es[..i];
    }
  }

  /** Whoever the resolver returns for an entry of a trusted chain passes the same checks as its signer. */
  lemma ResolvedSignerPasses(cfg: Config, c: Chain, i: nat, l: PublicKey, prior: AclState)
    requires Trusted(cfg, c) && CanonicalKeys(cfg) && i < |c.entries|
    requires cfg.serializeKey(l) == Some(c.entries[i].signerKeyId)
    requires StateAfter(cfg, c.entries[..i]) == Some(prior)
    ensures SignedBy(cfg, c.entries[i], l) && Authorized(cfg, i, prior, l) == Some(true)
  {
    hide Encode, StateAfter;
    assert LinkOk(cfg, c, i);
    var k :| SignedBy(cfg, c.entries[i], k) && AuthorizedAfter(cfg, c.entries[..i], k);
    assert cfg.isWriter(prior, k) == cfg.isWriter(prior, l);
    if i == 0 { BootstrapFound(cfg, c.entries[i].signerKeyId, cfg.genesisKeys); }
  }

  /** A signed, authorized, applicable entry with a good payload passes steps 4 to 7. */
  lemma PayloadPasses(cfg: Config, c: Chain, e: Entry, l: PublicKey, prior: AclState)
    requires GoodShape(e) && WithinSize(cfg, e) && SignedBy(cfg, e, l)
    requires (if c.state.Some? then c.state else cfg.emptyState) == Some(prior)
    requires Authorized(cfg, |c.entries|, prior, l) == Some(true)
    requires cfg.digest(SignedBytes(cfg, e).value).Some? && cfg.applyChange(prior, e.change).Some?
    ensures JudgePayload(cfg, c, e, l) ==
            Commit(e, cfg.digest(SignedBytes(cfg, e).value).value, cfg.applyChange(prior, e.change).value)
  {
    hide Encode, Authorized;
    PayloadFits(cfg, e, cfg.serializeChange(e.change).value);
  }

  /** A prefix of a trusted chain accepts the entry that follows it. */
  lemma NextEntryAccepted(cfg: Config, c: Chain, resolve: Resolver, i: nat)
    requires Trusted(cfg, c) && CanonicalKeys(cfg) && Resolves(cfg, resolve, c.entries)
    requires i < |c.entries|
    ensures ReplayOne(cfg, Prefix(cfg, c, i), ToWire(c.entries[i]), resolve, i) == (Prefix(cfg, c, i + 1), Accepted)
  {
    hide Encode, ValidateShape, Authorized, JudgePayload, CanonicalKeys, SignedBy;
    var e, p := c.entries[i], Prefix(cfg, c, i);
    assert LinkOk(cfg, c, i);
    StatesExist(cfg, c.entries, i);
    StatesExist(cfg, c.entries, i + 1);
    var es := c.entries[..i + 1];
    assert es == c.entries[..i] + [e] && es[..i] == c.entries[..i];
    assert c.hashes[..i + 1] == c.hashes[..i] + [c.hashes[i]];
    var prior := StateAfter(cfg, c.entries[..i]).value;
    var l := resolve(e.signerKeyId).value;
    ResolvedSignerPasses(cfg, c, i, l, prior);
    assert StateAfter(cfg, es) == cfg.applyChange(prior, e.change);
    PayloadPasses(cfg, p, e, l, prior);
    assert ValidateShape(ToWire(e)) == Some(e);
    assert Judge(cfg, p, ToWire(e), l) == Commit(e, c.hashes[i], StateAfter(cfg, es).value);
  }

  lemma {:induction false} ReplayRebuildsFrom(cfg: Config, c: Chain, resolve: Resolver, i: nat)
    requires Trusted(cfg, c) && CanonicalKeys(cfg) && Resolves(cfg, resolve, c.entries)
    requires i <= |c.entries|
    ensures ReplayFrom(cfg, Prefix(cfg, c, i), Wires(c.entries), resolve, i) == (c, Accepted)
    decreases |c.entries| - i
  {
    if i < |c.entries| {
      NextEntryAccepted(cfg, c, resolve, i);
      ReplayRebuildsFrom(cfg, c, resolve, i + 1);
    } else {
      assert c.entries[..i] == c.entries && c.hashes[..i] == c.hashes;
    }
  }

  /** A fresh replica with the same configuration and a resolver that knows the signers accepts the
      history of any run in full, and ends with the same entries, hashes and ACL state. */
  lemma ReplayRebuildsChain(cfg: Config, calls: seq<Call>, resolve: Resolver)
    requires CanonicalKeys(cfg)
    requires Resolves(cfg, resolve, Run(cfg, calls).entries)
    ensures Replay(cfg, Wires(Run(cfg, calls).entries), resolve) == (Run(cfg, calls), Accepted)
  {
    EveryRunIsTrusted(cfg, calls);
    var c := Run(cfg, calls);
    assert Prefix(cfg, c, 0) == EMPTY;
    ReplayRebuildsFrom(cfg, c, resolve, 0);
  }

  // ----- what is accepted, and why something is refused

  /** Everything that makes an entry the next one of a chain. */
  ghost predicate IsNext(cfg: Config, c: Chain, e: Entry, key: PublicKey) {
    && GoodShape(e)
    && e.sequenceNumber == |c.entries|
    && e.parentHash == HeadHash(c)
    && WithinSize(cfg, e)
    && SignedBy(cfg, e, key)
    && cfg.digest(SignedBytes(cfg, e).value).Some?
    && AuthorizedAfter(cfg, c.entries, key)
    && StateAfter(cfg, c.entries).Some?
    && cfg.applyChange(StateAfter(cfg, c.entries).value, e.change).Some?
  }

  /** On the chain of any run an entry is accepted if and only if it is the next one, and then the chain
      grows by that entry; otherwise the chain stays as it is. */
  lemma IngestAcceptsIff(cfg: Config, calls: seq<Call>, e: Entry, key: PublicKey)
    ensures var c := Run(cfg, calls);
            var (c', v) := Ingest(cfg, c, ToWire(e), key);
            && (v.Accepted? <==> IsNext(cfg, c, e, key))
            && c'.entries == (if v.Accepted? then c.entries + [e] else c.entries)
            && (v.Rejected? ==> c' == c)
  {
    EveryRunIsTrusted(cfg, calls);
    hide Run, Trusted, JudgePayload, IsNext, ValidateShape;
    JudgeCommitsIff(cfg, Run(cfg, calls), e, key);
  }

  lemma JudgeCommitsIff(cfg: Config, c: Chain, e: Entry, key: PublicKey)
    requires Trusted(cfg, c)
    ensures Judge(cfg, c, ToWire(e), key).Commit? <==> IsNext(cfg, c, e, key)
    ensures Judge(cfg, c, ToWire(e), key).Commit? ==> Judge(cfg, c, ToWire(e), key).entry == e
  {
    hide Encode, LinkOk, AuthorizedAfter, WithinSize;
    assert GoodShape(e) <==> ValidateShape(ToWire(e)) == Some(e);
    assert !GoodShape(e) ==> ValidateShape(ToWire(e)) == None;
    hide ValidateShape, GoodShape;
    if SignedBy(cfg, e, key) && GoodShape(e) {
      ComposedEntryJudged(cfg, c, e, key);
      PayloadCommits(cfg, c, e, key);
    } else if GoodShape(e) {
      UnsignedIsRefused(cfg, c, e, key);
    }
  }

  lemma UnsignedIsRefused(cfg: Config, c: Chain, e: Entry, key: PublicKey)
    requires !SignedBy(cfg, e, key)
    ensures cfg.serializeKey(key) == Some(e.signerKeyId) ==> JudgePayload(cfg, c, e, key).Refuse?
  {
    hide Encode;
  }

  lemma PayloadCommits(cfg: Config, c: Chain, e: Entry, key: PublicKey)
    ensures JudgePayload(cfg, c, e, key).Commit? ==> JudgePayload(cfg, c, e, key).entry == e
  {
    hide Encode;
  }

  /** The gates an entry passes after the check of its shape, in their order. */
  datatype Gate =
    | SignerKeySerializes | SignerKeyDeclared | SequenceFollows | ParentIsHead | ChangeFits | PayloadHashes
    | SignatureVerifies | AuthorizationDecides | SignerAuthorized | ChangeApplies

  function Rank(g: Gate): nat {
    match g
    case SignerKeySerializes => 0
    case SignerKeyDeclared => 1
    case SequenceFollows => 2
    case ParentIsHead => 3
    case ChangeFits => 4
    case PayloadHashes => 5
    case SignatureVerifies => 6
    case AuthorizationDecides => 7
    case SignerAuthorized => 8
    case ChangeApplies => 9
  }

  function ReasonOf(g: Gate): Reason {
    match g
    case SignerKeyDeclared => UnknownSignerKey
    case SequenceFollows => SequenceOutOfOrder
    case ParentIsHead => ParentHashMismatch
    case SignatureVerifies => BadSignature
    case SignerAuthorized => UnauthorizedSigner
    case _ => MalformedEntry
  }

  /** The authorization check of the entry after `before` gives an answer: it is reached, and no genesis
      key before the signer's fails to serialize. */
  ghost predicate Decides(cfg: Config, before: seq<Entry>, k: PublicKey) {
    StateAfter(cfg, before).Some? &&
    if before == [] then
      IsFounder(cfg, k) ||
      forall i :: 0 <= i < |cfg.genesisKeys| ==> cfg.serializeKey(cfg.genesisKeys[i]).Some?
    else cfg.isWriter(StateAfter(cfg, before).value, k).Some?
  }

  ghost predicate Passes(cfg: Config, c: Chain, e: Entry, key: PublicKey, g: Gate) {
    match g
    case SignerKeySerializes => cfg.serializeKey(key).Some?
    case SignerKeyDeclared => cfg.serializeKey(key) == Some(e.signerKeyId)
    case SequenceFollows => e.sequenceNumber == |c.entries|
    case ParentIsHead => e.parentHash == HeadHash(c)
    case ChangeFits => cfg.serializeChange(e.change).Some? && WithinSize(cfg, e)
    case PayloadHashes => SignedBytes(cfg, e).Some? && cfg.digest(SignedBytes(cfg, e).value).Some?
    case SignatureVerifies => SignedBy(cfg, e, key)
    case AuthorizationDecides => Decides(cfg, c.entries, key)
    case SignerAuthorized => AuthorizedAfter(cfg, c.entries, key)
    case ChangeApplies =>
      StateAfter(cfg, c.entries).Some? && cfg.applyChange(StateAfter(cfg, c.entries).value, e.change).Some?
  }

  /** The entry passes every gate before `g`, and not `g`. */
  ghost predicate FailsFirst(cfg: Config, c: Chain, e: Entry, key: PublicKey, g: Gate) {
    !Passes(cfg, c, e, key, g) && forall h :: Rank(h) < Rank(g) ==> Passes(cfg, c, e, key, h)
  }

  ghost function FirstFailure(cfg: Config, c: Chain, e: Entry, key: PublicKey): Option<Gate> {
    if !Passes(cfg, c, e, key, SignerKeySerializes) then Some(SignerKeySerializes)
    else if !Passes(cfg, c, e, key, SignerKeyDeclared) then Some(SignerKeyDeclared)
    else if !Passes(cfg, c, e, key, SequenceFollows) then Some(SequenceFollows)
    else if !Passes(cfg, c, e, key, ParentIsHead) then Some(ParentIsHead)
    else PayloadFailure(cfg, c, e, key)
  }

  ghost function PayloadFailure(cfg: Config, c: Chain, e: Entry, key: PublicKey): Option<Gate> {
    if !Passes(cfg, c, e, key, ChangeFits) then Some(ChangeFits)
    else if !Passes(cfg, c, e, key, PayloadHashes) then Some(PayloadHashes)
    else if !Passes(cfg, c, e, key, SignatureVerifies) then Some(SignatureVerifies)
    else if !Passes(cfg, c, e, key, AuthorizationDecides) then Some(AuthorizationDecides)
    else if !Passes(cfg, c, e, key, SignerAuthorized) then Some(SignerAuthorized)
    else if !Passes(cfg, c, e, key, ChangeApplies) then Some(ChangeApplies)
    else None
  }

  lemma FirstFailureFailsFirst(cfg: Config, c: Chain, e: Entry, key: PublicKey, g: Gate)
    ensures FailsFirst(cfg, c, e, key, g) <==> FirstFailure(cfg, c, e, key) == Some(g)
  {
    hide Passes;
    if FirstFailure(cfg, c, e, key) == Some(g) {
      forall h | Rank(h) < Rank(g) ensures Passes(cfg, c, e, key, h) {
        match h { case _ => }
      }
    } else if FirstFailure(cfg, c, e, key).Some? {
      var f := FirstFailure(cfg, c, e, key).value;
      assert Rank(f) < Rank(g) || Rank(g) < Rank(f);
    }
  }

  /** What the check of authorization answers, in terms of the entries so far. */
  lemma DecidesIff(cfg: Config, es: seq<Entry>, prior: AclState, k: PublicKey)
    requires StateAfter(cfg, es) == Some(prior) && cfg.serializeKey(k).Some?
    ensures Authorized(cfg, |es|, prior, k).Some? <==> Decides(cfg, es, k)
  {
    if es == [] {
      var b := cfg.serializeKey(k).value;
      BootstrapFound(cfg, b, cfg.genesisKeys);
      if InBootstrapSet(cfg, b, cfg.genesisKeys).None? {
        var i :| 0 <= i < |cfg.genesisKeys| && cfg.serializeKey(cfg.genesisKeys[i]).None?;
        assert !IsFounder(cfg, k);
      } else if InBootstrapSet(cfg, b, cfg.genesisKeys).value {
        assert InBootstrapSet(cfg, b, cfg.genesisKeys) == Some(true);
      }
    }
  }

  /** The last gates: signature, authorization, application. */
  lemma SignedGates(cfg: Config, c: Chain, e: Entry, key: PublicKey)
    requires Trusted(cfg, c) && cfg.serializeKey(key) == Some(e.signerKeyId)
    requires Passes(cfg, c, e, key, ChangeFits) && Passes(cfg, c, e, key, PayloadHashes)
    ensures var payload := SignedBytes(cfg, e).value;
            var j := JudgeSigned(cfg, c, e, key, payload, cfg.digest(payload).value);
            var failure := PayloadFailure(cfg, c, e, key);
            if failure.None? then j.Commit? else j == Refuse(ReasonOf(failure.value))
  {
    hide Encode, LinkOk, Authorized, AuthorizedAfter, Decides, WithinSize;
    if StateAfter(cfg, c.entries).Some? {
      AuthorizedIff(cfg, c.entries, StateAfter(cfg, c.entries).value, key);
      DecidesIff(cfg, c.entries, StateAfter(cfg, c.entries).value, key);
    } else {
      NoStateDecidesNothing(cfg, c.entries, key);
    }
  }

  lemma NoStateDecidesNothing(cfg: Config, es: seq<Entry>, k: PublicKey)
    requires StateAfter(cfg, es).None?
    ensures !Decides(cfg, es, k)
  {
  }

  lemma PayloadGates(cfg: Config, c: Chain, e: Entry, key: PublicKey)
    requires Trusted(cfg, c) && GoodShape(e) && cfg.serializeKey(key) == Some(e.signerKeyId)
    ensures var j, failure := JudgePayload(cfg, c, e, key), PayloadFailure(cfg, c, e, key);
            if failure.None? then j.Commit? else j == Refuse(ReasonOf(failure.value))
  {
    hide Encode, Trusted, Authorized, AuthorizedAfter, Decides, JudgeSigned, SignedBy, StateAfter;
    if Passes(cfg, c, e, key, ChangeFits) {
      PayloadFits(cfg, e, cfg.serializeChange(e.change).value);
      if Passes(cfg, c, e, key, PayloadHashes) { SignedGates(cfg, c, e, key); }
    }
  }

  /** On the chain of any run: an entry of a bad shape is refused as malformed; one of a good shape is
      refused with the reason of the first gate that it does not pass, and accepted if there is none. */
  lemma RefusalNamesTheFailure(cfg: Config, calls: seq<Call>, w: WireEntry, key: PublicKey)
    ensures var c := Run(cfg, calls);
            var v := Ingest(cfg, c, w, key).1;
            && (v.Rejected? ==> v.index == |c.entries|)
            && (ValidateShape(w).None? ==> v.Rejected? && v.reason == MalformedEntry)
            && (ValidateShape(w).Some? ==>
                  var e := ValidateShape(w).value;
                  && (forall g :: FailsFirst(cfg, c, e, key, g) ==> v.Rejected? && v.reason == ReasonOf(g))
                  && (v.Rejected? ==> exists g :: FailsFirst(cfg, c, e, key, g)))
  {
    hide Run, Trusted, ValidateShape, FailsFirst, JudgePayload, PayloadFailure;
    EveryRunIsTrusted(cfg, calls);
    if ValidateShape(w).Some? {
      var c, e := Run(cfg, calls), ValidateShape(w).value;
      forall g ensures FailsFirst(cfg, c, e, key, g) <==> FirstFailure(cfg, c, e, key) == Some(g) {
        FirstFailureFailsFirst(cfg, c, e, key, g);
      }
      if cfg.serializeKey(key) == Some(e.signerKeyId) { PayloadGates(cfg, c, e, key); }
      if FirstFailure(cfg, c, e, key).Some? {
        assert FailsFirst(cfg, c, e, key, FirstFailure(cfg, c, e, key).value);
      }
    }
  }

  // ----- authoring

  ghost predicate SignaturesVerify(cfg: Config, pub: PublicKey, priv: PrivateKey) {
    forall m :: cfg.sign(m, priv).Some? ==> cfg.verify(m, pub, cfg.sign(m, priv).value) == Some(true)
  }

  /** The entry that an author signs on a chain: next in number, linked to the head, with the timestamp and
      change given, the key's octets, and the signature of the canonical payload of just that. */
  ghost predicate IsAuthored(
    cfg: Config, c: Chain, change: Change, pub: PublicKey, priv: PrivateKey, t: WireNumber, e: Entry)
    requires |c.entries| == |c.hashes|
  {
    && e.sequenceNumber == |c.entries|
    && t == Whole(e.timestamp)
    && e.parentHash == (if c.entries == [] then None else Some(c.hashes[|c.hashes| - 1]))
    && e.change == change
    && cfg.serializeKey(pub) == Some(e.signerKeyId)
    && cfg.serializeChange(change).Some?
    && var changeBytes := cfg.serializeChange(change).value;
       var payload := Payload(e.sequenceNumber, e.timestamp, e.parentHash, e.signerKeyId, changeBytes);
       cfg.sign(Encode(payload), priv) == Some(e.signature)
  }

  /** What else it takes for an authored entry to be accepted. */
  ghost predicate MayAuthor(cfg: Config, c: Chain, e: Entry, pub: PublicKey) {
    && GoodShape(e)
    && WithinSize(cfg, e)
    && SignedBytes(cfg, e).Some? && cfg.digest(SignedBytes(cfg, e).value).Some?
    && AuthorizedAfter(cfg, c.entries, pub)
    && StateAfter(cfg, c.entries).Some?
    && cfg.applyChange(StateAfter(cfg, c.entries).value, e.change).Some?
  }

  /** On the chain of any run: authoring returns an entry exactly if it is the one to be signed and it is
      next in every respect, and then the chain grows by just that entry; otherwise nothing changes. With a
      key pair whose signatures verify, shape, size, hash, authorization and application decide. */
  lemma AuthorSucceedsIff(
    cfg: Config, calls: seq<Call>, change: Change, pub: PublicKey, priv: PrivateKey, t: WireNumber)
    ensures var c := Run(cfg, calls);
            var (c', r) := Author(cfg, c, change, pub, priv, t);
            && |c.entries| == |c.hashes|
            && (forall e :: r == Some(ToWire(e)) <==>
                  IsAuthored(cfg, c, change, pub, priv, t, e) && IsNext(cfg, c, e, pub))
            && (forall e :: r == Some(ToWire(e)) ==> c'.entries == c.entries + [e])
            && (r.Some? ==> exists e :: r == Some(ToWire(e)))
            && (r.None? ==> c' == c)
            && (SignaturesVerify(cfg, pub, priv) ==>
                  forall e :: IsAuthored(cfg, c, change, pub, priv, t, e) ==>
                    (r == Some(ToWire(e)) <==> MayAuthor(cfg, c, e, pub)))
  {
    hide Run, Trusted, Author, IsAuthored, IsNext, MayAuthor, SignaturesVerify, ToWire;
    EveryRunIsTrusted(cfg, calls);
    var c := Run(cfg, calls);
    AsManyHashes(cfg, c);
    AuthorReturns(cfg, c, change, pub, priv, t);
    forall e
      ensures var (c', r) := Author(cfg, c, change, pub, priv, t);
              && (r == Some(ToWire(e)) <==> IsAuthored(cfg, c, change, pub, priv, t, e) && IsNext(cfg, c, e, pub))
              && (r == Some(ToWire(e)) ==> c'.entries == c.entries + [e])
    {
      AuthorsThis(cfg, c, change, pub, priv, t, e);
    }
    if SignaturesVerify(cfg, pub, priv) {
      forall e | IsAuthored(cfg, c, change, pub, priv, t, e)
        ensures IsNext(cfg, c, e, pub) <==> MayAuthor(cfg, c, e, pub)
      {
        AuthoredIsSigned(cfg, c, change, pub, priv, t, e);
      }
    }
  }

  lemma AsManyHashes(cfg: Config, c: Chain)
    requires Trusted(cfg, c)
    ensures |c.entries| == |c.hashes|
  {
  }

  lemma ComposeAuthors(
    cfg: Config, c: Chain, change: Change, pub: PublicKey, priv: PrivateKey, t: WireNumber, e: Entry)
    requires |c.entries| == |c.hashes|
    ensures Compose(cfg, c, change, pub, priv, t) == Some(ToWire(e)) <==> IsAuthored(cfg, c, change, pub, priv, t, e)
  {
    hide Encode;
  }

  lemma AuthorReturns(cfg: Config, c: Chain, change: Change, pub: PublicKey, priv: PrivateKey, t: WireNumber)
    ensures var (c', r) := Author(cfg, c, change, pub, priv, t);
            && (r.Some? ==> r == Compose(cfg, c, change, pub, priv, t) && exists e :: r == Some(ToWire(e)))
            && (r.Some? <==> Compose(cfg, c, change, pub, priv, t).Some? &&
                             Judge(cfg, c, Compose(cfg, c, change, pub, priv, t).value, pub).Commit?)
            && c' == (if r.Some? then Append(c, Judge(cfg, c, r.value, pub)) else c)
  {
    hide Compose, JudgePayload;
    var w := Compose(cfg, c, change, pub, priv, t);
    if w.Some? && Judge(cfg, c, w.value, pub).Commit? {
      assert w == Some(ToWire(ValidateShape(w.value).value));
    }
  }

  lemma AuthorsThis(
    cfg: Config, c: Chain, change: Change, pub: PublicKey, priv: PrivateKey, t: WireNumber, e: Entry)
    requires Trusted(cfg, c) && |c.entries| == |c.hashes|
    ensures var (c', r) := Author(cfg, c, change, pub, priv, t);
            && (r == Some(ToWire(e)) <==> IsAuthored(cfg, c, change, pub, priv, t, e) && IsNext(cfg, c, e, pub))
            && (r == Some(ToWire(e)) ==> c'.entries == c.entries + [e])
  {
    hide Trusted, Author, Compose, Judge, IsAuthored, IsNext, ToWire;
    ComposeAuthors(cfg, c, change, pub, priv, t, e);
    AuthorReturns(cfg, c, change, pub, priv, t);
    JudgeCommitsIff(cfg, c, e, pub);
  }

  lemma AuthoredIsSigned(
    cfg: Config, c: Chain, change: Change, pub: PublicKey, priv: PrivateKey, t: WireNumber, e: Entry)
    requires |c.entries| == |c.hashes| && SignaturesVerify(cfg, pub, priv)
    requires IsAuthored(cfg, c, change, pub, priv, t, e)
    ensures IsNext(cfg, c, e, pub) <==> MayAuthor(cfg, c, e, pub)
  {
    hide Encode, WithinSize, AuthorizedAfter;
  }

  /** For an entry that `pub` signed for this chain, the verdict is decided by size, hash,
      authorization and application alone. */
  lemma ComposedEntryJudged(cfg: Config, c: Chain, e: Entry, pub: PublicKey)
    requires Trusted(cfg, c) && GoodShape(e) && SignedBy(cfg, e, pub)
    ensures JudgePayload(cfg, c, e, pub).Commit? <==>
              && WithinSize(cfg, e)
              && cfg.digest(SignedBytes(cfg, e).value).Some?
              && AuthorizedAfter(cfg, c.entries, pub)
              && StateAfter(cfg, c.entries).Some?
              && cfg.applyChange(StateAfter(cfg, c.entries).value, e.change).Some?
  {
    hide Encode, LinkOk, Authorized, AuthorizedAfter;
    if WithinSize(cfg, e) {
      PayloadFits(cfg, e, cfg.serializeChange(e.change).value);
    }
    if StateAfter(cfg, c.entries).Some? {
      AuthorizedIff(cfg, c.entries, StateAfter(cfg, c.entries).value, pub);
    }
  }

  lemma AuthorizedIff(cfg: Config, es: seq<Entry>, prior: AclState, k: PublicKey)
    requires StateAfter(cfg, es) == Some(prior) && cfg.serializeKey(k).Some?
    ensures Authorized(cfg, |es|, prior, k) == Some(true) <==> AuthorizedAfter(cfg, es, k)
  {
    if es == [] { BootstrapFound(cfg, cfg.serializeKey(k).value, cfg.genesisKeys); }
  }
}
