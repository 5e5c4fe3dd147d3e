/**
 The load loop over the agreeing cohort (`load()` in collabswarm-document.ts): each peer is tried by
 snapshot-load and then by doc-load, unless it served something else than it voted for.
 */
module LoadCohort {
  import opened Collections

  type PeerId(==, !new)

  /** How one attempt ends. `BindFailed` carries the hash of what was served instead. */
  datatype Outcome = Loaded | Empty | BindFailed(hash: string) | OtherError

  datatype Protocol = SnapshotLoad | DocumentLoad

  datatype Attempt = Attempt(peer: PeerId, protocol: Protocol)

  datatype LoadResult = ReturnsTrue | ReturnsFalse | ThrowsAllBindFailed | ThrowsUnreachable

  /** What each peer would answer. */
  datatype Network = Network(compactionEnabled: bool, snapshotLoad: PeerId -> Outcome, documentLoad: PeerId -> Outcome)

  function OutcomeOf(net: Network, a: Attempt): Outcome {
    if a.protocol == SnapshotLoad then net.snapshotLoad(a.peer) else net.documentLoad(a.peer)
  }

  predicate SnapshotBindFails(net: Network, p: PeerId) {
    net.compactionEnabled && net.snapshotLoad(p).BindFailed?
  }

  /** Some attempt on the peer would load the document. */
  predicate Serves(net: Network, p: PeerId) {
    (net.compactionEnabled && net.snapshotLoad(p).Loaded?) ||
        (!SnapshotBindFails(net, p) && net.documentLoad(p).Loaded?)
  }

  /** The peer is caught serving something else, before it loads anything. */
  predicate Equivocates(net: Network, p: PeerId) {
    SnapshotBindFails(net, p) || (!Serves(net, p) && net.documentLoad(p).BindFailed?)
  }

  /** The hash of what an equivocating peer served. */
  function ServedHash(net: Network, p: PeerId): string
    requires Equivocates(net, p)
  {
    if SnapshotBindFails(net, p) then net.snapshotLoad(p).hash else net.documentLoad(p).hash
  }

  /** The peers up to the first that serves. */
  function Reached(net: Network, peers: seq<PeerId>): seq<PeerId> {
    if peers == [] then []
    else [peers[0]] + if Serves(net, peers[0]) then [] else Reached(net, peers[1..])
  }

  /** What is attempted on one peer: a doc-load follows a snapshot-load that neither loaded nor failed
      the bind check. */
  function TriesOn(net: Network, p: PeerId): seq<Attempt> {
    if !net.compactionEnabled then [Attempt(p, DocumentLoad)]
    else if net.snapshotLoad(p).Loaded? || net.snapshotLoad(p).BindFailed? then [Attempt(p, SnapshotLoad)]
    else [Attempt(p, SnapshotLoad), Attempt(p, DocumentLoad)]
  }

  function Tries(net: Network, peers: seq<PeerId>): seq<Attempt> {
    if peers == [] then [] else TriesOn(net, peers[0]) + Tries(net, peers[1..])
  }

  // ----- what the attempts amount to

  lemma {:induction false} TriesConcat(net: Network, a: seq<PeerId>, b: seq<PeerId>)
    ensures Tries(net, a + b) == Tries(net, a) + Tries(net, b)
    decreases a
  {
    if a == [] {
      assert a + b == b;
    } else {
      TriesConcat(net, a[1..], b);
      assert (a + b)[1..] == a[1..] + b;
    }
  }

  lemma {:induction false} TriesContain(net: Network, peers: seq<PeerId>, a: Attempt)
    ensures a in Tries(net, peers) <==> a.peer in peers && a in TriesOn(net, a.peer)
  {
    if peers != [] {
      TriesContain(net, peers[1..], a);
      assert peers == [peers[0]] + peers[1..];
      assert a in TriesOn(net, peers[0]) ==> a.peer == peers[0];
    }
  }

  /** Distinct peers are each tried at most once per protocol. */
  lemma {:induction false} EachTriedOnce(net: Network, peers: seq<PeerId>)
    requires Distinct(peers)
    ensures Distinct(Tries(net, peers))
  {
    if peers != [] {
      var first, rest := TriesOn(net, peers[0]), Tries(net, peers[1..]);
      EachTriedOnce(net, peers[1..]);
      forall i, j | 0 <= i < |first| && 0 <= j < |rest| ensures first[i] != rest[j] {
        TriesContain(net, peers[1..], rest[j]);
        assert peers[0] !in peers[1..];
      }
      DistinctConcat(first, rest);
    }
  }

  lemma DistinctConcat(a: seq<Attempt>, b: seq<Attempt>)
    requires Distinct(a) && Distinct(b) && forall i, j :: 0 <= i < |a| && 0 <= j < |b| ==> a[i] != b[j]
    ensures Distinct(a + b)
  {
  }

  lemma {:induction false} ReachedIsPrefix(net: Network, peers: seq<PeerId>)
    ensures Reached(net, peers) <= peers
    ensures Reached(net, peers) == peers || exists i :: 0 <= i < |peers| && Serves(net, peers[i])
  {
    if peers != [] && !Serves(net, peers[0]) {
      ReachedIsPrefix(net, peers[1..]);
      assert peers == [peers[0]] + peers[1..];
      if i :| 0 <= i < |peers[1..]| && Serves(net, peers[1..][i]) { assert Serves(net, peers[i + 1]); }
    }
  }

  /** No attempt but the last loads the document, and the last one does exactly if some peer serves. */
  ghost predicate StopsAtSuccess(net: Network, peers: seq<PeerId>, attempts: seq<Attempt>) {
    && (forall i :: 0 <= i < |attempts| - 1 ==> !OutcomeOf(net, attempts[i]).Loaded?)
    && ((attempts != [] && OutcomeOf(net, attempts[|attempts| - 1]).Loaded?) <==>
        exists i :: 0 <= i < |peers| && Serves(net, peers[i]))
  }

  lemma {:induction false} TriesStopAtSuccess(net: Network, peers: seq<PeerId>)
    ensures StopsAtSuccess(net, peers, Tries(net, Reached(net, peers)))
  {
    if peers != [] {
      var first := TriesOn(net, peers[0]);
      if Serves(net, peers[0]) {
        assert Reached(net, peers)[1..] == [];
        assert Tries(net, Reached(net, peers)) == first;
      } else {
        TriesStopAtSuccess(net, peers[1..]);
        var rest := Tries(net, Reached(net, peers[1..]));
        assert Reached(net, peers)[1..] == Reached(net, peers[1..]);
        assert forall i :: 0 <= i < |first| ==> !OutcomeOf(net, first[i]).Loaded?;
        assert forall i :: 1 <= i < |peers| ==> peers[i] == peers[1..][i - 1];
        assert forall i :: 0 <= i < |peers[1..]| ==> peers[1..][i] == peers[i + 1];
      }
    }
  }

  /** How often each attempt is made, over the peers of distinct ids. */
  lemma AttemptsAreFew(net: Network, peers: seq<PeerId>, a: Attempt)
    requires Distinct(peers)
    ensures multiset(Tries(net, Reached(net, peers)))[a] ==
            if a.peer in Reached(net, peers) && a in TriesOn(net, a.peer) then 1 else 0
  {
    ReachedIsPrefix(net, peers);
    EachTriedOnce(net, Reached(net, peers));
    TriesContain(net, Reached(net, peers), a);
    OccursOnce(Tries(net, Reached(net, peers)), a);
  }

  lemma {:induction false} OccursOnce(s: seq<Attempt>, a: Attempt)
    requires Distinct(s)
    ensures multiset(s)[a] == if a in s then 1 else 0
  {
    if s != [] {
      OccursOnce(s[1..], a);
      assert s == [s[0]] + s[1..];
      assert s[0] !in s[1..];
    }
  }

  /** A peer serves if one of the attempts on it loads, it equivocates if one of them fails the bind check, and
      the hash recorded is that of what it served then. */
  lemma AttemptsDecide(net: Network, p: PeerId)
    ensures Serves(net, p) <==> exists a :: a in TriesOn(net, p) && OutcomeOf(net, a).Loaded?
    ensures Equivocates(net, p) <==> exists a :: a in TriesOn(net, p) && OutcomeOf(net, a).BindFailed?
    ensures Equivocates(net, p) ==> forall a :: a in TriesOn(net, p) && OutcomeOf(net, a).BindFailed? ==>
                                      ServedHash(net, p) == OutcomeOf(net, a).hash
    ensures Attempt(p, SnapshotLoad) in TriesOn(net, p) <==> net.compactionEnabled
    ensures Attempt(p, DocumentLoad) in TriesOn(net, p) <==>
            net.compactionEnabled ==> net.snapshotLoad(p).Empty? || net.snapshotLoad(p).OtherError?
  {
    var s, d := Attempt(p, SnapshotLoad), Attempt(p, DocumentLoad);
    assert OutcomeOf(net, s) == net.snapshotLoad(p) && OutcomeOf(net, d) == net.documentLoad(p);
    assert s in TriesOn(net, p) <==> net.compactionEnabled;
    assert d in TriesOn(net, p) || Serves(net, p) || Equivocates(net, p);
  }

  // ----- the loop

  /** What the failure map holds after the first `i` peers, none of which serves. */
  ghost predicate FailuresOk(net: Network, peers: seq<PeerId>, i: nat, failures: map<PeerId, string>)
    requires i <= |peers|
  {
    && (forall p :: p in failures <==> p in peers[..i] && Equivocates(net, p))
    && (forall p :: p in failures ==> failures[p] == ServedHash(net, p))
    && |failures| <= i
    && (|failures| == i <==> Distinct(peers[..i]) && forall j :: 0 <= j < i ==> Equivocates(net, peers[j]))
  }

  lemma FailureRecorded(net: Network, peers: seq<PeerId>, i: nat, failures: map<PeerId, string>)
    requires i < |peers| && FailuresOk(net, peers, i, failures) && Equivocates(net, peers[i])
    ensures FailuresOk(net, peers, i + 1, failures[peers[i] := ServedHash(net, peers[i])])
  {
    hide Equivocates, Distinct, ServedHash;
    var p, hash := peers[i], ServedHash(net, peers[i]);
    var next := failures[p := hash];
    assert peers[..i + 1] == peers[..i] + [p];
    DistinctSnoc(peers[..i], p);
    SizeAfterUpdate(failures, p, hash);
    if |next| == i + 1 {
      assert p !in failures && |failures| == i;
    }
  }

  lemma SizeAfterUpdate(failures: map<PeerId, string>, p: PeerId, hash: string)
    ensures |failures[p := hash]| == |failures| + (if p in failures then 0 else 1)
  {
    assert failures[p := hash].Keys == failures.Keys + {p};
  }

  lemma NothingRecorded(net: Network, peers: seq<PeerId>, i: nat, failures: map<PeerId, string>)
    requires i < |peers| && FailuresOk(net, peers, i, failures) && !Equivocates(net, peers[i])
    ensures FailuresOk(net, peers, i + 1, failures)
  {
    hide Equivocates, ServedHash;
    assert peers[..i + 1] == peers[..i] + [peers[i]];
  }

  /** The loop and the decision after it; without a quorum there is no winning hash. The attempts are
      those on the peers up to the first that serves, in order. */
  method Load(net: Network, peers: seq<PeerId>, quorum: bool)
    returns (r: LoadResult, bindFailures: map<PeerId, string>, attempts: seq<Attempt>)
    ensures quorum ==> r != ReturnsFalse
    ensures r == ReturnsTrue <==> exists i :: 0 <= i < |peers| && Serves(net, peers[i])
    ensures r == ThrowsAllBindFailed <==>
              quorum && peers != [] && Distinct(peers) && forall i :: 0 <= i < |peers| ==> Equivocates(net, peers[i])
    ensures forall p :: p in bindFailures <==> p in Reached(net, peers) && Equivocates(net, p)
    ensures forall p :: p in bindFailures ==> bindFailures[p] == ServedHash(net, p)
    ensures attempts == Tries(net, Reached(net, peers))
    ensures StopsAtSuccess(net, peers, attempts)
    ensures forall p :: SnapshotBindFails(net, p) ==> Attempt(p, DocumentLoad) !in attempts
    ensures r != ReturnsTrue ==> forall p :: p in peers && !SnapshotBindFails(net, p) ==>
      Attempt(p, DocumentLoad) in attempts
    ensures Distinct(peers) ==> Distinct(attempts)
  {
    hide FailuresOk, Distinct, ServedHash, Tries, Reached, StopsAtSuccess;
    bindFailures, attempts := map[], [];
    NothingYet(net, peers);
    Summary(net, peers);
    var cohort := |peers|;
    for i := 0 to |peers|
      invariant forall j :: 0 <= j < i ==> !Serves(net, peers[j])
      invariant FailuresOk(net, peers, i, bindFailures)
      invariant attempts == Tries(net, peers[..i])
    {
      var peer := peers[i];
      ghost var earlier := attempts;
      Proceeds(net, peers, i);
      if net.compactionEnabled {
        attempts := attempts + [Attempt(peer, SnapshotLoad)];
        var outcome := net.snapshotLoad(peer);
        if outcome.Loaded? {
          Stops(net, peers, i, bindFailures);
          return ReturnsTrue, bindFailures, attempts;
        }
        if outcome.BindFailed? {
          FailureRecorded(net, peers, i, bindFailures);
          assert ServedHash(net, peer) == outcome.hash by { SnapshotHash(net, peer); }
          bindFailures := bindFailures[peer := outcome.hash];
          continue;
        }
      }
      attempts := attempts + [Attempt(peer, DocumentLoad)];
      assert attempts == earlier + TriesOn(net, peer);
      var outcome := net.documentLoad(peer);
      if outcome.Loaded? {
        Stops(net, peers, i, bindFailures);
        return ReturnsTrue, bindFailures, attempts;
      }
      if outcome.BindFailed? {
        FailureRecorded(net, peers, i, bindFailures);
        assert ServedHash(net, peer) == outcome.hash by { DocumentHash(net, peer); }
        bindFailures := bindFailures[peer := outcome.hash];
      } else {
        NothingRecorded(net, peers, i, bindFailures);
      }
    }
    Afterwards(net, peers, bindFailures);
    if quorum {
      r := if cohort > 0 && |bindFailures| == cohort then ThrowsAllBindFailed else ThrowsUnreachable;
    } else {
      r := ReturnsFalse;
    }
  }

  lemma NothingYet(net: Network, peers: seq<PeerId>)
    ensures FailuresOk(net, peers, 0, map[]) && Tries(net, peers[..0]) == []
  {
  }

  lemma SnapshotHash(net: Network, p: PeerId)
    requires SnapshotBindFails(net, p)
    ensures ServedHash(net, p) == net.snapshotLoad(p).hash
  {
  }

  lemma DocumentHash(net: Network, p: PeerId)
    requires Equivocates(net, p) && !SnapshotBindFails(net, p)
    ensures ServedHash(net, p) == net.documentLoad(p).hash
  {
  }

  lemma Proceeds(net: Network, peers: seq<PeerId>, i: nat)
    requires i < |peers|
    ensures Tries(net, peers[..i + 1]) == Tries(net, peers[..i]) + TriesOn(net, peers[i])
  {
    assert peers[..i + 1] == peers[..i] + [peers[i]];
    TriesConcat(net, peers[..i], [peers[i]]);
    assert [peers[i]][1..] == [] && Tries(net, [peers[i]]) == TriesOn(net, peers[i]) + Tries(net, [peers[i]][1..]);
  }

  lemma {:induction false} ReachedTo(net: Network, peers: seq<PeerId>, i: nat)
    requires i < |peers| && Serves(net, peers[i]) && forall j :: 0 <= j < i ==> !Serves(net, peers[j])
    ensures Reached(net, peers) == peers[..i + 1]
  {
    if i > 0 {
      ReachedTo(net, peers[1..], i - 1);
      assert peers[..i + 1] == [peers[0]] + peers[1..][..i];
    } else {
      assert peers[..1] == [peers[0]];
    }
  }

  /** At the first peer that serves, what has been tried and recorded is complete. */
  lemma Stops(net: Network, peers: seq<PeerId>, i: nat, failures: map<PeerId, string>)
    requires i < |peers| && Serves(net, peers[i]) && FailuresOk(net, peers, i, failures)
    requires forall j :: 0 <= j < i ==> !Serves(net, peers[j])
    ensures Reached(net, peers) == peers[..i + 1]
    ensures exists j :: 0 <= j < |peers| && Serves(net, peers[j])
    ensures forall p :: p in failures <==> p in Reached(net, peers) && Equivocates(net, p)
    ensures forall p :: p in failures ==> failures[p] == ServedHash(net, p)
    ensures !Equivocates(net, peers[i])
  {
    ReachedTo(net, peers, i);
    assert peers[..i + 1] == peers[..i] + [peers[i]];
  }

  lemma Afterwards(net: Network, peers: seq<PeerId>, failures: map<PeerId, string>)
    requires FailuresOk(net, peers, |peers|, failures) && forall j :: 0 <= j < |peers| ==> !Serves(net, peers[j])
    ensures Reached(net, peers) == peers == peers[..|peers|]
    ensures forall p :: p in failures <==> p in peers && Equivocates(net, p)
    ensures forall p :: p in failures ==> failures[p] == ServedHash(net, p)
    ensures |failures| == |peers| <==> Distinct(peers) && forall j :: 0 <= j < |peers| ==> Equivocates(net, peers[j])
  {
    hide Equivocates, ServedHash;
    assert peers[..|peers|] == peers;
    ReachedIsPrefix(net, peers);
  }

  lemma Summary(net: Network, peers: seq<PeerId>)
    ensures var attempts := Tries(net, Reached(net, peers));
            && StopsAtSuccess(net, peers, attempts)
            && (Distinct(peers) ==> Distinct(attempts))
            && (forall p :: SnapshotBindFails(net, p) ==> Attempt(p, DocumentLoad) !in attempts)
            && (Reached(net, peers) == peers && (forall i :: 0 <= i < |peers| ==> !Serves(net, peers[i])) ==>
                forall p :: p in peers && !SnapshotBindFails(net, p) ==> Attempt(p, DocumentLoad) in attempts)
  {
    hide Reached, StopsAtSuccess;
    var reached := Reached(net, peers);
    TriesStopAtSuccess(net, peers);
    ReachedIsPrefix(net, peers);
    if Distinct(peers) { EachTriedOnce(net, reached); }
    forall p ensures Attempt(p, DocumentLoad) in Tries(net, reached) <==>
                     p in reached && Attempt(p, DocumentLoad) in TriesOn(net, p) {
      TriesContain(net, reached, Attempt(p, DocumentLoad));
    }
  }
}
