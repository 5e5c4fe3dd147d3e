/**
 Adopting snapshots (the snapshot parts of `sync` and `snapshot` in collabswarm-document.ts).

 Both operations await a signature between reading the fields and writing them, so the steps before
 and after the await are modelled apart; a call that nothing overlaps is one step after the other.
 */
module Snapshots {
  import opened Collections
  import opened JsValue

  type Blob(!new)

  datatype Snapshot = Snapshot(compactedCount: nat, lastChangeNodeCID: Text, state: Blob)

  // ----- the order on snapshots

  /** The test of `sync`: more compacted changes, or as many and a greater boundary CID. */
  predicate Newer(s: Snapshot, t: Snapshot) {
    s.compactedCount > t.compactedCount ||
    (s.compactedCount == t.compactedCount && TextLess(t.lastChangeNodeCID, s.lastChangeNodeCID))
  }

  /** The key of `s` is at most that of `t`: by count, then by the code units of the boundary CID. */
  ghost predicate KeyAtMost(s: Snapshot, t: Snapshot) {
    s.compactedCount < t.compactedCount ||
    (s.compactedCount == t.compactedCount &&
     (s.lastChangeNodeCID == t.lastChangeNodeCID || Before(s.lastChangeNodeCID, t.lastChangeNodeCID)))
  }

  lemma NotNewerIff(s: Snapshot, t: Snapshot)
    ensures !Newer(s, t) <==> KeyAtMost(s, t)
  {
    hide Before, TextLess;
    TextTrichotomy(s.lastChangeNodeCID, t.lastChangeNodeCID);
    TextLessIff(s.lastChangeNodeCID, t.lastChangeNodeCID);
    TextLessIff(t.lastChangeNodeCID, s.lastChangeNodeCID);
  }

  predicate SameKey(s: Snapshot, t: Snapshot) {
    s.compactedCount == t.compactedCount && s.lastChangeNodeCID == t.lastChangeNodeCID
  }

  lemma NewerIsTotal(s: Snapshot, t: Snapshot)
    ensures Newer(s, t) || Newer(t, s) || SameKey(s, t)
    ensures !(Newer(s, t) && Newer(t, s)) && !(SameKey(s, t) && Newer(s, t))
  {
    TextTrichotomy(s.lastChangeNodeCID, t.lastChangeNodeCID);
  }

  lemma NewerIsTransitive(s: Snapshot, t: Snapshot, u: Snapshot)
    requires !Newer(s, t) && !Newer(t, u)
    ensures !Newer(s, u)
  {
    NewerIsTotal(s, t);
    NewerIsTotal(t, u);
    NewerIsTotal(s, u);
    if Newer(s, u) && s.compactedCount == u.compactedCount {
      var a, b, c := s.lastChangeNodeCID, t.lastChangeNodeCID, u.lastChangeNodeCID;
      if TextLess(c, a) && TextLess(a, b) { TextLessTransitive(c, a, b); }
    }
  }

  // ----- one message at a time

  function Adopt(latest: Option<Snapshot>, incoming: Snapshot): Option<Snapshot> {
    if latest.None? || Newer(incoming, latest.value) then Some(incoming) else latest
  }

  /** Delivering validly signed snapshots one after the other. */
  ghost function Deliver(latest: Option<Snapshot>, incoming: seq<Snapshot>): Option<Snapshot> {
    if incoming == [] then latest else Adopt(Deliver(latest, incoming[..|incoming| - 1]), incoming[|incoming| - 1])
  }

  lemma {:induction false} DeliverTakesMaximum(latest: Option<Snapshot>, incoming: seq<Snapshot>)
    requires latest.Some? || incoming != []
    ensures Deliver(latest, incoming).Some?
    ensures Deliver(latest, incoming).value in incoming || Deliver(latest, incoming) == latest
    ensures forall s :: s in incoming || latest == Some(s) ==> !Newer(s, Deliver(latest, incoming).value)
  {
    if incoming == [] {
      NewerIsTotal(latest.value, latest.value);
    } else {
      var before, last := incoming[..|incoming| - 1], incoming[|incoming| - 1];
      assert incoming == before + [last];
      NewerIsTotal(last, last);
      if latest.Some? || before != [] {
        DeliverTakesMaximum(latest, before);
        var best, next := Deliver(latest, before).value, Deliver(latest, incoming).value;
        NewerIsTotal(last, best);
        forall s | s in incoming || latest == Some(s) ensures !Newer(s, next) {
          if s != last { NewerIsTransitive(s, best, next); }
        }
      }
    }
  }

  /** So the document ends with one of the snapshots, the greatest by count and then by boundary CID. */
  lemma DeliverTakesGreatestKey(latest: Option<Snapshot>, incoming: seq<Snapshot>)
    requires latest.Some? || incoming != []
    ensures Deliver(latest, incoming).Some?
    ensures Deliver(latest, incoming).value in incoming || Deliver(latest, incoming) == latest
    ensures forall s :: s in incoming || latest == Some(s) ==> KeyAtMost(s, Deliver(latest, incoming).value)
  {
    hide KeyAtMost, Newer;
    DeliverTakesMaximum(latest, incoming);
    forall s | s in incoming || latest == Some(s) ensures KeyAtMost(s, Deliver(latest, incoming).value) {
      NotNewerIff(s, Deliver(latest, incoming).value);
    }
  }

  /** In whatever order and however often the same snapshots are delivered, the document ends with the
      same key, the greatest one. */
  lemma DeliveryOrderDoesNotMatter(latest: Option<Snapshot>, incoming: seq<Snapshot>, incoming': seq<Snapshot>)
    requires incoming != [] && forall s :: s in incoming <==> s in incoming'
    ensures Deliver(latest, incoming).Some? && Deliver(latest, incoming').Some?
    ensures SameKey(Deliver(latest, incoming).value, Deliver(latest, incoming').value)
  {
    assert incoming[0] in incoming';
    DeliverTakesMaximum(latest, incoming);
    DeliverTakesMaximum(latest, incoming');
    NewerIsTotal(Deliver(latest, incoming).value, Deliver(latest, incoming').value);
  }

  // ----- the fields of the document, between awaits

  /** The fields that adopting snapshots works on. */
  datatype Fields = Fields(latest: Option<Snapshot>, documentChangeCount: nat, changesSinceSnapshot: nat)

  /** `sync` after the signature check: what it found before the check is not looked at again. */
  function Applied(f: Fields, s: Snapshot): Fields {
    Fields(Some(s), if f.documentChangeCount >= s.compactedCount then f.documentChangeCount else s.compactedCount, 0)
  }

  /** `snapshot` after signing what was captured before. */
  function Taken(f: Fields, s: Snapshot): Fields {
    f.(latest := Some(s), changesSinceSnapshot := 0)
  }

  /** One document change. */
  function Counted(f: Fields): Fields {
    f.(documentChangeCount := f.documentChangeCount + 1, changesSinceSnapshot := f.changesSinceSnapshot + 1)
  }

  /** A failed commit: the counters go back, the adopted snapshot stays. */
  function Restored(f: Fields, c: Counters): Fields {
    f.(documentChangeCount := c.documentChangeCount, changesSinceSnapshot := c.changesSinceSnapshot)
  }

  datatype Counters = Counters(documentChangeCount: nat, changesSinceSnapshot: nat)

  // ----- every interleaving

  type Id = nat

  /** Calls that are waiting for a signature, with what they will write. */
  datatype Pending = Incoming(s: Snapshot) | Captured(s: Snapshot)

  /** `noted` are the counters at the entry of the running commit; commits run one at a time. */
  datatype World = World(f: Fields, pending: map<Id, Pending>, noted: Option<Counters>)

  datatype Step =
    | BeginSync(id: Id, s: Snapshot)
    | EndSync(id: Id, valid: bool)
    | BeginSnapshot(id: Id, cid: Text, state: Blob)
    | EndSnapshot(id: Id)
    | DocumentChange            // a local or remote document change has been applied
    | BeginCommit               // `endChange` notes the counters
    | EndCommit
    | FailCommit                // `endChange` restores them

  const START := World(Fields(None, 0, 0), map[], None)

  ghost predicate Enabled(w: World, step: Step) {
    match step
    case BeginSync(id, _) => id !in w.pending
    case EndSync(id, _) => id in w.pending && w.pending[id].Incoming?
    case BeginSnapshot(id, _, _) => id !in w.pending
    case EndSnapshot(id) => id in w.pending && w.pending[id].Captured?
    case DocumentChange => true
    case BeginCommit => w.noted.None?
    case EndCommit => w.noted.Some?
    case FailCommit => w.noted.Some?
  }

  ghost function Next(w: World, step: Step): World
    requires Enabled(w, step)
  {
    match step
    case BeginSync(id, s) =>
      if w.f.latest.None? || Newer(s, w.f.latest.value) then w.(pending := w.pending[id := Incoming(s)]) else w
    case EndSync(id, valid) =>
      w.(f := if valid then Applied(w.f, w.pending[id].s) else w.f, pending := w.pending - {id})
    case BeginSnapshot(id, cid, state) =>
      w.(pending := w.pending[id := Captured(Snapshot(w.f.documentChangeCount, cid, state))])
    case EndSnapshot(id) =>
      w.(f := Taken(w.f, w.pending[id].s), pending := w.pending - {id})
    case DocumentChange => w.(f := Counted(w.f))
    case BeginCommit => w.(noted := Some(Counters(w.f.documentChangeCount, w.f.changesSinceSnapshot)))
    case EndCommit => w.(noted := None)
    case FailCommit => w.(f := Restored(w.f, w.noted.value), noted := None)
  }

  ghost function LatestCount(w: World): int {
    if w.f.latest.None? then -1 else w.f.latest.value.compactedCount
  }

  /** The change count covers the adopted snapshot. */
  ghost predicate Covered(w: World) {
    LatestCount(w) <= w.f.documentChangeCount
  }

  /** The change count covers the adopted snapshot and every snapshot about to be taken. */
  ghost predicate CountCovers(w: World) {
    && Covered(w)
    && forall id :: id in w.pending && w.pending[id].Captured? ==>
        w.pending[id].s.compactedCount <= w.f.documentChangeCount
  }

  ghost predicate Execution(ws: seq<World>, steps: seq<Step>) {
    && |ws| == |steps| + 1
    && ws[0] == START
    && forall i :: 0 <= i < |steps| ==> Enabled(ws[i], steps[i]) && ws[i + 1] == Next(ws[i], steps[i])
  }

  ghost predicate NoFailedCommit(steps: seq<Step>) {
    forall i :: 0 <= i < |steps| ==> !steps[i].FailCommit?
  }

  /** In every interleaving without a failed commit the change count never falls below the adopted
      compacted count, and never decreases. */
  lemma {:induction false} CountAlwaysCovers(ws: seq<World>, steps: seq<Step>, n: nat)
    requires Execution(ws, steps) && NoFailedCommit(steps) && n < |ws|
    ensures CountCovers(ws[n])
    ensures n > 0 ==> ws[n - 1].f.documentChangeCount <= ws[n].f.documentChangeCount
  {
    if n > 0 { CountAlwaysCovers(ws, steps, n - 1); }
  }

  /** No call begins while another awaits its signature. */
  ghost predicate NonOverlapping(ws: seq<World>, steps: seq<Step>)
    requires |ws| == |steps| + 1
  {
    forall i :: 0 <= i < |steps| && (steps[i].BeginSync? || steps[i].BeginSnapshot?) ==> ws[i].pending == map[]
  }

  /** With one call at a time, what a call is about to write is at least as compacted as what is there. */
  ghost predicate PendingNotOlder(w: World) {
    && (forall id, id' :: id in w.pending && id' in w.pending ==> id == id')
    && forall id :: id in w.pending ==>
         LatestCount(w) <= w.pending[id].s.compactedCount &&
         (w.pending[id].Incoming? && w.f.latest.Some? ==> Newer(w.pending[id].s, w.f.latest.value))
  }

  lemma {:induction false} PendingNeverOlder(ws: seq<World>, steps: seq<Step>, n: nat)
    requires Execution(ws, steps) && NoFailedCommit(steps) && NonOverlapping(ws, steps) && n < |ws|
    ensures PendingNotOlder(ws[n])
  {
    if n > 0 {
      PendingNeverOlder(ws, steps, n - 1);
      CountAlwaysCovers(ws, steps, n - 1);
      assert ws[n] == Next(ws[n - 1], steps[n - 1]);
    }
  }

  /** With one call at a time, the adopted compacted count never decreases, and a remote snapshot never
      replaces a newer one. */
  lemma AdoptedCountNeverDecreases(ws: seq<World>, steps: seq<Step>, n: nat)
    requires Execution(ws, steps) && NoFailedCommit(steps) && NonOverlapping(ws, steps) && n < |steps|
    ensures LatestCount(ws[n]) <= LatestCount(ws[n + 1])
    ensures steps[n].EndSync? && steps[n].valid && ws[n].f.latest.Some? ==>
      Newer(ws[n + 1].f.latest.value, ws[n].f.latest.value)
  {
    PendingNeverOlder(ws, steps, n);
  }

  // ----- overlapping calls

  predicate IsWrite(step: Step) {
    step.EndSnapshot? || (step.EndSync? && step.valid)
  }

  /** The compacted count of the snapshot that the call ending in step `n` writes. */
  ghost function CountWritten(ws: seq<World>, steps: seq<Step>, n: nat): nat
    requires Execution(ws, steps) && n < |steps| && IsWrite(steps[n])
  {
    ws[n].pending[steps[n].id].s.compactedCount
  }

  /** The last write in the steps from `m` up to, but not including, `n`. */
  ghost predicate LastWrite(steps: seq<Step>, m: nat, n: nat, k: nat) {
    m <= k < n <= |steps| && IsWrite(steps[k]) && NoWrite(steps, k + 1, n)
  }

  ghost predicate NoWrite(steps: seq<Step>, m: nat, n: nat) {
    forall i :: m <= i < n && i < |steps| ==> !IsWrite(steps[i])
  }

  /** The snapshot in force is the one written last. */
  lemma {:induction false} LatestIsLastWritten(ws: seq<World>, steps: seq<Step>, m: nat, n: nat)
    requires Execution(ws, steps) && m <= n < |ws|
    ensures NoWrite(steps, m, n) ==> LatestCount(ws[n]) == LatestCount(ws[m])
    ensures forall k :: LastWrite(steps, m, n, k) ==> LatestCount(ws[n]) == CountWritten(ws, steps, k)
    ensures NoWrite(steps, m, n) || exists k :: LastWrite(steps, m, n, k)
    decreases n
  {
    if m < n {
      LatestIsLastWritten(ws, steps, m, n - 1);
      assert ws[n] == Next(ws[n - 1], steps[n - 1]);
      if IsWrite(steps[n - 1]) {
        assert LastWrite(steps, m, n, n - 1);
      } else {
        assert NoWrite(steps, m, n - 1) ==> NoWrite(steps, m, n);
        forall k ensures LastWrite(steps, m, n, k) <==> LastWrite(steps, m, n - 1, k) {
        }
        if !NoWrite(steps, m, n - 1) {
          var k :| LastWrite(steps, m, n - 1, k);
          assert LastWrite(steps, m, n, k);
        }
      }
    }
  }

  /** The step in which the call that is pending before step `n` began. */
  ghost function CallBegan(ws: seq<World>, steps: seq<Step>, n: nat, id: Id): (m: nat)
    requires Execution(ws, steps) && n < |ws| && id in ws[n].pending
    ensures m < n && (steps[m].BeginSync? || steps[m].BeginSnapshot?) && steps[m].id == id
    ensures id in ws[m + 1].pending && ws[m + 1].pending[id] == ws[n].pending[id]
  {
    if id in ws[n - 1].pending then
      assert ws[n] == Next(ws[n - 1], steps[n - 1]);
      CallBegan(ws, steps, n - 1, id)
    else
      n - 1
  }

  /** A call writes the snapshot it received, or one of the count that it found when it began. */
  lemma WritesWhatItBeganWith(ws: seq<World>, steps: seq<Step>, n: nat)
    requires Execution(ws, steps) && n < |steps| && IsWrite(steps[n])
    ensures var m := CallBegan(ws, steps, n, steps[n].id);
            && ws[n + 1].f.latest.Some?
            && (steps[n].EndSync? ==> steps[m].BeginSync? && ws[n + 1].f.latest.value == steps[m].s)
            && (steps[n].EndSnapshot? ==>
                  && steps[m].BeginSnapshot?
                  && ws[n + 1].f.latest.value == Snapshot(ws[m].f.documentChangeCount, steps[m].cid, steps[m].state))
  {
    var m := CallBegan(ws, steps, n, steps[n].id);
    assert ws[n + 1] == Next(ws[n], steps[n]) && ws[m + 1] == Next(ws[m], steps[m]);
  }

  // ----- what the counters count

  /** Document changes in the steps from `m` up to, but not including, `n`. */
  ghost function Changes(steps: seq<Step>, m: nat, n: nat): nat
    requires n <= |steps|
    decreases n
  {
    if n <= m then 0 else Changes(steps, m, n - 1) + (if steps[n - 1].DocumentChange? then 1 else 0)
  }

  /** In a run without failed commits the second counter counts the changes since the last write. */
  lemma {:induction false} SinceCountsChanges(ws: seq<World>, steps: seq<Step>, n: nat)
    requires Execution(ws, steps) && NoFailedCommit(steps) && n < |ws|
    ensures NoWrite(steps, 0, n) ==> ws[n].f.changesSinceSnapshot == Changes(steps, 0, n)
    ensures forall k: nat :: LastWrite(steps, 0, n, k) ==> ws[n].f.changesSinceSnapshot == Changes(steps, k + 1, n)
  {
    if n > 0 {
      SinceCountsChanges(ws, steps, n - 1);
      assert ws[n] == Next(ws[n - 1], steps[n - 1]);
      forall k: nat | LastWrite(steps, 0, n, k) && k < n - 1 ensures LastWrite(steps, 0, n - 1, k) {
      }
      if NoWrite(steps, 0, n) { assert NoWrite(steps, 0, n - 1); }
    }
  }

  /** And the first one is the greatest of all changes and, for each snapshot adopted from a peer, its count
      and the changes since: never less, and always one of them. */
  lemma {:induction false} CountIsTheGreatest(ws: seq<World>, steps: seq<Step>, n: nat)
    requires Execution(ws, steps) && NoFailedCommit(steps) && n < |ws|
    ensures ws[n].f.documentChangeCount >= Changes(steps, 0, n)
    ensures forall k: nat :: k < n && Adopts(steps[k]) ==>
              ws[n].f.documentChangeCount >= CountWritten(ws, steps, k) + Changes(steps, k + 1, n)
    ensures ws[n].f.documentChangeCount == Changes(steps, 0, n) ||
            exists k: nat :: k < n && Adopts(steps[k]) &&
                        ws[n].f.documentChangeCount == CountWritten(ws, steps, k) + Changes(steps, k + 1, n)
  {
    if n > 0 {
      CountIsTheGreatest(ws, steps, n - 1);
      assert ws[n] == Next(ws[n - 1], steps[n - 1]);
      if ws[n - 1].f.documentChangeCount != Changes(steps, 0, n - 1) {
        var k: nat :| k < n - 1 && Adopts(steps[k]) &&
          ws[n - 1].f.documentChangeCount == CountWritten(ws, steps, k) + Changes(steps, k + 1, n - 1);
        assert Changes(steps, k + 1, n) ==
               Changes(steps, k + 1, n - 1) + (if steps[n - 1].DocumentChange? then 1 else 0);
      }
      if Adopts(steps[n - 1]) { assert Changes(steps, n, n) == 0; }
    }
  }

  predicate Adopts(step: Step) {
    step.EndSync? && step.valid
  }

  /** Whatever overlaps, in a run without failed commits: the adopted count drops in a step exactly if
      the step ends a call that writes, and the last write since that call began was of a more compacted
      snapshot. So only a call that another one overtook can bring it down. */
  lemma CountDropsIff(ws: seq<World>, steps: seq<Step>, n: nat)
    requires Execution(ws, steps) && NoFailedCommit(steps) && n < |steps|
    ensures LatestCount(ws[n + 1]) < LatestCount(ws[n]) <==>
            && IsWrite(steps[n])
            && exists k :: LastWrite(steps, CallBegan(ws, steps, n, steps[n].id) + 1, n, k) &&
                           CountWritten(ws, steps, k) > CountWritten(ws, steps, n)
  {
    assert ws[n + 1] == Next(ws[n], steps[n]);
    if IsWrite(steps[n]) {
      var m := CallBegan(ws, steps, n, steps[n].id);
      LatestIsLastWritten(ws, steps, m + 1, n);
      PendingNotOlderAtFirst(ws, steps, m);
    }
  }

  /** When a call begins, what it will write is at least as compacted as what is there. */
  lemma PendingNotOlderAtFirst(ws: seq<World>, steps: seq<Step>, m: nat)
    requires Execution(ws, steps) && NoFailedCommit(steps) && m < |steps|
    requires (steps[m].BeginSync? || steps[m].BeginSnapshot?) && steps[m].id in ws[m + 1].pending
    ensures LatestCount(ws[m + 1]) <= ws[m + 1].pending[steps[m].id].s.compactedCount
  {
    CountAlwaysCovers(ws, steps, m);
    assert ws[m + 1] == Next(ws[m], steps[m]);
  }

  /** It does happen: two overlapping deliveries both pass the test, and the older one writes last. */
  lemma OverlapLosesNewer(state: Blob)
    ensures exists ws, steps :: Execution(ws, steps) && NoFailedCommit(steps) && |steps| == 4 &&
              LatestCount(ws[3]) == 7 && LatestCount(ws[4]) == 5
  {
    var a, b := Snapshot(5, [], state), Snapshot(7, [], state);
    var steps := [BeginSync(0, a), BeginSync(1, b), EndSync(1, true), EndSync(0, true)];
    var w1 := Next(START, steps[0]);
    var w2 := Next(w1, steps[1]);
    var w3 := Next(w2, steps[2]);
    var w4 := Next(w3, steps[3]);
    var ws := [START, w1, w2, w3, w4];
    assert Execution(ws, steps);
  }

  // ----- failed commits

  /** The step in which the commit that is running before step `n` began; it notes the counters. */
  ghost function CommitBegan(ws: seq<World>, steps: seq<Step>, n: nat): (m: nat)
    requires Execution(ws, steps) && n < |ws| && ws[n].noted.Some?
    ensures m < n && steps[m].BeginCommit?
    ensures ws[n].noted == Some(Counters(ws[m].f.documentChangeCount, ws[m].f.changesSinceSnapshot))
    ensures forall k :: m < k <= n ==> ws[k].noted == ws[n].noted
  {
    assert ws[n] == Next(ws[n - 1], steps[n - 1]);
    if ws[n - 1].noted.Some? then CommitBegan(ws, steps, n - 1) else n - 1
  }

  /** A commit that fails gives back the counters of its entry but not the snapshot. In every run, the
      count covers the adopted snapshot afterwards exactly if the last snapshot written while the commit
      ran is no more compacted than the count at its entry, or none was written and it was covered then. */
  lemma FailedCommitCoversIff(ws: seq<World>, steps: seq<Step>, n: nat)
    requires Execution(ws, steps) && n < |steps| && steps[n].FailCommit?
    ensures var m := CommitBegan(ws, steps, n);
            && ws[n + 1].f.documentChangeCount == ws[m].f.documentChangeCount
            && ws[n + 1].f.changesSinceSnapshot == ws[m].f.changesSinceSnapshot
            && (Covered(ws[n + 1]) <==>
                  && (forall k :: LastWrite(steps, m, n, k) ==>
                      CountWritten(ws, steps, k) <= ws[m].f.documentChangeCount)
                  && (NoWrite(steps, m, n) ==> Covered(ws[m])))
  {
    LatestIsLastWritten(ws, steps, CommitBegan(ws, steps, n), n);
    assert ws[n + 1] == Next(ws[n], steps[n]);
  }

  /** It does happen: a snapshot of five changes is adopted while a commit runs, the commit fails, and the
      count is back at zero. The next snapshot then replaces the one of five by one of none, although no
      two calls overlap. */
  lemma FailedCommitUncovers(state: Blob)
    ensures exists ws: seq<World>, steps: seq<Step> ::
      Execution(ws, steps) && |steps| == 6 && NonOverlapping(ws, steps) &&
              steps[3].FailCommit? && CommitBegan(ws, steps, 3) == 0 &&
              Covered(ws[0]) && !Covered(ws[4]) && LatestCount(ws[4]) == 5 && LatestCount(ws[6]) == 0
  {
    var s := Snapshot(5, [], state);
    var steps :=
      [BeginCommit, BeginSync(0, s), EndSync(0, true), FailCommit, BeginSnapshot(1, [], state), EndSnapshot(1)];
    var w1 := Next(START, steps[0]);
    var w2 := Next(w1, steps[1]);
    var w3 := Next(w2, steps[2]);
    var w4 := Next(w3, steps[3]);
    var w5 := Next(w4, steps[4]);
    var w6 := Next(w5, steps[5]);
    var ws := [START, w1, w2, w3, w4, w5, w6];
    assert Execution(ws, steps);
    assert w2.pending - {0} == map[];
    assert NonOverlapping(ws, steps);
    assert CommitBegan(ws, steps, 3) == 0;
  }
}
