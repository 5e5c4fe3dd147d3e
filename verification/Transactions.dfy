/**
 The document object: change transactions (`startChange`, `addChange`, `endChange` in
 collabswarm-document.ts) and the synchronous parts of adopting snapshots and pruning. A failed commit
 rolls the document's bookkeeping back to where it was when the commit began, whatever happened in
 between. JavaScript sets iterate in insertion order and are kept as sequences. A message refers to its
 change tree, and pruning changes that tree in place.
 */
module Transactions {
  import opened Collections
  import opened JsValue
  import opened Snapshots
  import opened ChangeTree
  import opened Compaction

  type Doc(!new)
  type Header(!new)
  type Tip(!new)
  type ChangeFn(!new)

  /** A reference to a change tree. */
  type Ref = nat

  datatype Message = Message(header: Header, tree: Ref)

  /** The elements of an insertion-ordered set of CIDs. */
  type OrderedSet = seq<Text>

  /** `Set.add`: an element that is already there stays where it is. */
  function Include(s: OrderedSet, c: Text): OrderedSet {
    if c in s then s else s + [c]
  }

  /** `Set.delete`. */
  function Delete(s: OrderedSet, c: Text): OrderedSet {
    if s == [] then [] else if s[0] == c then s[1..] else [s[0]] + Delete(s[1..], c)
  }

  lemma {:induction false} DeleteMiddle(a: OrderedSet, c: Text, b: OrderedSet)
    requires c !in a
    ensures Delete(a + [c] + b, c) == a + b
  {
    var s := a + [c] + b;
    if a == [] {
      assert s[1..] == b;
    } else {
      assert s[0] == a[0] && s[1..] == a[1..] + [c] + b;
      DeleteMiddle(a[1..], c, b);
      assert [a[0]] + (a[1..] + b) == a + b;
    }
  }

  datatype State = State(
    document: Doc,
    hashes: OrderedSet,
    referencedAncestors: OrderedSet,
    lastSyncMessage: Option<Message>,
    trees: map<Ref, Node>,
    snapshot: Fields,
    recentTips: seq<Tip>,
    inTransaction: bool,
    committing: bool,
    pendingChangeFns: seq<ChangeFn>)

  /** What `endChange` notes before it starts: the two sets by their sizes only, the tree of the message
      by its reference only, the adopted snapshot not at all. */
  datatype Checkpoint = Checkpoint(
    document: Doc,
    hashSize: nat,
    ancestorSize: nat,
    lastSyncMessage: Option<Message>,
    counters: Counters,
    recentTips: seq<Tip>)

  /** The state after a failed commit, from the state it finds and what was noted. */
  function RolledBack(s: State, c: Checkpoint): State
    requires c.hashSize <= |s.hashes| && c.ancestorSize <= |s.referencedAncestors|
  {
    State(c.document, s.hashes[..c.hashSize], s.referencedAncestors[..c.ancestorSize], c.lastSyncMessage, s.trees,
          Restored(s.snapshot, c.counters), c.recentTips, false, false, [])
  }

  /** The tree of the last message, pruned in place. */
  function Pruned(s: State, keepCount: int): (State, set<Cid>) {
    if s.lastSyncMessage.None? || s.lastSyncMessage.value.tree !in s.trees then (s, {})
    else
      var r := s.lastSyncMessage.value.tree;
      var (root, cids) := Prune(s.trees[r], keepCount);
      (s.(trees := s.trees[r := root]), cids)
  }

  /** The change count covers the adopted snapshot. */
  predicate Covers(s: State) {
    s.snapshot.latest.Some? ==> s.snapshot.latest.value.compactedCount <= s.snapshot.documentChangeCount
  }

  class Document {
    var document: Doc
    var hashes: OrderedSet
    var referencedAncestors: OrderedSet
    var lastSyncMessage: Option<Message>
    var trees: map<Ref, Node>  // the tree objects that messages refer to
    var latestSnapshot: Option<Snapshot>
    var documentChangeCount: nat
    var changesSinceSnapshot: nat
    var recentTips: seq<Tip>
    var inTransaction: bool
    var committing: bool
    var pendingChangeFns: seq<ChangeFn>

    ghost function Contents(): State
      reads this
    {
      State(document, hashes, referencedAncestors, lastSyncMessage, trees,
            Fields(latestSnapshot, documentChangeCount, changesSinceSnapshot),
            recentTips, inTransaction, committing, pendingChangeFns)
    }

    constructor (s: State)
      ensures Contents() == s
    {
      document, hashes, referencedAncestors := s.document, s.hashes, s.referencedAncestors;
      lastSyncMessage, trees := s.lastSyncMessage, s.trees;
      latestSnapshot, documentChangeCount, changesSinceSnapshot :=
        s.snapshot.latest, s.snapshot.documentChangeCount, s.snapshot.changesSinceSnapshot;
      recentTips := s.recentTips;
      inTransaction, committing, pendingChangeFns := s.inTransaction, s.committing, s.pendingChangeFns;
    }

    /** `sync` up to the signature check: whether the snapshot is worth verifying. */
    method ConsiderSnapshot(incoming: Snapshot) returns (wanted: bool)
      ensures wanted <==> latestSnapshot.None? || Newer(incoming, latestSnapshot.value)
      ensures Adopt(latestSnapshot, incoming) == if wanted then Some(incoming) else latestSnapshot
    {
      wanted := latestSnapshot.None? || Newer(incoming, latestSnapshot.value);
    }

    /** `sync` after the signature check, which is not repeated; `applied` is the document with the
        snapshot's state. The boundary CID counts as seen. */
    method ApplySnapshot(incoming: Snapshot, applied: Doc)
      modifies this`document, this`hashes, this`latestSnapshot, this`documentChangeCount, this`changesSinceSnapshot
      ensures old(hashes) <= hashes
      ensures incoming.lastChangeNodeCID != [] ==> incoming.lastChangeNodeCID in hashes
      ensures Contents() == old(Contents()).(
                document := applied,
                snapshot := Applied(old(Contents()).snapshot, incoming),
                hashes :=
                  if incoming.lastChangeNodeCID == [] then old(hashes)
                  else Include(old(hashes), incoming.lastChangeNodeCID))
    {
      document := applied;
      latestSnapshot := Some(incoming);
      if documentChangeCount < incoming.compactedCount { documentChangeCount := incoming.compactedCount; }
      changesSinceSnapshot := 0;
      if incoming.lastChangeNodeCID != [] { hashes := Include(hashes, incoming.lastChangeNodeCID); }
    }

    /** The snapshot part of a `sync` that nothing overlaps. With a valid signature it adopts the newer of
        the two snapshots, as `Deliver` does one after the other; otherwise it changes nothing. */
    method ReceiveSnapshot(incoming: Snapshot, applied: Doc, valid: bool)
      modifies this`document, this`hashes, this`latestSnapshot, this`documentChangeCount, this`changesSinceSnapshot
      ensures latestSnapshot == if valid then Adopt(old(latestSnapshot), incoming) else old(latestSnapshot)
      ensures !valid || (old(latestSnapshot).Some? && !Newer(incoming, old(latestSnapshot).value)) ==>
                Contents() == old(Contents())
      ensures Covers(old(Contents())) ==> Covers(Contents())
    {
      var wanted := ConsiderSnapshot(incoming);
      if wanted && valid { ApplySnapshot(incoming, applied); }
    }

    /** `snapshot` after signing what was captured before. */
    method TakeSnapshot(captured: Snapshot)
      modifies this`latestSnapshot, this`changesSinceSnapshot
      ensures Contents() == old(Contents()).(snapshot := Taken(old(Contents()).snapshot, captured))
    {
      latestSnapshot := Some(captured);
      changesSinceSnapshot := 0;
    }

    method CountChange()
      modifies this`documentChangeCount, this`changesSinceSnapshot
      ensures Contents() == old(Contents()).(snapshot := Counted(old(Contents()).snapshot))
    {
      documentChangeCount := documentChangeCount + 1;
      changesSinceSnapshot := changesSinceSnapshot + 1;
    }

    /** `_pruneChanges` on the tree of the last message. */
    method PruneLastMessage(keepCount: int) returns (prunedCids: set<Cid>)
      modifies this`trees
      ensures (Contents(), prunedCids) == Pruned(old(Contents()), keepCount)
    {
      if lastSyncMessage.None? || lastSyncMessage.value.tree !in trees { return {}; }
      var root;
      root, prunedCids := PruneChanges(trees[lastSyncMessage.value.tree], keepCount);
      trees := trees[lastSyncMessage.value.tree := root];
    }

    /** `startChange`; false where the source throws. */
    method StartChange() returns (ok: bool)
      modifies this`inTransaction, this`pendingChangeFns
      ensures ok <==> !old(inTransaction)
      ensures Contents() ==
              if ok then old(Contents()).(inTransaction := true, pendingChangeFns := []) else old(Contents())
    {
      if inTransaction { return false; }
      inTransaction, pendingChangeFns := true, [];
      return true;
    }

    /** `addChange`; false where the source throws. */
    method AddChange(fn: ChangeFn) returns (ok: bool)
      modifies this`pendingChangeFns
      ensures ok <==> inTransaction && !committing
      ensures Contents() ==
              if ok then old(Contents()).(pendingChangeFns := old(pendingChangeFns) + [fn]) else old(Contents())
    {
      if !inTransaction || committing { return false; }
      pendingChangeFns := pendingChangeFns + [fn];
      return true;
    }

    /** Deletes the entries that a set has gained since it had `size` of them. */
    method Truncate(s: OrderedSet, size: nat) returns (r: OrderedSet)
      requires size <= |s| && Distinct(s)
      ensures r == s[..size]
    {
      if |s| == size { return s; }
      var toRemove: seq<Text> := [];
      for i := 0 to |s|
        invariant toRemove == if i < size then [] else s[size..i]
      {
        if i >= size { toRemove := toRemove + [s[i]]; }
      }
      assert toRemove == s[size..];
      r := s;
      for k := 0 to |toRemove|
        invariant r == s[..size] + s[size + k..]
      {
        assert r == s[..size] + [s[size + k]] + s[size + k + 1..];
        DeleteMiddle(s[..size], s[size + k], s[size + k + 1..]);
        r := Delete(r, toRemove[k]);
      }
    }

    /** The `catch` and `finally` blocks of `endChange`. */
    method RollBack(c: Checkpoint)
      requires c.hashSize <= |hashes| && c.ancestorSize <= |referencedAncestors|
      requires Distinct(hashes) && Distinct(referencedAncestors)
      modifies this
      ensures Contents() == RolledBack(old(Contents()), c)
    {
      hide Distinct, Delete;
      var seen := Truncate(hashes, c.hashSize);
      var referenced := Truncate(referencedAncestors, c.ancestorSize);
      document, hashes, referencedAncestors, lastSyncMessage := c.document, seen, referenced, c.lastSyncMessage;
      documentChangeCount, changesSinceSnapshot := c.counters.documentChangeCount, c.counters.changesSinceSnapshot;
      recentTips := c.recentTips;
      inTransaction, pendingChangeFns := false, [];
      committing := false;
    }

    /** The end of `endChange` when the commit succeeded. */
    method FinishCommit()
      modifies this`inTransaction, this`pendingChangeFns, this`committing
      ensures Contents() == old(Contents()).(inTransaction := false, committing := false, pendingChangeFns := [])
    {
      inTransaction, pendingChangeFns := false, [];
      committing := false;
    }

    /** `endChange` up to its first `await`: it throws, has nothing to do, or notes a checkpoint. */
    method BeginCommit() returns (r: CommitStart)
      modifies this`inTransaction, this`pendingChangeFns, this`committing
      ensures (Contents(), r) == CommitBegun(old(Contents()))
    {
      if !inTransaction || committing { return Throws; }
      if |pendingChangeFns| == 0 {
        inTransaction, pendingChangeFns := false, [];
        return NothingPending;
      }
      r := Noted(Checkpoint(document, |hashes|, |referencedAncestors|, lastSyncMessage,
                            Counters(documentChangeCount, changesSinceSnapshot), recentTips));
      committing := true;
    }
  }

  datatype CommitStart = Throws | NothingPending | Noted(checkpoint: Checkpoint)

  function CommitBegun(s: State): (State, CommitStart) {
    if !s.inTransaction || s.committing then (s, Throws)
    else if |s.pendingChangeFns| == 0 then (s.(inTransaction := false, pendingChangeFns := []), NothingPending)
    else (s.(committing := true),
          Noted(Checkpoint(s.document, |s.hashes|, |s.referencedAncestors|, s.lastSyncMessage,
                           Counters(s.snapshot.documentChangeCount, s.snapshot.changesSinceSnapshot), s.recentTips)))
  }

  /** Everything that can happen to the fields while a commit awaits: its own steps, remote syncs, other
      local changes and snapshots, in any order. Sets only gain elements, and trees are only made and
      pruned. A pruning reaches a tree as the root of the last message or, as `_makeChange` embeds the
      previous root in the new one, somewhere inside it: then other nodes follow it in the queue
      (`rest`) and some have been counted before it (`visited`). */
  datatype Event =
    | AddHash(c: Text)
    | AddAncestor(c: Text)
    | SetDocument(d: Doc)
    | SetMessage(m: Option<Message>)
    | NewTree(r: Ref, root: Node)
    | PruneTree(r: Ref, rest: seq<Node>, visited: nat, keep: int)
    | SetSnapshot(f: Fields)
    | SetTips(tips: seq<Tip>)
    | CallStartChange
    | CallAddChange(fn: ChangeFn)

  /** What a pruning makes of a tree that it reaches. */
  function PrunedThere(n: Node, e: Event): Node
    requires e.PruneTree?
  {
    PruneQueue([n] + e.rest, e.visited, e.keep).0[0]
  }

  ghost function Happens(s: State, e: Event): State {
    match e
    case AddHash(c) => s.(hashes := Include(s.hashes, c))
    case AddAncestor(c) => s.(referencedAncestors := Include(s.referencedAncestors, c))
    case SetDocument(d) => s.(document := d)
    case SetMessage(m) => s.(lastSyncMessage := m)
    case NewTree(r, root) => if r in s.trees then s else s.(trees := s.trees[r := root])
    case PruneTree(r, _, _, _) => if r in s.trees then s.(trees := s.trees[r := PrunedThere(s.trees[r], e)]) else s
    case SetSnapshot(f) => s.(snapshot := f)
    case SetTips(tips) => s.(recentTips := tips)
    case CallStartChange => if s.inTransaction then s else s.(inTransaction := true, pendingChangeFns := [])
    case CallAddChange(fn) =>
      if !s.inTransaction || s.committing then s else s.(pendingChangeFns := s.pendingChangeFns + [fn])
  }

  ghost function After(s: State, es: seq<Event>): State {
    if es == [] then s else Happens(After(s, es[..|es| - 1]), es[|es| - 1])
  }

  /** Sets only grow at their ends, and the batch being committed is left alone. */
  lemma {:induction false} SetsOnlyGrow(s: State, es: seq<Event>)
    requires Distinct(s.hashes) && Distinct(s.referencedAncestors)
    ensures var t := After(s, es);
            && s.hashes <= t.hashes && s.referencedAncestors <= t.referencedAncestors
            && Distinct(t.hashes) && Distinct(t.referencedAncestors)
            && (s.inTransaction && s.committing ==>
                  t.inTransaction && t.committing && t.pendingChangeFns == s.pendingChangeFns)
  {
    if es != [] {
      hide Distinct, PrunedThere;
      var before := es[..|es| - 1];
      SetsOnlyGrow(s, before);
      match es[|es| - 1] {
        case AddHash(c) => DistinctSnoc(After(s, before).hashes, c);
        case AddAncestor(c) => DistinctSnoc(After(s, before).referencedAncestors, c);
        case _ =>
      }
    }
  }

  /** Wherever a commit fails, and whatever happened meanwhile, the rollback gives back the state in which
      the commit began with the transaction closed, except for two things: the adopted snapshot, and the
      contents of trees. The message refers to the same tree as before. */
  lemma RollbackRestoresEntry(s: State, es: seq<Event>)
    requires Distinct(s.hashes) && Distinct(s.referencedAncestors) && CommitBegun(s).1.Noted?
    ensures var (begun, noted) := CommitBegun(s);
            var failed := After(begun, es);
            && |s.hashes| <= |failed.hashes| && |s.referencedAncestors| <= |failed.referencedAncestors|
            && RolledBack(failed, noted.checkpoint) ==
               s.(inTransaction := false, committing := false, pendingChangeFns := [],
                  trees := failed.trees, snapshot := s.snapshot.(latest := failed.snapshot.latest))
  {
    hide Distinct;
    SetsOnlyGrow(CommitBegun(s).0, es);
  }

  /** Pruning the tree where the event finds it would change nothing. */
  ghost predicate Harmless(n: Node, e: Event)
    requires e.PruneTree?
  {
    PrunedThere(n, e) == n
  }

  /** No pruning of tree `r` among the events would change `n`. */
  ghost predicate AllHarmless(n: Node, es: seq<Event>, r: Ref) {
    forall i :: 0 <= i < |es| && es[i].PruneTree? && es[i].r == r ==> Harmless(n, es[i])
  }

  lemma AllHarmlessSnoc(n: Node, es: seq<Event>, e: Event, r: Ref)
    ensures AllHarmless(n, es + [e], r) <==> AllHarmless(n, es, r) && (e.PruneTree? && e.r == r ==> Harmless(n, e))
  {
    hide Harmless;
    var all := es + [e];
    assert all[|es|] == e && forall i :: 0 <= i < |es| ==> all[i] == es[i];
  }

  /** What one event makes of a tree. */
  lemma TreeAfterEvent(s: State, e: Event, r: Ref)
    requires r in s.trees
    ensures r in Happens(s, e).trees
    ensures Happens(s, e).trees[r] == if e.PruneTree? && e.r == r then PrunedThere(s.trees[r], e) else s.trees[r]
  {
    hide PrunedThere;
  }

  /** A tree keeps its reference; it comes out of any events as it was exactly if every pruning that
      reached it had nothing to take from it. What a pruning has taken never comes back. */
  lemma {:induction false} TreeUnchangedIff(s: State, es: seq<Event>, r: Ref)
    requires r in s.trees
    ensures r in After(s, es).trees && Shrunk(s.trees[r], After(s, es).trees[r])
    ensures After(s, es).trees[r] == s.trees[r] <==> AllHarmless(s.trees[r], es, r)
  {
    if es != [] {
      hide Weight, PrunedThere, Happens, AllHarmless;
      var before, e := es[..|es| - 1], es[|es| - 1];
      TreeUnchangedIff(s, before, r);
      assert es == before + [e];
      AllHarmlessSnoc(s.trees[r], before, e, r);
      TreeAfterEvent(After(s, before), e, r);
      if e.PruneTree? && e.r == r { PrunedThereShrinks(After(s, before).trees[r], e); }
    }
  }

  lemma PrunedThereShrinks(n: Node, e: Event)
    requires e.PruneTree?
    ensures Shrunk(n, PrunedThere(n, e))
  {
    PruneQueueShrinks([n] + e.rest, e.visited, e.keep);
  }

  /** After a failed commit the tree of the last message is the one of the commit's entry exactly if no
      pruning meanwhile took anything from it. */
  lemma RollbackRestoresTreeIff(s: State, es: seq<Event>)
    requires Distinct(s.hashes) && Distinct(s.referencedAncestors) && CommitBegun(s).1.Noted?
    requires s.lastSyncMessage.Some? && s.lastSyncMessage.value.tree in s.trees
    ensures var (begun, noted) := CommitBegun(s);
            var failed, r := After(begun, es), s.lastSyncMessage.value.tree;
            && |s.hashes| <= |failed.hashes| && |s.referencedAncestors| <= |failed.referencedAncestors|
            && var back := RolledBack(failed, noted.checkpoint);
               && back.lastSyncMessage == s.lastSyncMessage && r in back.trees
               && (back.trees[r] == s.trees[r] <==> AllHarmless(s.trees[r], es, r))
  {
    hide AllHarmless, Distinct, Shrunk;
    RollbackRestoresEntry(s, es);
    TreeUnchangedIff(CommitBegun(s).0, es, s.lastSyncMessage.value.tree);
  }

  /** The snapshot of a concurrent sync is such a pruning: it prunes the root of the last message. */
  lemma SnapshotPrunesRoot(s: State, keepCount: int)
    requires s.lastSyncMessage.Some? && s.lastSyncMessage.value.tree in s.trees && keepCount > 0
    ensures After(s, [PruneTree(s.lastSyncMessage.value.tree, [], 0, keepCount)]) == Pruned(s, keepCount).0
  {
    var root := s.trees[s.lastSyncMessage.value.tree];
    assert [root] + [] == [root];
    var e := PruneTree(s.lastSyncMessage.value.tree, [], 0, keepCount);
    assert [e][..0] == [] && After(s, [e][..0]) == s;
  }

  /** So if a snapshot is taken while a commit awaits and the commit then fails, the last message is the
      one of the entry, and its tree is the pruned one. */
  lemma RollbackKeepsPruning(s: State, keepCount: int)
    requires Distinct(s.hashes) && Distinct(s.referencedAncestors) && CommitBegun(s).1.Noted?
    requires s.lastSyncMessage.Some? && s.lastSyncMessage.value.tree in s.trees && keepCount > 0
    ensures var (begun, noted) := CommitBegun(s);
            var failed, r := Pruned(begun, keepCount).0, s.lastSyncMessage.value.tree;
            && |s.hashes| <= |failed.hashes| && |s.referencedAncestors| <= |failed.referencedAncestors|
            && RolledBack(failed, noted.checkpoint) ==
               s.(inTransaction := false, committing := false, pendingChangeFns := [],
                  trees := s.trees[r := Prune(s.trees[r], keepCount).0])
  {
    hide Distinct, Prune, PruneQueue;
    var begun, r := CommitBegun(s).0, s.lastSyncMessage.value.tree;
    SnapshotPrunesRoot(begun, keepCount);
    RollbackRestoresEntry(s, [PruneTree(r, [], 0, keepCount)]);
  }

  /** That tree is smaller already if the root has one document child. */
  lemma PruningTakesAChild(c0: Content, c1: Content)
    ensures Prune(Node(Document, c1, Kids([Item("D", Node(Document, c0, Absent))])), 1).0 == Node(Document, c1, Absent)
  {
    var items := [Item("D", Node(Document, c0, Absent))];
    assert items[1..] == [] && CollectAcl(items, [], {}).0 == [];
  }

  /** A commit runs alone: until it ends, no other commit can begin and no change can join its batch. */
  lemma CommitRunsAlone(s: State, es: seq<Event>)
    requires Distinct(s.hashes) && Distinct(s.referencedAncestors) && CommitBegun(s).1.Noted?
    ensures var t := After(CommitBegun(s).0, es);
            CommitBegun(t) == (t, Throws) && t.pendingChangeFns == s.pendingChangeFns
  {
    hide Distinct;
    SetsOnlyGrow(CommitBegun(s).0, es);
  }
}
