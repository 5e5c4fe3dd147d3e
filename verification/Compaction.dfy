/**
 What pruning and garbage collection guarantee: no CID is lost track of, no ACL node goes, enough
 document nodes stay, pruning twice is pruning once, and nothing still reachable is deleted.
 */
module Compaction {
  import opened Collections
  import opened ChangeTree

  type EntrySet = set<(Cid, Kind, Content)>

  // ----- collecting the ACL nodes of a pruned subtree

  ghost function Keys(out: Record): set<Cid> {
    set i | 0 <= i < |out| :: out[i].cid
  }

  ghost predicate AclLeaves(out: Record) {
    forall i :: 0 <= i < |out| ==> IsAcl(out[i].node) && out[i].node.children == Absent
  }

  ghost predicate DistinctKeys(out: Record) {
    forall i, j :: 0 <= i < j < |out| ==> out[i].cid != out[j].cid
  }

  lemma {:induction false} PutAddsKey(out: Record, cid: Cid, n: Node)
    ensures Keys(Put(out, cid, n)) == Keys(out) + {cid}
  {
    var r := Put(out, cid, n);
    KeysCons(r);
    if out == [] {
      assert Keys(r[1..]) == {} && Keys(out) == {};
    } else {
      KeysCons(out);
      if out[0].cid == cid {
        assert r[1..] == out[1..];
      } else {
        PutAddsKey(out[1..], cid, n);
        assert r[1..] == Put(out[1..], cid, n);
      }
    }
  }

  lemma {:induction false} PutAddsEntry(out: Record, cid: Cid, n: Node)
    ensures Entries(Put(out, cid, Leaf(n))) <= Entries(out) + {(cid, n.kind, n.content)}
    ensures AclLeaves(out) && IsAcl(n) ==> AclLeaves(Put(out, cid, Leaf(n)))
  {
    var r := Put(out, cid, Leaf(n));
    assert Below(Leaf(n)) == {};
    if out != [] {
      if out[0].cid == cid {
        assert r[1..] == out[1..];
      } else {
        PutAddsEntry(out[1..], cid, n);
        assert r[1..] == Put(out[1..], cid, Leaf(n));
        assert AclLeaves(out) ==> AclLeaves(out[1..]);
      }
    }
  }

  lemma {:induction false} PutStaysDistinct(out: Record, cid: Cid, n: Node)
    requires DistinctKeys(out)
    ensures DistinctKeys(Put(out, cid, n))
  {
    if out != [] && out[0].cid != cid {
      var r := Put(out, cid, n);
      PutStaysDistinct(out[1..], cid, n);
      PutAddsKey(out[1..], cid, n);
      assert r[1..] == Put(out[1..], cid, n);
      assert out[0].cid !in Keys(out[1..]);
      assert forall j :: 1 <= j < |r| ==> r[j] == r[1..][j - 1] && r[j].cid in Keys(r[1..]);
    }
  }

  lemma KeysCons(out: Record)
    requires out != []
    ensures Keys(out) == {out[0].cid} + Keys(out[1..])
  {
    forall c | c in Keys(out) ensures c in {out[0].cid} + Keys(out[1..]) {
      var i :| 0 <= i < |out| && out[i].cid == c;
      if i > 0 { assert out[1..][i - 1].cid == c; }
    }
    forall c | c in Keys(out[1..]) ensures c in Keys(out) {
      var i :| 0 <= i < |out[1..]| && out[1..][i].cid == c;
      assert out[i + 1].cid == c;
    }
  }

  lemma CidsUnion(a: EntrySet, b: EntrySet)
    ensures Cids(a + b) == Cids(a) + Cids(b)
    ensures AclCids(a + b) == AclCids(a) + AclCids(b)
    ensures DocumentCids(a + b) == DocumentCids(a) + DocumentCids(b)
  {
  }

  lemma CidsSplit(a: EntrySet)
    ensures Cids(a) == AclCids(a) + DocumentCids(a)
  {
    assert forall e :: e in a ==> e.0 in Cids(a);
  }

  /** What `collectACLNodes` adds: the ACL CIDs to the record, the document CIDs to the report. */
  ghost predicate Collected(es: EntrySet, out: Record, pruned: set<Cid>, o: Record, p: set<Cid>) {
    && Keys(o) == Keys(out) + AclCids(es)
    && p == pruned + DocumentCids(es)
    && Entries(o) <= Entries(out) + es
    && (AclLeaves(out) ==> AclLeaves(o))
    && (DistinctKeys(out) ==> DistinctKeys(o))
  }

  lemma CollectedThen(
    a: EntrySet, b: EntrySet, o0: Record, p0: set<Cid>, o1: Record, p1: set<Cid>, o2: Record, p2: set<Cid>)
    requires Collected(a, o0, p0, o1, p1) && Collected(b, o1, p1, o2, p2)
    ensures Collected(a + b, o0, p0, o2, p2)
  {
    CidsUnion(a, b);
  }

  lemma CollectOne(cid: Cid, n: Node, out: Record, pruned: set<Cid>)
    ensures var (o, p) := if IsAcl(n) then (Put(out, cid, Leaf(n)), pruned) else (out, pruned + {cid});
            Collected({(cid, n.kind, n.content)}, out, pruned, o, p)
  {
    hide Entries, DistinctKeys, AclLeaves, Keys, Put;
    PutAddsKey(out, cid, Leaf(n));
    PutAddsEntry(out, cid, n);
    if DistinctKeys(out) { PutStaysDistinct(out, cid, Leaf(n)); }
    assert (cid, n.kind, n.content) in {(cid, n.kind, n.content)};
  }

  lemma {:induction false} CollectAclCollects(items: Record, out: Record, pruned: set<Cid>)
    ensures var (o, p) := CollectAcl(items, out, pruned); Collected(Entries(items), out, pruned, o, p)
    decreases items
  {
    hide Collected;
    if items == [] {
      CollectedNothing(out, pruned);
    } else {
      var Item(cid, n) := items[0];
      var one := {(cid, n.kind, n.content)};
      var (o1, p1) := if IsAcl(n) then (Put(out, cid, Leaf(n)), pruned) else (out, pruned + {cid});
      var (o2, p2) := CollectBelow(n, o1, p1);
      var (o3, p3) := CollectAcl(items[1..], o2, p2);
      CollectOne(cid, n, out, pruned);
      CollectBelowCollects(n, o1, p1);
      CollectAclCollects(items[1..], o2, p2);
      CollectedThen(one, Below(n), out, pruned, o1, p1, o2, p2);
      CollectedThen(one + Below(n), Entries(items[1..]), out, pruned, o2, p2, o3, p3);
    }
  }

  lemma CollectedNothing(out: Record, pruned: set<Cid>)
    ensures Collected({}, out, pruned, out, pruned)
  {
  }

  lemma {:induction false} CollectBelowCollects(n: Node, out: Record, pruned: set<Cid>)
    ensures var (o, p) := CollectBelow(n, out, pruned); Collected(Below(n), out, pruned, o, p)
    decreases n
  {
    if n.children.Kids? {
      CollectAclCollects(n.children.items, out, pruned);
    } else {
      CollectedNothing(out, pruned);
    }
  }

  lemma {:induction false} LeavesAreTheirEntries(out: Record)
    requires AclLeaves(out)
    ensures AclCids(Entries(out)) == Cids(Entries(out)) == Keys(out)
  {
    if out != [] {
      assert AclLeaves(out[1..]) by { assert forall i :: 0 <= i < |out[1..]| ==> out[1..][i] == out[i + 1]; }
      LeavesAreTheirEntries(out[1..]);
      KeysCons(out);
      var one := {(out[0].cid, out[0].node.kind, out[0].node.content)};
      assert Below(out[0].node) == {};
      assert Entries(out) == one + Entries(out[1..]);
      CidsUnion(one, Entries(out[1..]));
      assert AclCids(one) == Cids(one) == {out[0].cid} by {
        assert (out[0].cid, out[0].node.kind, out[0].node.content) in one;
      }
    }
  }

  /** What one list of entries becomes when some of them are pruned. */
  ghost predicate Conserved(before: EntrySet, after: EntrySet, pruned: set<Cid>) {
    && Cids(before) == Cids(after) + pruned
    && AclCids(before) == AclCids(after)
    && after <= before
    && pruned <= DocumentCids(before)
  }

  lemma ConservedBoth(a: EntrySet, a': EntrySet, p: set<Cid>, b: EntrySet, b': EntrySet, q: set<Cid>)
    requires Conserved(a, a', p) && Conserved(b, b', q)
    ensures Conserved(a + b, a' + b', p + q)
  {
    CidsUnion(a, b);
    CidsUnion(a', b');
  }

  lemma CutConserves(n: Node)
    requires n.children.Kids?
    ensures Conserved(Below(n), Below(Cut(n).0), Cut(n).1)
  {
    var items := n.children.items;
    CollectAclCollects(items, [], {});
    var kept := CollectAcl(items, [], {}).0;
    CidsSplit(Entries(items));
    if kept == [] {
      assert Keys(kept) == {};
    } else {
      LeavesAreTheirEntries(kept);
    }
  }

  // ----- the whole queue

  lemma {:induction false} BelowAllConcat(q: seq<Node>, q': seq<Node>)
    ensures BelowAll(q + q') == BelowAll(q) + BelowAll(q')
  {
    if q == [] {
      assert q + q' == q';
    } else {
      BelowAllConcat(q[1..], q');
      assert (q + q')[1..] == q[1..] + q';
    }
  }

  /** The entries of a record are its own roots and everything below them. */
  ghost function Roots(items: Record): EntrySet {
    set i | 0 <= i < |items| :: (items[i].cid, items[i].node.kind, items[i].node.content)
  }

  lemma {:induction false} EntriesAreRootsAndBelow(items: Record)
    ensures Entries(items) == Roots(items) + BelowAll(Nodes(items))
  {
    if items == [] {
      assert Roots(items) == {};
    } else {
      EntriesAreRootsAndBelow(items[1..]);
      assert Nodes(items)[1..] == Nodes(items[1..]);
      var one := (items[0].cid, items[0].node.kind, items[0].node.content);
      assert Roots(items) == {one} + Roots(items[1..]) by {
        forall e | e in Roots(items) ensures e in {one} + Roots(items[1..]) {
          var i :| 0 <= i < |items| && e == (items[i].cid, items[i].node.kind, items[i].node.content);
          if i > 0 { assert items[1..][i - 1] == items[i]; }
        }
        forall e | e in Roots(items[1..]) ensures e in Roots(items) {
          var i :| 0 <= i < |items[1..]| &&
              e == (items[1..][i].cid, items[1..][i].node.kind, items[1..][i].node.content);
          assert items[i + 1] == items[1..][i];
        }
      }
    }
  }

  /** The loop changes nothing of a queued node but its children. */
  lemma {:induction false} PruneKeepsNodes(q: seq<Node>, visited: nat, keep: int)
    ensures var r := PruneQueue(q, visited, keep).0;
            forall i :: 0 <= i < |q| ==> r[i].kind == q[i].kind && r[i].content == q[i].content
    decreases QueueSize(q)
  {
    if q != [] {
      var n, v := q[0], Visit(q[0], visited);
      if n.children.Kids? && !AtBoundary(n, v, keep) {
        ExpandShrinks(q);
        PruneKeepsNodes(q[1..] + Nodes(n.children.items), v, keep);
      } else {
        PruneKeepsNodes(q[1..], v, keep);
      }
    }
  }

  lemma RootsUnchanged(items: Record, ns: seq<Node>)
    requires |ns| == |items|
    requires forall i :: 0 <= i < |ns| ==> ns[i].kind == items[i].node.kind && ns[i].content == items[i].node.content
    ensures Roots(WithNodes(items, ns)) == Roots(items)
  {
  }

  lemma {:induction false} PruneQueueConserves(q: seq<Node>, visited: nat, keep: int)
    ensures var (r, p) := PruneQueue(q, visited, keep); Conserved(BelowAll(q), BelowAll(r), p)
    decreases QueueSize(q)
  {
    if q != [] {
      var n, v := q[0], Visit(q[0], visited);
      if n.children.Kids? && !AtBoundary(n, v, keep) {
        OpenedConserves(q, visited, keep);
      } else {
        hide Conserved, Cut, AtBoundary;
        PruneQueueConserves(q[1..], v, keep);
        var (r, p) := PruneQueue(q[1..], v, keep);
        var (n', cut) := if n.children.Kids? then Cut(n) else (n, {});
        if n.children.Kids? { CutConserves(n); } else { NothingPruned(Below(n)); }
        ConservedBoth(Below(n), Below(n'), cut, BelowAll(q[1..]), BelowAll(r), p);
        assert ([n'] + r)[1..] == r;
        assert {} + p == p;
      }
    }
  }

  lemma NothingPruned(es: EntrySet)
    ensures Conserved(es, es, {})
  {
  }

  /** The case of `PruneQueueConserves` in which the first node's children join the queue. */
  lemma {:induction false} OpenedConserves(q: seq<Node>, visited: nat, keep: int)
    requires q != [] && q[0].children.Kids? && !AtBoundary(q[0], Visit(q[0], visited), keep)
    ensures var (r, p) := PruneQueue(q, visited, keep); Conserved(BelowAll(q), BelowAll(r), p)
    decreases QueueSize(q), 0
  {
    hide Conserved, AtBoundary, PruneQueue, BelowAll, Entries, Roots, QueueSize;
    var q', v := q[1..] + Nodes(q[0].children.items), Visit(q[0], visited);
    ExpandShrinks(q);
    PruneQueueConserves(q', v, keep);
    var (r, p) := PruneQueue(q', v, keep);
    var roots := Roots(q[0].children.items);
    OpenedBelow(q, visited, keep);
    NothingPruned(roots);
    ConservedBoth(roots, roots, {}, BelowAll(q'), BelowAll(r), p);
    assert {} + p == p;
  }

  /** Before and after, opening the first node moves the same entries out of the queue. */
  lemma OpenedBelow(q: seq<Node>, visited: nat, keep: int)
    requires q != [] && q[0].children.Kids? && !AtBoundary(q[0], Visit(q[0], visited), keep)
    ensures var items := q[0].children.items;
            var q' := q[1..] + Nodes(items);
            var (r, p), (r', p') := PruneQueue(q, visited, keep), PruneQueue(q', Visit(q[0], visited), keep);
            && p == p'
            && BelowAll(q) == Roots(items) + BelowAll(q')
            && BelowAll(r) == Roots(items) + BelowAll(r')
  {
    hide AtBoundary, PruneQueue, BelowAll, Entries, Roots, QueueSize, Nodes, WithNodes;
    var n, v, k := q[0], Visit(q[0], visited), |q| - 1;
    var items := n.children.items;
    var q' := q[1..] + Nodes(items);
    OpenedUnfolds(q, visited, keep);
    assert q == [n] + q[1..];
    BelowOpened(n, q[1..]);
    RejoinedBelow(q', v, keep, n, k);
  }

  lemma RejoinedBelow(q': seq<Node>, v: nat, keep: int, n: Node, k: nat)
    requires n.children.Kids? && |q'| == k + |n.children.items| && q'[k..] == Nodes(n.children.items)
    ensures var r' := PruneQueue(q', v, keep).0;
            BelowAll([Rejoined(n, r', k)] + r'[..k]) == Roots(n.children.items) + BelowAll(r')
  {
    hide PruneQueue, BelowAll, Roots;
    var r', items := PruneQueue(q', v, keep).0, n.children.items;
    PruneKeepsNodes(q', v, keep);
    forall i | 0 <= i < |items|
      ensures r'[k..][i].kind == items[i].node.kind && r'[k..][i].content == items[i].node.content
    {
      assert q'[k + i] == q'[k..][i] == items[i].node;
    }
    RootsUnchanged(items, r'[k..]);
    BelowOpened(Rejoined(n, r', k), r'[..k]);
    assert r' == r'[..k] + r'[k..];
  }

  /** Opening the first node of a queue moves its children's own entries out of the queue. */
  lemma BelowOpened(n: Node, rest: seq<Node>)
    requires n.children.Kids?
    ensures BelowAll([n] + rest) == Roots(n.children.items) + BelowAll(rest + Nodes(n.children.items))
  {
    EntriesAreRootsAndBelow(n.children.items);
    BelowAllConcat(rest, Nodes(n.children.items));
    assert ([n] + rest)[1..] == rest;
  }

  /** For every change tree and every limit: the entries before are the entries kept plus the pruned
      CIDs, every ACL CID is still reachable, nothing is made up, and only document CIDs go. */
  lemma PruneConserves(root: Node, keepCount: int)
    ensures var (root', pruned) := Prune(root, keepCount);
            && Conserved(Below(root), Below(root'), pruned)
            && root'.kind == root.kind && root'.content == root.content
  {
    NothingPruned(Below(root));
    if keepCount > 0 {
      PruneQueueConserves([root], 0, keepCount);
      PruneKeepsNodes([root], 0, keepCount);
      var r := PruneQueue([root], 0, keepCount).0;
      assert BelowAll([root]) == Below(root) && BelowAll(r) == Below(r[0]);
    }
  }

  /** Each CID names nodes of one kind: ACL nodes or document nodes. */
  ghost predicate OneKind(es: EntrySet) {
    AclCids(es) !! DocumentCids(es)
  }

  /** No CID of an ACL node is reported, whatever copies of a node the tree holds. */
  lemma PruneReportsNoAclCid(root: Node, keepCount: int)
    requires OneKind(Below(root))
    ensures Prune(root, keepCount).1 !! AclCids(Below(root))
  {
    PruneConserves(root, keepCount);
  }

  // ----- how much stays

  function DocumentCount(items: Record): nat
    decreases items
  {
    if items == [] then 0
    else DocumentsFrom(items[0].node) + DocumentCount(items[1..])
  }

  /** Document nodes of a tree, its root included. */
  function DocumentsFrom(n: Node): nat
    decreases n
  {
    (if IsAcl(n) then 0 else 1) + (if n.children.Kids? then DocumentCount(n.children.items) else 0)
  }

  function DocumentsIn(q: seq<Node>): nat {
    if q == [] then 0 else DocumentsFrom(q[0]) + DocumentsIn(q[1..])
  }

  lemma {:induction false} DocumentsConcat(q: seq<Node>, q': seq<Node>)
    ensures DocumentsIn(q + q') == DocumentsIn(q) + DocumentsIn(q')
  {
    if q == [] {
      assert q + q' == q';
    } else {
      DocumentsConcat(q[1..], q');
      assert (q + q')[1..] == q[1..] + q';
    }
  }

  lemma {:induction false} DocumentsOfRecord(items: Record)
    ensures DocumentCount(items) == DocumentsIn(Nodes(items))
  {
    if items != [] {
      DocumentsOfRecord(items[1..]);
      assert Nodes(items)[1..] == Nodes(items[1..]);
    }
  }

  function Min(a: int, b: int): int {
    if a <= b then a else b
  }

  lemma {:induction false} PruneQueueKeepsDocuments(q: seq<Node>, visited: nat, keep: int)
    ensures DocumentsIn(PruneQueue(q, visited, keep).0) >= Min(DocumentsIn(q), keep - visited)
    decreases QueueSize(q)
  {
    if q != [] {
      var n, v := q[0], Visit(q[0], visited);
      if n.children.Kids? && !AtBoundary(n, v, keep) {
        OpenedKeepsDocuments(q, visited, keep);
      } else {
        hide CollectAcl;
        PruneQueueKeepsDocuments(q[1..], v, keep);
        var r := PruneQueue(q[1..], v, keep).0;
        var n' := if n.children.Kids? then Cut(n).0 else n;
        assert ([n'] + r)[1..] == r;
      }
    }
  }

  lemma {:induction false} OpenedKeepsDocuments(q: seq<Node>, visited: nat, keep: int)
    requires q != [] && q[0].children.Kids? && !AtBoundary(q[0], Visit(q[0], visited), keep)
    ensures DocumentsIn(PruneQueue(q, visited, keep).0) >= Min(DocumentsIn(q), keep - visited)
    decreases QueueSize(q), 0
  {
    hide PruneQueue;
    var n, v, k := q[0], Visit(q[0], visited), |q| - 1;
    var items := n.children.items;
    var q' := q[1..] + Nodes(items);
    OpenedUnfolds(q, visited, keep);
    ExpandShrinks(q);
    PruneQueueKeepsDocuments(q', v, keep);
    var r := PruneQueue(q', v, keep).0;
    var n' := Rejoined(n, r, k);
    DocumentsOfRecord(items);
    DocumentsOfRecord(n'.children.items);
    DocumentsConcat(q[1..], Nodes(items));
    DocumentsConcat(r[..k], r[k..]);
    assert r == r[..k] + r[k..];
    assert ([n'] + r[..k])[1..] == r[..k];
  }

  /** A positive limit leaves at least that many document nodes, or all of them if there are fewer. */
  lemma PruneKeepsEnough(root: Node, keepCount: int)
    requires keepCount > 0
    ensures DocumentsFrom(Prune(root, keepCount).0) >= Min(keepCount, DocumentsFrom(root))
  {
    PruneQueueKeepsDocuments([root], 0, keepCount);
    var r := PruneQueue([root], 0, keepCount).0;
    assert DocumentsIn([root]) == DocumentsFrom(root) && DocumentsIn(r) == DocumentsFrom(r[0]);
  }

  /** In breadth-first order, document nodes at or past the limit have no children but ACL leaves. */
  ghost predicate Bounded(q: seq<Node>, visited: nat, keep: int)
    decreases QueueSize(q)
  {
    if q == [] then true
    else
      var n, v := q[0], Visit(q[0], visited);
      if !n.children.Kids? then Bounded(q[1..], v, keep)
      else if AtBoundary(n, v, keep) then AclLeaves(n.children.items) && Bounded(q[1..], v, keep)
      else
        ExpandShrinks(q);
        Bounded(q[1..] + Nodes(n.children.items), v, keep)
  }

  lemma {:induction false} PrunedQueueIsBounded(q: seq<Node>, visited: nat, keep: int)
    ensures Bounded(PruneQueue(q, visited, keep).0, visited, keep)
    decreases QueueSize(q)
  {
    if q != [] {
      var n, v := q[0], Visit(q[0], visited);
      if n.children.Kids? && !AtBoundary(n, v, keep) {
        ExpandShrinks(q);
        PrunedQueueIsBounded(q[1..] + Nodes(n.children.items), v, keep);
        OpenedIsBounded(q, visited, keep);
      } else {
        PrunedQueueIsBounded(q[1..], v, keep);
        ClosedIsBounded(q, visited, keep);
      }
    }
  }

  lemma OpenedIsBounded(q: seq<Node>, visited: nat, keep: int)
    requires q != [] && q[0].children.Kids? && !AtBoundary(q[0], Visit(q[0], visited), keep)
    requires var v := Visit(q[0], visited);
             Bounded(PruneQueue(q[1..] + Nodes(q[0].children.items), v, keep).0, v, keep)
    ensures Bounded(PruneQueue(q, visited, keep).0, visited, keep)
  {
    hide PruneQueue;
    OpenedUnfolds(q, visited, keep);
    var n, v, k := q[0], Visit(q[0], visited), |q| - 1;
    var r := PruneQueue(q[1..] + Nodes(n.children.items), v, keep).0;
    var once := [Rejoined(n, r, k)] + r[..k];
    assert once[1..] + Nodes(once[0].children.items) == r[..k] + r[k..] == r;
  }

  lemma ClosedIsBounded(q: seq<Node>, visited: nat, keep: int)
    requires q != [] && (q[0].children.Kids? ==> AtBoundary(q[0], Visit(q[0], visited), keep))
    requires Bounded(PruneQueue(q[1..], Visit(q[0], visited), keep).0, Visit(q[0], visited), keep)
    ensures Bounded(PruneQueue(q, visited, keep).0, visited, keep)
  {
    var n, v := q[0], Visit(q[0], visited);
    ClosedUnfolds(q, visited, keep);
    if n.children.Kids? { CollectAclCollects(n.children.items, [], {}); }
    hide PruneQueue, CollectAcl, AclLeaves;
    var n' := if n.children.Kids? then Cut(n).0 else n;
    var r := PruneQueue(q[1..], v, keep).0;
    assert ([n'] + r)[1..] == r && Visit(n', visited) == v;
  }

  /** After pruning, a document node whose place in breadth-first order has reached the limit has no
      children but ACL leaves. */
  lemma PrunedTreeIsBounded(root: Node, keepCount: int)
    requires keepCount > 0
    ensures Bounded([Prune(root, keepCount).0], 0, keepCount)
  {
    PrunedQueueIsBounded([root], 0, keepCount);
    var r := PruneQueue([root], 0, keepCount).0;
    assert [r[0]] == r;
  }

  // ----- pruning twice

  lemma {:induction false} PutNewAppends(out: Record, cid: Cid, n: Node)
    requires cid !in Keys(out)
    ensures Put(out, cid, n) == out + [Item(cid, n)]
  {
    if out != [] {
      KeysCons(out);
      PutNewAppends(out[1..], cid, n);
    }
  }

  lemma {:induction false} CollectLeaves(items: Record, out: Record, pruned: set<Cid>)
    requires AclLeaves(items) && DistinctKeys(out + items)
    ensures CollectAcl(items, out, pruned) == (out + items, pruned)
    decreases items
  {
    if items == [] {
      assert out + items == out;
    } else {
      var Item(cid, n) := items[0];
      assert Leaf(n) == n;
      assert cid !in Keys(out) by {
        forall i | 0 <= i < |out| ensures out[i].cid != cid {
          assert out[i] == (out + items)[i] && items[0] == (out + items)[|out|];
        }
      }
      PutNewAppends(out, cid, n);
      assert (out + [items[0]]) + items[1..] == out + items;
      CollectLeaves(items[1..], out + [items[0]], pruned);
    }
  }

  lemma CutTwice(n: Node)
    requires n.children.Kids? && Cut(n).0.children.Kids?
    ensures Cut(Cut(n).0) == (Cut(n).0, {})
  {
    CollectAclCollects(n.children.items, [], {});
    var kept := CollectAcl(n.children.items, [], {}).0;
    assert [] + kept == kept;
    CollectLeaves(kept, [], {});
  }

  lemma {:induction false} PruneQueueTwice(q: seq<Node>, visited: nat, keep: int)
    ensures PruneQueue(PruneQueue(q, visited, keep).0, visited, keep) == (PruneQueue(q, visited, keep).0, {})
    decreases QueueSize(q)
  {
    if q != [] {
      var n, v, k := q[0], Visit(q[0], visited), |q| - 1;
      if n.children.Kids? && !AtBoundary(n, v, keep) {
        OpenedTwice(q, visited, keep);
      } else {
        PruneQueueTwice(q[1..], v, keep);
        var r := PruneQueue(q[1..], v, keep).0;
        var n' := if n.children.Kids? then Cut(n).0 else n;
        assert PruneQueue(q, visited, keep).0 == [n'] + r;
        assert ([n'] + r)[1..] == r && Visit(n', visited) == v;
        if n'.children.Kids? {
          CutTwice(n);
          assert AtBoundary(n', v, keep) && ([n'] + r)[0] == n';
          var none: set<Cid> := {};
          assert none + none == none;
          assert PruneQueue([n'] + r, visited, keep) ==
              ([Cut(n').0] + PruneQueue(r, v, keep).0, Cut(n').1 + PruneQueue(r, v, keep).1);
        }
      }
    }
  }

  lemma {:induction false} OpenedTwice(q: seq<Node>, visited: nat, keep: int)
    requires q != [] && q[0].children.Kids? && !AtBoundary(q[0], Visit(q[0], visited), keep)
    ensures PruneQueue(PruneQueue(q, visited, keep).0, visited, keep) == (PruneQueue(q, visited, keep).0, {})
    decreases QueueSize(q), 0
  {
    hide PruneQueue;
    var n, v, k := q[0], Visit(q[0], visited), |q| - 1;
    var q' := q[1..] + Nodes(n.children.items);
    OpenedUnfolds(q, visited, keep);
    ExpandShrinks(q);
    PruneQueueTwice(q', v, keep);
    var r := PruneQueue(q', v, keep).0;
    var n' := Rejoined(n, r, k);
    var once := [n'] + r[..k];
    assert once[1..] + Nodes(n'.children.items) == r[..k] + r[k..] == r;
    assert Rejoined(n', r, k) == n';
    OpenedUnfolds(once, visited, keep);
  }

  /** Pruning again with the same limit changes nothing and reports nothing. */
  lemma PruneTwice(root: Node, keepCount: int)
    ensures Prune(Prune(root, keepCount).0, keepCount) == (Prune(root, keepCount).0, {})
  {
    if keepCount > 0 {
      PruneQueueTwice([root], 0, keepCount);
      var r := PruneQueue([root], 0, keepCount).0;
      assert [r[0]] == r;
    }
  }

  // ----- pruning in place never grows a node

  /** One for every node and one for every list of children, an empty or a deferred one too. */
  function Weight(n: Node): nat
    decreases n
  {
    1 + match n.children
        case Absent => 0
        case Deferred => 1
        case Kids(items) => 1 + WeightOf(items)
  }

  function WeightOf(items: Record): nat
    decreases items
  {
    if items == [] then 0 else Weight(items[0].node) + WeightOf(items[1..])
  }

  /** The node is as it was, or has lost something for good. */
  ghost predicate Shrunk(n: Node, n': Node) {
    n' == n || Weight(n') < Weight(n)
  }

  lemma {:induction false} PutGrowsByOne(out: Record, cid: Cid, n: Node)
    ensures |Put(out, cid, n)| <= |out| + 1
    ensures |Put(out, cid, n)| == |out| + 1 ==> Put(out, cid, n) == out + [Item(cid, n)]
  {
    if out != [] && out[0].cid != cid { PutGrowsByOne(out[1..], cid, n); }
  }

  lemma {:induction false} CollectShrinks(items: Record, out: Record, pruned: set<Cid>)
    ensures var o := CollectAcl(items, out, pruned).0;
            |o| <= |out| + WeightOf(items) && (|o| == |out| + WeightOf(items) ==> o == out + items)
    decreases items
  {
    if items != [] {
      hide Put;
      var Item(cid, n) := items[0];
      var (o1, p1) := if IsAcl(n) then (Put(out, cid, Leaf(n)), pruned) else (out, pruned + {cid});
      var (o2, p2) := CollectBelow(n, o1, p1);
      PutGrowsByOne(out, cid, Leaf(n));
      CollectBelowShrinks(n, o1, p1);
      CollectShrinks(items[1..], o2, p2);
      var o := CollectAcl(items, out, pruned).0;
      if |o| == |out| + WeightOf(items) {
        assert out + [items[0]] + items[1..] == out + items;
      }
    }
  }

  lemma {:induction false} CollectBelowShrinks(n: Node, out: Record, pruned: set<Cid>)
    ensures var o := CollectBelow(n, out, pruned).0;
            |o| + 1 <= |out| + Weight(n) && (|o| + 1 == |out| + Weight(n) ==> o == out && n == Leaf(n))
    decreases n
  {
    if n.children.Kids? { CollectShrinks(n.children.items, out, pruned); }
  }

  lemma {:induction false} LeavesWeigh(items: Record)
    requires AclLeaves(items)
    ensures WeightOf(items) == |items|
  {
    if items != [] {
      assert AclLeaves(items[1..]) by { assert forall i :: 0 <= i < |items[1..]| ==> items[1..][i] == items[i + 1]; }
      LeavesWeigh(items[1..]);
    }
  }

  lemma CutShrinks(n: Node)
    requires n.children.Kids?
    ensures Shrunk(n, Cut(n).0)
  {
    var items := n.children.items;
    var kept := CollectAcl(items, [], {}).0;
    CollectAclCollects(items, [], {});
    CollectShrinks(items, [], {});
    LeavesWeigh(kept);
    assert [] + items == items;
  }

  lemma {:induction false} RecordShrinks(items: Record, ns: seq<Node>)
    requires |ns| == |items| && forall i :: 0 <= i < |ns| ==> Shrunk(items[i].node, ns[i])
    ensures WeightOf(WithNodes(items, ns)) < WeightOf(items) || WithNodes(items, ns) == items
  {
    if items != [] {
      hide Weight;
      RecordShrinks(items[1..], ns[1..]);
      var r := WithNodes(items, ns);
      assert r[1..] == WithNodes(items[1..], ns[1..]);
      assert Shrunk(items[0].node, ns[0]);
      assert r == [r[0]] + r[1..] && items == [items[0]] + items[1..];
    }
  }

  /** Whatever else is in the queue, the loop leaves each queued node as it was or smaller. */
  lemma {:induction false} PruneQueueShrinks(q: seq<Node>, visited: nat, keep: int)
    ensures var r := PruneQueue(q, visited, keep).0; forall i :: 0 <= i < |q| ==> Shrunk(q[i], r[i])
    decreases QueueSize(q)
  {
    if q != [] {
      hide Shrunk;
      var n, v := q[0], Visit(q[0], visited);
      if n.children.Kids? && !AtBoundary(n, v, keep) {
        OpenedShrinks(q, visited, keep);
      } else {
        hide Cut;
        PruneQueueShrinks(q[1..], v, keep);
        var r := PruneQueue(q[1..], v, keep).0;
        if n.children.Kids? { CutShrinks(n); } else { ShrunkSame(n); }
        var n' := if n.children.Kids? then Cut(n).0 else n;
        forall i | 0 <= i < |q| ensures Shrunk(q[i], ([n'] + r)[i]) {
          if i > 0 { assert q[i] == q[1..][i - 1] && ([n'] + r)[i] == r[i - 1]; }
        }
      }
    }
  }

  lemma ShrunkSame(n: Node)
    ensures Shrunk(n, n)
  {
  }

  lemma {:induction false} OpenedShrinks(q: seq<Node>, visited: nat, keep: int)
    requires q != [] && q[0].children.Kids? && !AtBoundary(q[0], Visit(q[0], visited), keep)
    ensures var r := PruneQueue(q, visited, keep).0; forall i :: 0 <= i < |q| ==> Shrunk(q[i], r[i])
    decreases QueueSize(q), 0
  {
    hide PruneQueue, Shrunk, AtBoundary;
    var n, v, k := q[0], Visit(q[0], visited), |q| - 1;
    var items := n.children.items;
    var q' := q[1..] + Nodes(items);
    OpenedUnfolds(q, visited, keep);
    ExpandShrinks(q);
    PruneQueueShrinks(q', v, keep);
    var r := PruneQueue(q', v, keep).0;
    forall i | 0 <= i < |items| ensures Shrunk(items[i].node, r[k..][i]) {
      assert q'[k + i] == items[i].node;
    }
    RejoinedShrinks(n, r, k);
    var once := [Rejoined(n, r, k)] + r[..k];
    forall i | 0 <= i < |q| ensures Shrunk(q[i], once[i]) {
      if i > 0 { assert q[i] == q'[i - 1] && once[i] == r[i - 1]; }
    }
  }

  lemma RejoinedShrinks(n: Node, r: seq<Node>, k: nat)
    requires n.children.Kids? && |r| == k + |n.children.items|
    requires forall i :: 0 <= i < |n.children.items| ==> Shrunk(n.children.items[i].node, r[k..][i])
    ensures Shrunk(n, Rejoined(n, r, k))
  {
    RecordShrinks(n.children.items, r[k..]);
  }

  // ----- garbage collection

  /** Opening a node moves its children's CIDs out of the queue. */
  lemma CidsOpened(n: Node, rest: seq<Node>)
    requires n.children.Kids?
    ensures Cids(BelowAll([n] + rest)) == Keys(n.children.items) + Cids(BelowAll(rest + Nodes(n.children.items)))
  {
    var items := n.children.items;
    BelowOpened(n, rest);
    CidsUnion(Roots(items), BelowAll(rest + Nodes(items)));
    assert Cids(Roots(items)) == Keys(items) by {
      forall i | 0 <= i < |items| ensures items[i].cid in Cids(Roots(items)) {
        assert (items[i].cid, items[i].node.kind, items[i].node.content) in Roots(items);
      }
    }
  }

  lemma CidsClosed(n: Node, rest: seq<Node>)
    requires !n.children.Kids?
    ensures Cids(BelowAll([n] + rest)) == Cids(BelowAll(rest))
  {
    assert ([n] + rest)[1..] == rest;
  }

  lemma CidsOfTree(rootCid: Cid, root: Node)
    ensures {rootCid} + Cids(BelowAll([root])) == TreeCids(rootCid, root)
    ensures Cids(BelowAll([])) == {}
  {
    assert BelowAll([root]) == Below(root);
  }

  /** `collectTreeCIDs`: the queue loop finds exactly the reachable CIDs. */
  method CollectTreeCids(rootCid: Cid, root: Node) returns (cids: set<Cid>)
    ensures cids == TreeCids(rootCid, root)
  {
    hide Cids, BelowAll, Keys, TreeCids, QueueSize;
    cids := {rootCid};
    var queue, qi := [root], 0;
    CidsOfTree(rootCid, root);
    assert queue[qi..] == [root];
    while qi < |queue|
      invariant 0 <= qi <= |queue|
      invariant cids + Cids(BelowAll(queue[qi..])) == TreeCids(rootCid, root)
      decreases QueueSize(queue[qi..])
    {
      var current := queue[qi];
      ghost var pending := queue[qi..];
      assert pending == [current] + pending[1..] && pending[1..] == queue[qi + 1..];
      qi := qi + 1;
      if current.children.Kids? {
        var items := current.children.items;
        CidsOpened(current, pending[1..]);
        ExpandShrinks(pending);
        ghost var before := cids;
        NoKeys(items);
        for i := 0 to |items|
          invariant cids == before + Keys(items[..i])
          invariant qi <= |queue| && queue[qi..] == pending[1..] + Nodes(items)[..i]
        {
          KeysSnoc(items, i);
          cids := cids + {items[i].cid};
          queue := queue + [items[i].node];
        }
        assert items[..|items|] == items && Nodes(items)[..|items|] == Nodes(items);
      } else {
        CidsClosed(current, pending[1..]);
        QueueSizeDrops(pending);
      }
    }
    assert queue[qi..] == [];
  }

  lemma NoKeys(items: Record)
    ensures Keys(items[..0]) == {}
  {
  }

  lemma KeysSnoc(items: Record, i: nat)
    requires i < |items|
    ensures Keys(items[..i + 1]) == Keys(items[..i]) + {items[i].cid}
  {
    var a, b := items[..i + 1], items[..i];
    forall c | c in Keys(a) ensures c in Keys(b) + {items[i].cid} {
      var j :| 0 <= j < |a| && a[j].cid == c;
      if j < i { assert b[j].cid == c; }
    }
    forall c | c in Keys(b) ensures c in Keys(a) {
      var j :| 0 <= j < |b| && b[j].cid == c;
      assert a[j].cid == c;
    }
    assert a[i].cid == items[i].cid;
  }

  /** `filterDeletableCIDs`; an empty root CID or a missing root protects nothing. */
  method FilterDeletableCids(candidates: set<Cid>, rootCid: Cid, root: Option<Node>, protectedCids: set<Cid>)
    returns (out: set<Cid>)
    ensures out == candidates - protectedCids -
      (if rootCid != "" && root.Some? then TreeCids(rootCid, root.value) else {})
  {
    var reachable: set<Cid> := {};
    if rootCid != "" && root.Some? {
      reachable := CollectTreeCids(rootCid, root.value);
    }
    out := {};
    var rest := candidates;
    while rest != {}
      invariant rest <= candidates && out == candidates - rest - reachable - protectedCids
    {
      var cid :| cid in rest;
      rest := rest - {cid};
      if cid !in reachable && cid !in protectedCids {
        out := out + {cid};
      }
    }
  }

  /** The pruning and collecting part of `snapshot()`. `boundary` is the head of the tree when the
      snapshot was captured; a sync that arrived while it was being signed may have put another root
      above it. Without a root CID nothing is pruned. The set handed to block deletion is exactly the
      set of CIDs that were in the tree and no longer are, without the boundary; it holds no ACL CID. */
  method PruneAndCollect(rootCid: Cid, root: Node, keepRecentNodes: int, boundary: Cid)
    returns (root': Node, deletable: set<Cid>)
    ensures root' == if rootCid == "" then root else Prune(root, keepRecentNodes).0
    ensures deletable ==
            TreeCids(rootCid, root) - TreeCids(rootCid, root') - (if boundary == "" then {} else {boundary})
    ensures deletable !! AclCids(Below(root))
    ensures rootCid !in deletable && forall e :: e in Below(root') ==> e.0 !in deletable
  {
    if rootCid == "" { return root, {}; }
    var pruned;
    root', pruned := PruneChanges(root, keepRecentNodes);
    var protectedCids := if boundary == "" then {} else {boundary};
    deletable := FilterDeletableCids(pruned, rootCid, Some(root'), protectedCids);
    PruneConserves(root, keepRecentNodes);
    CidsSplit(Below(root'));
  }

  /** The protection is needed: pruned to its root, a tree loses every document node below, among them
      the old head of a snapshot whose signing a sync overtook. */
  lemma OldHeadNeedsProtection(rootCid: Cid, root: Node, boundary: Cid)
    requires !IsAcl(root) && OneKind(Below(root))
    requires boundary in DocumentCids(Below(root)) && boundary != rootCid
    ensures boundary in TreeCids(rootCid, root) - TreeCids(rootCid, Prune(root, 1).0)
  {
    var root' := Prune(root, 1).0;
    PruneConserves(root, 1);
    CidsSplit(Below(root));
    assert PruneQueue([root], 0, 1).0[0] == Cut(root).0;
    CollectAclCollects(root.children.items, [], {});
    var kept := CollectAcl(root.children.items, [], {}).0;
    LeavesAreTheirEntries(kept);
    assert Below(root') == Entries(kept);
  }
}
