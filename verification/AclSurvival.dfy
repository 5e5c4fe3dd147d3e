/**
 Which ACL changes survive a pruning (`collectACLNodes` in collabswarm-document.ts). A tree can hold the
 same CID more than once: a cross-link repeats a CID without its change. Collected nodes are stored under
 their CID, so of all copies below one boundary node the last one wins, with or without a change.
 */
module AclSurvival {
  import opened ChangeTree
  import opened Compaction

  type Entry = (Cid, Kind, Content)

  ghost function EntryOf(item: Item): Entry {
    (item.cid, item.node.kind, item.node.content)
  }

  /** The entries of a forest in the order in which `collectACLNodes` meets them. */
  ghost function Walk(items: Record): seq<Entry>
    decreases items
  {
    if items == [] then [] else [EntryOf(items[0])] + WalkBelow(items[0].node) + Walk(items[1..])
  }

  ghost function WalkBelow(n: Node): seq<Entry>
    decreases n
  {
    if n.children.Kids? then Walk(n.children.items) else []
  }

  ghost predicate NamesAcl(e: Entry, cid: Cid) {
    e.1 != Document && e.0 == cid
  }

  /** No ACL entry of the list has the CID. */
  ghost predicate Unnamed(es: seq<Entry>, cid: Cid) {
    forall i :: 0 <= i < |es| ==> !NamesAcl(es[i], cid)
  }

  /** The last ACL entry with the CID of `e` is `e`. */
  ghost predicate LastCopy(es: seq<Entry>, e: Entry) {
    e.1 != Document && exists i :: 0 <= i < |es| && es[i] == e && Unnamed(es[i + 1..], e.0)
  }

  // ----- one boundary node

  ghost function PutEntry(out: Record, e: Entry): Record {
    if e.1 == Document then out else Put(out, e.0, Node(e.1, e.2, Absent))
  }

  ghost function PutAll(out: Record, es: seq<Entry>): Record
    decreases es
  {
    if es == [] then out else PutAll(PutEntry(out, es[0]), es[1..])
  }

  lemma {:induction false} PutAllConcat(out: Record, a: seq<Entry>, b: seq<Entry>)
    ensures PutAll(out, a + b) == PutAll(PutAll(out, a), b)
    decreases a
  {
    if a == [] {
      assert a + b == b;
    } else {
      PutAllConcat(PutEntry(out, a[0]), a[1..], b);
      assert (a + b)[1..] == a[1..] + b;
    }
  }

  /** Collecting stores the entries of the walk one by one. */
  lemma {:induction false} CollectStoresWalk(items: Record, out: Record, pruned: set<Cid>)
    ensures CollectAcl(items, out, pruned).0 == PutAll(out, Walk(items))
    decreases items
  {
    if items != [] {
      hide Put, PutAll;
      var Item(cid, n) := items[0];
      var (o1, p1) := if IsAcl(n) then (Put(out, cid, Leaf(n)), pruned) else (out, pruned + {cid});
      PutAllOne(out, EntryOf(items[0]));
      CollectBelowStoresWalk(n, o1, p1);
      var (o2, p2) := CollectBelow(n, o1, p1);
      CollectStoresWalk(items[1..], o2, p2);
      PutAllConcat(out, [EntryOf(items[0])], WalkBelow(n));
      PutAllConcat(out, [EntryOf(items[0])] + WalkBelow(n), Walk(items[1..]));
    }
  }

  lemma PutAllOne(out: Record, e: Entry)
    ensures PutAll(out, [e]) == PutEntry(out, e)
  {
    assert PutAll(PutEntry(out, e), [e][1..]) == PutEntry(out, e);
  }

  lemma {:induction false} CollectBelowStoresWalk(n: Node, out: Record, pruned: set<Cid>)
    ensures CollectBelow(n, out, pruned).0 == PutAll(out, WalkBelow(n))
    decreases n
  {
    if n.children.Kids? { CollectStoresWalk(n.children.items, out, pruned); }
  }

  lemma RootsCons(items: Record)
    requires items != []
    ensures Roots(items) == {EntryOf(items[0])} + Roots(items[1..])
  {
    forall e | e in Roots(items) ensures e in {EntryOf(items[0])} + Roots(items[1..]) {
      var i :| 0 <= i < |items| && e == EntryOf(items[i]);
      if i > 0 { assert items[1..][i - 1] == items[i]; }
    }
    forall e | e in Roots(items[1..]) ensures e in Roots(items) {
      var i :| 0 <= i < |items[1..]| && e == EntryOf(items[1..][i]);
      assert items[i + 1] == items[1..][i];
    }
    assert EntryOf(items[0]) in Roots(items);
  }

  /** Storing an entry replaces the one with its CID and no other. */
  lemma {:induction false} PutReplaces(out: Record, cid: Cid, n: Node, e: Entry)
    requires DistinctKeys(out)
    ensures e in Roots(Put(out, cid, n)) <==> e == (cid, n.kind, n.content) || (e in Roots(out) && e.0 != cid)
  {
    hide Roots;
    var r := Put(out, cid, n);
    RootsCons(r);
    if out == [] {
      assert r[1..] == [];
      NoRoots();
    } else {
      RootsCons(out);
      if out[0].cid == cid {
        assert r[1..] == out[1..];
        if e in Roots(out[1..]) { KeysOfRoots(out[1..], e); }
        assert cid !in Keys(out[1..]);
      } else {
        assert r[1..] == Put(out[1..], cid, n);
        PutReplaces(out[1..], cid, n, e);
      }
    }
  }

  lemma NoRoots()
    ensures Roots([]) == {}
  {
  }

  lemma KeysOfRoots(items: Record, e: Entry)
    requires e in Roots(items)
    ensures e.0 in Keys(items)
  {
  }

  lemma {:induction false} PutAllKeepsLast(out: Record, es: seq<Entry>, e: Entry)
    requires DistinctKeys(out)
    ensures e in Roots(PutAll(out, es)) <==> LastCopy(es, e) || (e in Roots(out) && Unnamed(es, e.0))
    decreases es
  {
    hide Roots, DistinctKeys, LastCopy, Unnamed, NamesAcl, Put;
    if es == [] {
      LastOfNone(e);
    } else {
      var first := es[0];
      var leaf := Node(first.1, first.2, Absent);
      if first.1 != Document {
        PutStaysDistinct(out, first.0, leaf);
        PutReplaces(out, first.0, leaf, e);
      }
      PutAllKeepsLast(PutEntry(out, first), es[1..], e);
      LastCons(es, e);
    }
  }

  lemma LastOfNone(e: Entry)
    ensures !LastCopy([], e) && Unnamed([], e.0)
  {
  }

  lemma LastCons(es: seq<Entry>, e: Entry)
    requires es != []
    ensures LastCopy(es, e) <==> LastCopy(es[1..], e) || (e.1 != Document && es[0] == e && Unnamed(es[1..], e.0))
    ensures Unnamed(es, e.0) <==> !NamesAcl(es[0], e.0) && Unnamed(es[1..], e.0)
    ensures NamesAcl(es[0], e.0) <==> es[0].1 != Document && es[0].0 == e.0
  {
    assert es == [es[0]] + es[1..];
    LastConsIff(es, e);
  }

  lemma LastConsIff(es: seq<Entry>, e: Entry)
    requires es != []
    ensures LastCopy(es, e) <==> LastCopy(es[1..], e) || (e.1 != Document && es[0] == e && Unnamed(es[1..], e.0))
  {
    hide Unnamed;
    var rest := es[1..];
    if LastCopy(es, e) {
      var i :| 0 <= i < |es| && es[i] == e && Unnamed(es[i + 1..], e.0);
      if i > 0 { assert rest[i - 1] == e && rest[i..] == es[i + 1..]; }
    }
    if LastCopy(rest, e) {
      var i :| 0 <= i < |rest| && rest[i] == e && Unnamed(rest[i + 1..], e.0);
      assert es[i + 1] == e && es[i + 2..] == rest[i + 1..];
    }
  }

  lemma {:induction false} LeavesAreRoots(items: Record)
    requires AclLeaves(items)
    ensures Entries(items) == Roots(items)
  {
    if items == [] {
      NoRoots();
    } else {
      assert AclLeaves(items[1..]) by { assert forall i :: 0 <= i < |items[1..]| ==> items[1..][i] == items[i + 1]; }
      LeavesAreRoots(items[1..]);
      RootsCons(items);
      assert Below(items[0].node) == {};
    }
  }

  /** A boundary node keeps of its subtree exactly the last copy of each ACL node. */
  lemma CutKeepsLast(n: Node, e: Entry)
    requires n.children.Kids?
    ensures e in Below(Cut(n).0) <==> LastCopy(WalkBelow(n), e)
  {
    hide LastCopy, Unnamed, Roots, PutAll;
    var items := n.children.items;
    var kept := CollectAcl(items, [], {}).0;
    CollectAclCollects(items, [], {});
    CollectStoresWalk(items, [], {});
    PutAllKeepsLast([], WalkBelow(n), e);
    NoRoots();
    LeavesAreRoots(kept);
  }

  // ----- the whole tree

  /** The nodes that the loop cuts, with the subtrees they had. */
  ghost function Boundaries(q: seq<Node>, visited: nat, keep: int): (bs: seq<Node>)
    ensures forall i :: 0 <= i < |bs| ==> bs[i].children.Kids?
    decreases QueueSize(q)
  {
    if q == [] then []
    else
      var n, v := q[0], Visit(q[0], visited);
      if !n.children.Kids? then Boundaries(q[1..], v, keep)
      else if AtBoundary(n, v, keep) then [n] + Boundaries(q[1..], v, keep)
      else
        ExpandShrinks(q);
        Boundaries(q[1..] + Nodes(n.children.items), v, keep)
  }

  /** The entries that hang directly from nodes the loop leaves open. */
  ghost function Spared(q: seq<Node>, visited: nat, keep: int): EntrySet
    decreases QueueSize(q)
  {
    if q == [] then {}
    else
      var n, v := q[0], Visit(q[0], visited);
      if !n.children.Kids? || AtBoundary(n, v, keep) then Spared(q[1..], v, keep)
      else
        ExpandShrinks(q);
        Roots(n.children.items) + Spared(q[1..] + Nodes(n.children.items), v, keep)
  }

  ghost function CutAll(bs: seq<Node>): seq<Node>
    requires forall i :: 0 <= i < |bs| ==> bs[i].children.Kids?
  {
    seq(|bs|, i requires 0 <= i < |bs| => Cut(bs[i]).0)
  }

  /** Before and after, a queue holds what is spared and what hangs from the boundary nodes. */
  ghost predicate CutsBoundaries(q: seq<Node>, r: seq<Node>, bs: seq<Node>, spared: EntrySet)
    requires forall i :: 0 <= i < |bs| ==> bs[i].children.Kids?
  {
    BelowAll(q) == spared + BelowAll(bs) && BelowAll(r) == spared + BelowAll(CutAll(bs))
  }

  lemma {:induction false} PruneCutsBoundaries(q: seq<Node>, visited: nat, keep: int)
    ensures CutsBoundaries(q, PruneQueue(q, visited, keep).0, Boundaries(q, visited, keep), Spared(q, visited, keep))
    decreases QueueSize(q)
  {
    if q != [] {
      var n, v := q[0], Visit(q[0], visited);
      if n.children.Kids? && !AtBoundary(n, v, keep) {
        OpenedCutsBoundaries(q, visited, keep);
      } else {
        PruneCutsBoundaries(q[1..], v, keep);
        if n.children.Kids? { CutCutsBoundaries(q, visited, keep); } else { ClosedCutsBoundaries(q, visited, keep); }
      }
    }
  }

  lemma CutCutsBoundaries(q: seq<Node>, visited: nat, keep: int)
    requires q != [] && q[0].children.Kids? && AtBoundary(q[0], Visit(q[0], visited), keep)
    requires var v := Visit(q[0], visited);
             CutsBoundaries(q[1..], PruneQueue(q[1..], v, keep).0, Boundaries(q[1..], v, keep), Spared(q[1..], v, keep))
    ensures CutsBoundaries(q, PruneQueue(q, visited, keep).0, Boundaries(q, visited, keep), Spared(q, visited, keep))
  {
    var n, v := q[0], Visit(q[0], visited);
    CutUnfolds(q, visited, keep);
    hide Cut, Below, BelowAll, PruneQueue, Boundaries, Spared, CutAll;
    var r, bs := PruneQueue(q[1..], v, keep).0, Boundaries(q[1..], v, keep);
    BelowCons(n, q[1..]);
    assert q == [n] + q[1..];
    BelowCons(Cut(n).0, r);
    BelowCons(n, bs);
    CutAllCons(n, bs);
    BelowCons(Cut(n).0, CutAll(bs));
    UnionSwap(Below(n), Spared(q[1..], v, keep), BelowAll(bs));
    UnionSwap(Below(Cut(n).0), Spared(q[1..], v, keep), BelowAll(CutAll(bs)));
  }

  lemma UnionSwap(a: EntrySet, b: EntrySet, c: EntrySet)
    ensures a + (b + c) == b + (a + c)
  {
  }

  lemma CutUnfolds(q: seq<Node>, visited: nat, keep: int)
    requires q != [] && q[0].children.Kids? && AtBoundary(q[0], Visit(q[0], visited), keep)
    ensures var v := Visit(q[0], visited);
            && PruneQueue(q, visited, keep).0 == [Cut(q[0]).0] + PruneQueue(q[1..], v, keep).0
            && Boundaries(q, visited, keep) == [q[0]] + Boundaries(q[1..], v, keep)
            && Spared(q, visited, keep) == Spared(q[1..], v, keep)
  {
    hide Cut;
  }

  lemma BelowCons(n: Node, q: seq<Node>)
    ensures BelowAll([n] + q) == Below(n) + BelowAll(q)
  {
    hide Below;
    assert ([n] + q)[1..] == q;
  }

  lemma CutAllCons(n: Node, bs: seq<Node>)
    requires n.children.Kids? && forall i :: 0 <= i < |bs| ==> bs[i].children.Kids?
    ensures CutAll([n] + bs) == [Cut(n).0] + CutAll(bs)
  {
    hide Cut;
  }

  lemma ClosedCutsBoundaries(q: seq<Node>, visited: nat, keep: int)
    requires q != [] && !q[0].children.Kids?
    requires var v := Visit(q[0], visited);
             CutsBoundaries(q[1..], PruneQueue(q[1..], v, keep).0, Boundaries(q[1..], v, keep), Spared(q[1..], v, keep))
    ensures CutsBoundaries(q, PruneQueue(q, visited, keep).0, Boundaries(q, visited, keep), Spared(q, visited, keep))
  {
    hide Below, CutAll;
    var n, r := q[0], PruneQueue(q[1..], Visit(q[0], visited), keep).0;
    NothingBelow(n);
    assert ([n] + r)[1..] == r;
  }

  lemma NothingBelow(n: Node)
    requires !n.children.Kids?
    ensures Below(n) == {}
  {
  }

  lemma OpenedSpares(q: seq<Node>, visited: nat, keep: int)
    requires q != [] && q[0].children.Kids? && !AtBoundary(q[0], Visit(q[0], visited), keep)
    ensures var q', v := q[1..] + Nodes(q[0].children.items), Visit(q[0], visited);
            && Boundaries(q, visited, keep) == Boundaries(q', v, keep)
            && Spared(q, visited, keep) == Roots(q[0].children.items) + Spared(q', v, keep)
  {
  }

  lemma {:induction false} OpenedCutsBoundaries(q: seq<Node>, visited: nat, keep: int)
    requires q != [] && q[0].children.Kids? && !AtBoundary(q[0], Visit(q[0], visited), keep)
    ensures CutsBoundaries(q, PruneQueue(q, visited, keep).0, Boundaries(q, visited, keep), Spared(q, visited, keep))
    decreases QueueSize(q), 0
  {
    hide PruneQueue, BelowAll, Roots, CutAll, AtBoundary, Boundaries, Spared, Entries, QueueSize;
    var q', v := q[1..] + Nodes(q[0].children.items), Visit(q[0], visited);
    OpenedSpares(q, visited, keep);
    ExpandShrinks(q);
    PruneCutsBoundaries(q', v, keep);
    OpenedBelow(q, visited, keep);
  }

  lemma {:induction false} InBelowAll(q: seq<Node>, e: Entry)
    ensures e in BelowAll(q) <==> exists i :: 0 <= i < |q| && e in Below(q[i])
  {
    if q != [] {
      InBelowAll(q[1..], e);
      assert forall i :: 1 <= i < |q| ==> q[i] == q[1..][i - 1];
      assert forall i :: 0 <= i < |q[1..]| ==> q[1..][i] == q[i + 1];
    }
  }

  /** The nodes that pruning a tree cuts, and the entries that hang from the others. */
  ghost function CutNodes(root: Node, keepCount: int): (bs: seq<Node>)
    ensures forall i :: 0 <= i < |bs| ==> bs[i].children.Kids?
  {
    if keepCount <= 0 then [] else Boundaries([root], 0, keepCount)
  }

  ghost function SparedEntries(root: Node, keepCount: int): EntrySet {
    if keepCount <= 0 then Below(root) else Spared([root], 0, keepCount)
  }

  /** For every tree and limit: an entry is in the tree if it hangs from a node left open or is below a
      boundary node; it survives exactly if it hangs from a node left open, or is the last copy of an ACL
      node below some boundary node. */
  lemma EntrySurvivesIff(root: Node, keepCount: int, e: Entry)
    ensures var bs, spared := CutNodes(root, keepCount), SparedEntries(root, keepCount);
            && (e in Below(root) <==> e in spared || exists i :: 0 <= i < |bs| && e in Below(bs[i]))
            && (e in Below(Prune(root, keepCount).0) <==>
                  e in spared || exists i :: 0 <= i < |bs| && LastCopy(WalkBelow(bs[i]), e))
  {
    if keepCount > 0 {
      hide Below, LastCopy, Cut, WalkBelow;
      PruneCutsBoundaries([root], 0, keepCount);
      var bs := CutNodes(root, keepCount);
      var r := PruneQueue([root], 0, keepCount).0;
      assert BelowAll([root]) == Below(root) && BelowAll(r) == Below(r[0]);
      InBelowAll(bs, e);
      InBelowAll(CutAll(bs), e);
      forall i | 0 <= i < |bs| ensures e in Below(CutAll(bs)[i]) <==> LastCopy(WalkBelow(bs[i]), e) {
        CutKeepsLast(bs[i], e);
      }
    }
  }

  /** Where each ACL CID has one kind and one content, as in a tree without cross-links, every ACL node
      survives with its change, however deep it sat. */
  lemma EveryAclChangeSurvives(root: Node, keepCount: int, e: Entry)
    requires e in Below(root) && e.1 != Document
    requires forall d :: d in Below(root) && NamesAcl(d, e.0) ==> d == e
    ensures e in Below(Prune(root, keepCount).0)
  {
    PruneConserves(root, keepCount);
    assert e.0 in AclCids(Below(root));
    var d :| d in Below(Prune(root, keepCount).0) && d.1 != Document && d.0 == e.0;
    assert NamesAcl(d, e.0);
  }

  lemma CollectOneLeaf(items: Record, out: Record, pruned: set<Cid>)
    requires |items| == 1 && IsAcl(items[0].node) && items[0].node.children.Absent?
    requires out == [] || (|out| == 1 && out[0].cid == items[0].cid)
    ensures CollectAcl(items, out, pruned) == (items, pruned)
  {
    assert items[1..] == [] && (out != [] ==> out[1..] == []);
    assert Put(out, items[0].cid, Leaf(items[0].node)) == items;
    assert CollectAcl(items[1..], items, pruned) == (items, pruned);
  }

  /** A cross-link loses an ACL change. A reader `A` is added and two document changes follow; the second
      links back to `A` without its change. Pruning to one node leaves only that link. */
  lemma CrossLinkLosesAclChange(full: Content, stub: Content, c1: Content, c2: Content)
    requires full != stub
    ensures var first := Node(Document, c1, Kids([Item("A", Node(Reader, full, Absent))]));
            var root := Node(Document, c2, Kids([Item("D", first), Item("A", Node(Reader, stub, Absent))]));
            && OneKind(Below(root))
            && ("A", Reader, full) in Below(root)
            && ("A", Reader, full) !in Below(Prune(root, 1).0)
            && Below(Prune(root, 1).0) == {("A", Reader, stub)}
  {
    var inner := [Item("A", Node(Reader, full, Absent))];
    var first := Node(Document, c1, Kids(inner));
    var outer := [Item("D", first), Item("A", Node(Reader, stub, Absent))];
    var root := Node(Document, c2, Kids(outer));
    assert inner[1..] == [] && Below(first) == Entries(inner) == {("A", Reader, full)};
    assert outer[1..] == [Item("A", Node(Reader, stub, Absent))] && outer[1..][1..] == [];
    assert Entries(outer[1..]) == {("A", Reader, stub)};
    assert Below(root) == {("D", Document, c1)} + Below(first) + Entries(outer[1..])
        by { assert Below(root) == Entries(outer); }
    assert Below(root) == {("D", Document, c1), ("A", Reader, full), ("A", Reader, stub)};
    assert OneKind(Below(root)) by {
      assert forall c :: c in AclCids(Below(root)) ==> c == "A";
      assert forall c :: c in DocumentCids(Below(root)) ==> c == "D";
      assert "A"[0] != "D"[0];
    }
    CollectOneLeaf(inner, [], {} + {"D"});
    CollectOneLeaf(outer[1..], inner, {} + {"D"});
    assert CollectAcl(outer, [], {}) == (outer[1..], {} + {"D"});
    assert [root][1..] == [];
    assert Prune(root, 1).0 == root.(children := Kids(outer[1..]));
  }
}
