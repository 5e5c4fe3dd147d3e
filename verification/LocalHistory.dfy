/**
 How many changes a pruning leaves in a history of local changes (`_makeChange` and `_pruneChanges` in
 collabswarm-document.ts). Each change holds the previous head with its whole subtree as its first child
 and, as further children, cross-links: recent tips without change and without children. The limit of a
 pruning counts cross-links like changes.
 */
module LocalHistory {
  import opened ChangeTree
  import opened Compaction

  predicate Stub(n: Node) {
    n.children == Absent
  }

  predicate Stubs(ns: seq<Node>) {
    forall i :: 0 <= i < |ns| ==> Stub(ns[i])
  }

  /** The shape of a history of local changes, of any kinds. */
  predicate Local(n: Node)
    decreases n
  {
    n.children == Absent ||
    (n.children.Kids? && n.children.items != [] && Local(n.children.items[0].node) && Stubs(Links(n)))
  }

  /** The children of a node after the first. */
  function Links(n: Node): seq<Node>
    requires n.children.Kids? && n.children.items != []
  {
    Nodes(n.children.items[1..])
  }

  /** The document changes along first children, newest first. */
  function Changes(n: Node): seq<Content>
    decreases n
  {
    (if IsAcl(n) then [] else [n.content]) +
    (if n.children.Kids? && n.children.items != [] then Changes(n.children.items[0].node) else [])
  }

  function Documents(ns: seq<Node>): nat {
    if ns == [] then 0 else (if IsAcl(ns[0]) then 0 else 1) + Documents(ns[1..])
  }

  /** The places of those changes in breadth-first order, counting document nodes only. The cross-links
      beside a node (`beside`) come before its children, and `visited` document nodes came before it. */
  function Places(n: Node, beside: seq<Node>, visited: nat): seq<nat>
    decreases n
  {
    var v := Visit(n, visited);
    (if IsAcl(n) then [] else [v]) +
    (if n.children.Kids? && n.children.items != [] then
       Places(n.children.items[0].node, Links(n), v + Documents(beside))
     else [])
  }

  // ----- the shape is kept

  /** The tree of a new local change; a cross-link that is already a child is left out. */
  function MakeChange(kind: Kind, content: Content, headCid: Cid, head: Node, links: Record): Node {
    Node(kind, content, Kids(LinksAdded([Item(headCid, head)], links)))
  }

  function LinksAdded(children: Record, links: Record): Record
    decreases links
  {
    if links == [] then children
    else if exists i :: 0 <= i < |children| && children[i].cid == links[0].cid then LinksAdded(children, links[1..])
    else LinksAdded(children + [links[0]], links[1..])
  }

  lemma {:induction false} LinksAreStubs(children: Record, links: Record)
    requires children != [] && Stubs(Nodes(children[1..])) && Stubs(Nodes(links))
    ensures var r := LinksAdded(children, links);
            r != [] && r[0] == children[0] && Stubs(Nodes(r[1..]))
    decreases links
  {
    if links != [] {
      assert Nodes(links[1..]) == Nodes(links)[1..];
      if exists i :: 0 <= i < |children| && children[i].cid == links[0].cid {
        LinksAreStubs(children, links[1..]);
      } else {
        var more := children + [links[0]];
        assert Nodes(more[1..]) == Nodes(children[1..]) + [Nodes(links)[0]];
        LinksAreStubs(more, links[1..]);
      }
    }
  }

  /** A local change on a local history gives a local history with one change more, or with the same
      document changes after an ACL change. */
  lemma MakeChangeStaysLocal(kind: Kind, content: Content, headCid: Cid, head: Node, links: Record)
    requires Local(head) && Stubs(Nodes(links))
    ensures var n := MakeChange(kind, content, headCid, head, links);
            Local(n) && Changes(n) == (if kind == Document then [content] else []) + Changes(head)
  {
    LinksAreStubs([Item(headCid, head)], links);
  }

  /** Its children are the old head as it was and one node for every other CID linked to, each once. */
  lemma MakeChangeLinks(kind: Kind, content: Content, headCid: Cid, head: Node, links: Record)
    ensures var n := MakeChange(kind, content, headCid, head, links);
            && n.kind == kind && n.content == content && n.children.Kids?
            && n.children.items != [] && n.children.items[0] == Item(headCid, head)
            && Keys(n.children.items) == {headCid} + Keys(links) && DistinctKeys(n.children.items)
            && forall i :: 1 <= i < |n.children.items| ==> n.children.items[i] in links
  {
    var first := [Item(headCid, head)];
    assert Keys(first) == {headCid} by { assert first[0].cid == headCid; }
    LinksAddedAre(first, links);
  }

  lemma {:induction false} LinksAddedAre(children: Record, links: Record)
    requires children != [] && DistinctKeys(children)
    ensures var r := LinksAdded(children, links);
            && children <= r && Keys(r) == Keys(children) + Keys(links) && DistinctKeys(r)
            && forall i :: |children| <= i < |r| ==> r[i] in links
    decreases links
  {
    if links == [] {
      assert Keys(links) == {};
    } else {
      KeysCons(links);
      assert links == [links[0]] + links[1..];
      if exists i :: 0 <= i < |children| && children[i].cid == links[0].cid {
        LinksAddedAre(children, links[1..]);
      } else {
        var more := children + [links[0]];
        assert more[..|children|] == children && more[|children|] == links[0];
        KeysSnoc(more, |children|);
        assert more[..|children| + 1] == more;
        LinksAddedAre(more, links[1..]);
      }
    }
  }

  // ----- pruning

  /** Nodes without children at the front of the queue are passed and counted. */
  lemma {:induction false} StubsFirst(stubs: seq<Node>, q: seq<Node>, visited: nat, keep: int)
    requires Stubs(stubs)
    ensures PruneQueue(stubs + q, visited, keep) ==
            (stubs + PruneQueue(q, visited + Documents(stubs), keep).0,
                PruneQueue(q, visited + Documents(stubs), keep).1)
    decreases stubs
  {
    if stubs == [] {
      assert stubs + q == q && Documents(stubs) == 0;
      hide PruneQueue;
      assert [] + PruneQueue(q, visited, keep).0 == PruneQueue(q, visited, keep).0;
    } else {
      var v := Visit(stubs[0], visited);
      StubsFirst(stubs[1..], q, v, keep);
      StubPasses(stubs[0], stubs[1..] + q, visited, keep);
      assert v + Documents(stubs[1..]) == visited + Documents(stubs);
      hide PruneQueue, Documents, Stub;
      assert stubs + q == [stubs[0]] + (stubs[1..] + q);
      var r := PruneQueue(q, visited + Documents(stubs), keep).0;
      assert [stubs[0]] + (stubs[1..] + r) == stubs + r;
    }
  }

  lemma StubPasses(n: Node, q: seq<Node>, visited: nat, keep: int)
    requires Stub(n)
    ensures var (r, p) := PruneQueue(q, Visit(n, visited), keep); PruneQueue([n] + q, visited, keep) == ([n] + r, p)
  {
    assert ([n] + q)[1..] == q;
  }

  lemma {:induction false} PlacesOfChanges(n: Node, beside: seq<Node>, visited: nat)
    ensures |Places(n, beside, visited)| == |Changes(n)|
    ensures forall j :: 0 <= j < |Places(n, beside, visited)| ==> Places(n, beside, visited)[j] >= Visit(n, visited)
    decreases n
  {
    if n.children.Kids? && n.children.items != [] {
      PlacesOfChanges(n.children.items[0].node, Links(n), Visit(n, visited) + Documents(beside));
    }
  }

  /** The newest change is still there, and the change before change `j` (counted from the newest)
      exactly if the place of `j` is below the limit. */
  ghost predicate KeepsByPlace(n: Node, n': Node, places: seq<nat>, keep: int) {
    && Changes(n') <= Changes(n) && |places| == |Changes(n)|
    && (Changes(n) != [] ==> Changes(n') != [])
    && forall j :: 0 <= j < |places| - 1 ==> (j + 1 < |Changes(n')| <==> places[j] < keep)
  }

  lemma {:induction false} LocalQueue(n: Node, beside: seq<Node>, visited: nat, keep: int)
    requires Local(n) && Stubs(beside)
    ensures var r := PruneQueue([n] + beside, visited, keep).0;
            && r[1..] == beside && Local(r[0])
            && KeepsByPlace(n, r[0], Places(n, beside, visited), keep)
    decreases n
  {
    var q, v := [n] + beside, Visit(n, visited);
    var r := PruneQueue(q, visited, keep).0;
    assert q[1..] == beside;
    PlacesOfChanges(n, beside, visited);
    if n.children.Kids? && !AtBoundary(n, v, keep) {
      LocalOpened(n, beside, visited, keep);
    } else {
      NothingBehind(beside, v, keep);
      if n.children.Kids? {
        LocalCut(n);
        assert r == [Cut(n).0] + beside;
      } else {
        assert r == [n] + beside;
      }
    }
  }

  lemma NothingBehind(stubs: seq<Node>, visited: nat, keep: int)
    requires Stubs(stubs)
    ensures PruneQueue(stubs, visited, keep).0 == stubs
  {
    StubsFirst(stubs, [], visited, keep);
    assert stubs + [] == stubs;
  }

  /** A boundary node is left with ACL leaves only. */
  lemma LocalCut(n: Node)
    requires n.children.Kids? && !IsAcl(n)
    ensures Local(Cut(n).0) && Changes(Cut(n).0) == [n.content]
  {
    CollectAclCollects(n.children.items, [], {});
    var kept := CollectAcl(n.children.items, [], {}).0;
    if kept != [] {
      var n' := n.(children := Kids(kept));
      assert Changes(kept[0].node) == [] && Local(kept[0].node);
      forall i | 0 <= i < |kept[1..]| ensures Stub(Nodes(kept[1..])[i]) {
        assert kept[1..][i] == kept[i + 1];
      }
      assert Links(n') == Nodes(kept[1..]) && Local(n');
    }
  }

  lemma {:induction false} LocalOpened(n: Node, beside: seq<Node>, visited: nat, keep: int)
    requires Local(n) && Stubs(beside) && n.children.Kids? && !AtBoundary(n, Visit(n, visited), keep)
    ensures var r := PruneQueue([n] + beside, visited, keep).0;
            && r[1..] == beside && Local(r[0])
            && KeepsByPlace(n, r[0], Places(n, beside, visited), keep)
    decreases n, 0
  {
    hide PruneQueue, AtBoundary, KeepsByPlace, Changes, Places, Documents;
    var q, v := [n] + beside, Visit(n, visited);
    var items := n.children.items;
    var child, links, v' := items[0].node, Links(n), v + Documents(beside);
    assert q[1..] + Nodes(items) == beside + ([child] + links);
    OpenedUnfolds(q, visited, keep);
    StubsFirst(beside, [child] + links, v, keep);
    LocalQueue(child, links, v', keep);
    var r' := PruneQueue([child] + links, v', keep).0;
    assert r' == [r'[0]] + links;
    var r := beside + r';
    assert r[..|beside|] == beside && r[|beside|..] == r';
    var n' := Rejoined(n, r, |beside|);
    assert n'.children.items[0].node == r'[0];
    assert Links(n') == links;
    OpenedPlaces(n, n', beside, visited, keep);
  }

  lemma OpenedPlaces(n: Node, n': Node, beside: seq<Node>, visited: nat, keep: int)
    requires n.children.Kids? && n.children.items != [] && n'.children.Kids? && n'.children.items != []
    requires n'.kind == n.kind && n'.content == n.content && !AtBoundary(n, Visit(n, visited), keep)
    requires KeepsByPlace(n.children.items[0].node, n'.children.items[0].node,
                          Places(n.children.items[0].node, Links(n), Visit(n, visited) + Documents(beside)), keep)
    ensures KeepsByPlace(n, n', Places(n, beside, visited), keep)
  {
    var v := Visit(n, visited);
    var c, c' := n.children.items[0].node, n'.children.items[0].node;
    var places := Places(c, Links(n), v + Documents(beside));
    if IsAcl(n) {
      assert Changes(n) == Changes(c) && Changes(n') == Changes(c') && Places(n, beside, visited) == places;
    } else {
      assert Changes(n) == [n.content] + Changes(c) && Changes(n') == [n.content] + Changes(c');
      var all := Places(n, beside, visited);
      assert all == [v] + places;
      forall j | 0 <= j < |all| - 1 ensures j + 1 < |Changes(n')| <==> all[j] < keep {
        if j > 0 { assert all[j] == places[j - 1]; }
      }
    }
  }

  /** For every history of local changes and every positive limit: pruning keeps a newest part of the
      document changes and the shape; a change stays exactly if it is the newest or the change after it
      has a place below the limit, where cross-links take up places too. */
  lemma PruneKeepsByPlace(root: Node, keepCount: int)
    requires Local(root) && keepCount > 0
    ensures var root' := Prune(root, keepCount).0;
            Local(root') && KeepsByPlace(root, root', Places(root, [], 0), keepCount)
  {
    LocalQueue(root, [], 0, keepCount);
    assert [root] + [] == [root];
  }

  /** A limit is never exceeded, and it is honoured, in that as many changes stay or all if there are
      fewer, exactly if the last but one of the changes asked for has a place below it. */
  lemma LimitHonouredIff(root: Node, keepCount: int)
    requires Local(root) && keepCount > 0
    ensures var kept, asked := |Changes(Prune(root, keepCount).0)|, Min(keepCount, |Changes(root)|);
            && |Places(root, [], 0)| == |Changes(root)|
            && kept <= asked
            && (kept == asked <==> asked <= 1 || Places(root, [], 0)[asked - 2] < keepCount)
  {
    hide Places, Changes, Local, Prune;
    PruneKeepsByPlace(root, keepCount);
    PlacesGrow(root, [], 0);
    var kept, asked := |Changes(Prune(root, keepCount).0)|, Min(keepCount, |Changes(root)|);
    var places := Places(root, [], 0);
    if kept > 1 { assert kept - 1 <= places[kept - 2] < keepCount; }
    if asked > 1 { assert asked - 1 < kept <==> places[asked - 2] < keepCount; }
  }

  lemma {:induction false} PlacesGrow(n: Node, beside: seq<Node>, visited: nat)
    ensures forall j :: 0 <= j < |Places(n, beside, visited)| ==> Places(n, beside, visited)[j] >= visited + j + 1
    decreases n
  {
    if n.children.Kids? && n.children.items != [] {
      var v := Visit(n, visited);
      var rest := Places(n.children.items[0].node, Links(n), v + Documents(beside));
      PlacesGrow(n.children.items[0].node, Links(n), v + Documents(beside));
      assert Places(n, beside, visited) == if IsAcl(n) then rest else [v] + rest;
    }
  }

  /** Without cross-links every limit is honoured. */
  lemma WithoutLinksKeepsExactly(root: Node, keepCount: int)
    requires Local(root) && NoLinks(root) && keepCount > 0
    ensures |Changes(Prune(root, keepCount).0)| == Min(keepCount, |Changes(root)|)
  {
    LimitHonouredIff(root, keepCount);
    PlacesWithoutLinks(root, 0);
  }

  /** Four document changes made one after the other: the third and the fourth carry cross-links, and a
      limit of four leaves three changes. */
  lemma LinksUseUpTheLimit(c1: Content, c2: Content, c3: Content, c4: Content, none: Content)
    ensures var d1 := Node(Document, c1, Absent);
            var d2 := MakeChange(Document, c2, "D1", d1, []);
            var d3 := MakeChange(Document, c3, "D2", d2, [Item("D1", Node(Document, none, Absent))]);
            var d4 := MakeChange(Document, c4, "D3", d3,
                [Item("D2", Node(Document, none, Absent)), Item("D1", Node(Document, none, Absent))]);
            Local(d4) && Changes(d4) == [c4, c3, c2, c1] && Changes(Prune(d4, 4).0) == [c4, c3, c2]
  {
    var stub := Node(Document, none, Absent);
    var d1 := Node(Document, c1, Absent);
    var k2, k3, k4 := [Item("D1", d1)], [Item("D1", stub)], [Item("D2", stub), Item("D1", stub)];
    var d2 := MakeChange(Document, c2, "D1", d1, []);
    MakeChangeStaysLocal(Document, c2, "D1", d1, []);
    var d3 := MakeChange(Document, c3, "D2", d2, k3);
    MakeChangeStaysLocal(Document, c3, "D2", d2, k3);
    var d4 := MakeChange(Document, c4, "D3", d3, k4);
    MakeChangeStaysLocal(Document, c4, "D3", d3, k4);
    TwoLinks(Item("D3", d3), k4[0], k4[1]);
    assert Links(d4) == [stub, stub];
    assert Documents([stub, stub]) == 2 by {
      assert [stub, stub][1..] == [stub] && [stub][1..] == [];
      assert Documents([stub]) == 1;
    }
    assert Changes(d1) == [c1] && Changes(d2) == [c2, c1] && Changes(d3) == [c3, c2, c1];
    LinksAreStubs([Item("D2", d2)], k3);
    var deep := Places(d1, Links(d2), 5 + Documents(Links(d3)));
    assert Places(d2, Links(d3), 4) == [5] + deep;
    assert Places(d3, Links(d4), 1) == [2] + ([5] + deep);
    assert Places(d4, [], 0) == [1] + ([2] + ([5] + deep));
    PruneKeepsByPlace(d4, 4);
    var kept, places := Changes(Prune(d4, 4).0), Places(d4, [], 0);
    assert places[1] == 2 && places[2] == 5;
    assert |kept| == 3 && kept == Changes(d4)[..3];
  }

  lemma TwoLinks(head: Item, a: Item, b: Item)
    requires head.cid != a.cid && head.cid != b.cid && a.cid != b.cid
    ensures LinksAdded([head], [a, b]) == [head, a, b]
  {
    assert [a, b][1..] == [b] && [b][1..] == [];
    assert [head] + [a] == [head, a] && [head, a] + [b] == [head, a, b];
    assert LinksAdded([head, a, b], [b][1..]) == [head, a, b];
    assert LinksAdded([head, a], [b]) == [head, a, b];
  }

  predicate NoLinks(n: Node)
    decreases n
  {
    n.children.Kids? ==> |n.children.items| == 1 && NoLinks(n.children.items[0].node)
  }

  lemma {:induction false} PlacesWithoutLinks(n: Node, visited: nat)
    requires NoLinks(n)
    ensures forall j :: 0 <= j < |Places(n, [], visited)| ==> Places(n, [], visited)[j] == visited + j + 1
    decreases n
  {
    if n.children.Kids? {
      assert Links(n) == [];
      PlacesWithoutLinks(n.children.items[0].node, Visit(n, visited));
    }
  }
}
