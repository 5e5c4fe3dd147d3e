/**
 The change tree of a sync message: pruning after a snapshot (`_pruneChanges` in
 collabswarm-document.ts) and the garbage-collection filter behind it (blockstore-gc.ts).
 */
module ChangeTree {

  type Cid = string

  /** Everything of a change node except its kind and its children. */
  type Content(==, !new)

  datatype Kind = Document | Reader | Writer

  datatype Node = Node(kind: Kind, content: Content, children: Children)

  /** A record of children lists its entries in insertion order. */
  datatype Children = Absent | Deferred | Kids(items: Record)

  datatype Item = Item(cid: Cid, node: Node)

  type Record = seq<Item>

  predicate IsAcl(n: Node) {
    n.kind != Document
  }

  function Nodes(items: Record): (ns: seq<Node>)
    ensures |ns| == |items|
  {
    seq(|items|, i requires 0 <= i < |items| => items[i].node)
  }

  /** The same keys with other nodes. */
  function WithNodes(items: Record, ns: seq<Node>): (r: Record)
    requires |ns| == |items|
    ensures Nodes(r) == ns
  {
    seq(|items|, i requires 0 <= i < |items| => Item(items[i].cid, ns[i]))
  }

  function Leaf(n: Node): Node {
    n.(children := Absent)
  }

  // ----- what a tree contains

  /** Number of nodes in a forest. */
  function Size(items: Record): nat
    decreases items
  {
    if items == [] then 0
    else 1 + SizeBelow(items[0].node) + Size(items[1..])
  }

  function SizeBelow(n: Node): nat
    decreases n
  {
    if n.children.Kids? then Size(n.children.items) else 0
  }

  /** The entries below the roots of a forest: their CIDs with kind and content. */
  ghost function Entries(items: Record): set<(Cid, Kind, Content)>
    decreases items
  {
    if items == [] then {}
    else
      {(items[0].cid, items[0].node.kind, items[0].node.content)} + Below(items[0].node) + Entries(items[1..])
  }

  ghost function Below(n: Node): set<(Cid, Kind, Content)>
    decreases n
  {
    if n.children.Kids? then Entries(n.children.items) else {}
  }

  ghost function BelowAll(q: seq<Node>): set<(Cid, Kind, Content)> {
    if q == [] then {} else Below(q[0]) + BelowAll(q[1..])
  }

  ghost function Cids(es: set<(Cid, Kind, Content)>): set<Cid> {
    set e | e in es :: e.0
  }

  ghost function AclCids(es: set<(Cid, Kind, Content)>): set<Cid> {
    set e | e in es && e.1 != Document :: e.0
  }

  ghost function DocumentCids(es: set<(Cid, Kind, Content)>): set<Cid> {
    set e | e in es && e.1 == Document :: e.0
  }

  /** All CIDs reachable in a tree, its root's included. */
  ghost function TreeCids(rootCid: Cid, root: Node): set<Cid> {
    {rootCid} + Cids(Below(root))
  }

  // ----- pruning

  /** `out[cid] = n`: overwrites in place or appends. */
  function Put(out: Record, cid: Cid, n: Node): Record {
    if out == [] then [Item(cid, n)]
    else if out[0].cid == cid then [Item(cid, n)] + out[1..]
    else [out[0]] + Put(out[1..], cid, n)
  }

  /** `collectACLNodes`: ACL nodes anywhere in the forest become leaves of `out`; the CIDs of
      document nodes are reported. */
  function CollectAcl(items: Record, out: Record, pruned: set<Cid>): (Record, set<Cid>)
    decreases items
  {
    if items == [] then (out, pruned)
    else
      var Item(cid, n) := items[0];
      var (o1, p1) := if IsAcl(n) then (Put(out, cid, Leaf(n)), pruned) else (out, pruned + {cid});
      var (o2, p2) := CollectBelow(n, o1, p1);
      CollectAcl(items[1..], o2, p2)
  }

  function CollectBelow(n: Node, out: Record, pruned: set<Cid>): (Record, set<Cid>)
    decreases n
  {
    if n.children.Kids? then CollectAcl(n.children.items, out, pruned) else (out, pruned)
  }

  /** A boundary node after its children have been pruned, and the CIDs that went. */
  function Cut(n: Node): (Node, set<Cid>)
    requires n.children.Kids?
  {
    var (kept, pruned) := CollectAcl(n.children.items, [], {});
    (n.(children := if kept == [] then Absent else Kids(kept)), pruned)
  }

  function QueueSize(q: seq<Node>): nat {
    if q == [] then 0
    else 1 + SizeBelow(q[0]) + QueueSize(q[1..])
  }

  lemma {:induction false} QueueSizeConcat(q: seq<Node>, q': seq<Node>)
    ensures QueueSize(q + q') == QueueSize(q) + QueueSize(q')
  {
    if q == [] {
      assert q + q' == q';
    } else {
      QueueSizeConcat(q[1..], q');
      assert (q + q')[1..] == q[1..] + q';
    }
  }

  lemma {:induction false} NodesSize(items: Record)
    ensures QueueSize(Nodes(items)) == Size(items)
  {
    if items != [] {
      NodesSize(items[1..]);
      assert Nodes(items)[1..] == Nodes(items[1..]);
    }
  }

  lemma QueueSizeDrops(q: seq<Node>)
    requires q != []
    ensures QueueSize(q[1..]) < QueueSize(q)
  {
  }

  lemma ExpandShrinks(q: seq<Node>)
    requires q != [] && q[0].children.Kids?
    ensures QueueSize(q[1..] + Nodes(q[0].children.items)) < QueueSize(q)
  {
    QueueSizeConcat(q[1..], Nodes(q[0].children.items));
    NodesSize(q[0].children.items);
  }

  /** The node is a document node at or past the limit. */
  predicate AtBoundary(n: Node, visited: nat, keep: int) {
    !IsAcl(n) && visited >= keep
  }

  function Visit(n: Node, visited: nat): nat {
    if IsAcl(n) then visited else visited + 1
  }

  /** The breadth-first loop: the nodes of the queue as the loop leaves them, and the pruned CIDs.
      The nodes a node adds to the end of the queue are its children, so they come back as such. */
  function PruneQueue(q: seq<Node>, visited: nat, keep: int): (r: (seq<Node>, set<Cid>))
    ensures |r.0| == |q|
    decreases QueueSize(q)
  {
    if q == [] then ([], {})
    else
      var n, v := q[0], Visit(q[0], visited);
      if !n.children.Kids? then
        var (r, p) := PruneQueue(q[1..], v, keep);
        ([n] + r, p)
      else if AtBoundary(n, v, keep) then
        var (r, p) := PruneQueue(q[1..], v, keep);
        ([Cut(n).0] + r, Cut(n).1 + p)
      else
        ExpandShrinks(q);
        var items := n.children.items;
        var (r, p) := PruneQueue(q[1..] + Nodes(items), v, keep);
        var k := |q| - 1;
        ([n.(children := Kids(WithNodes(items, r[k..])))] + r[..k], p)
  }

  /** `_pruneChanges` on the tree of the last sync message. */
  function Prune(root: Node, keepCount: int): (Node, set<Cid>) {
    if keepCount <= 0 then (root, {})
    else
      var (r, p) := PruneQueue([root], 0, keepCount);
      (r[0], p)
  }

  // ----- the queue loop

  /** What the loop has done to a dequeued node: left or cut it, or put its children on the queue. */
  datatype Cell = Closed(node: Node) | Opened(kind: Kind, content: Content, items: Record)

  predicate Balanced(log: seq<Cell>, pending: nat) {
    if log == [] then true
    else
      match log[|log| - 1]
      case Closed(_) => Balanced(log[..|log| - 1], pending + 1)
      case Opened(_, _, items) => |items| <= pending && Balanced(log[..|log| - 1], pending - |items| + 1)
  }

  /** Follows the references from the queue's nodes: an opened node's children are the nodes that it
      put at the end of the queue, in whatever state the loop left them. */
  function Unwind(log: seq<Cell>, pending: seq<Node>): seq<Node>
    requires Balanced(log, |pending|)
  {
    if log == [] then pending
    else
      match log[|log| - 1]
      case Closed(n) => Unwind(log[..|log| - 1], [n] + pending)
      case Opened(kind, content, items) =>
        var k := |pending| - |items|;
        Unwind(log[..|log| - 1], [Node(kind, content, Kids(WithNodes(items, pending[k..])))] + pending[..k])
  }

  /** Dequeuing a node that adds nothing to the queue. */
  lemma CloseStep(log: seq<Cell>, q: seq<Node>, visited: nat, keep: int, closed: Node, cut: set<Cid>)
    requires q != [] && Balanced(log, |q|)
    requires var n := q[0];
             if !n.children.Kids? then closed == n && cut == {}
             else AtBoundary(n, Visit(n, visited), keep) && (closed, cut) == Cut(n)
    ensures var (r, p), (r', p') := PruneQueue(q, visited, keep), PruneQueue(q[1..], Visit(q[0], visited), keep);
            && Balanced(log + [Closed(closed)], |q| - 1)
            && Unwind(log + [Closed(closed)], r') == Unwind(log, r)
            && p == cut + p'
  {
    hide Cut, AtBoundary;
    var log' := log + [Closed(closed)];
    assert log'[..|log'| - 1] == log;
  }

  /** The node `n` with the first children after `rest` nodes of `r`. */
  function Rejoined(n: Node, r: seq<Node>, rest: nat): Node
    requires n.children.Kids? && |r| == rest + |n.children.items|
  {
    n.(children := Kids(WithNodes(n.children.items, r[rest..])))
  }

  /** What the loop does to a queue whose first node is opened. */
  lemma OpenedUnfolds(q: seq<Node>, visited: nat, keep: int)
    requires q != [] && q[0].children.Kids? && !AtBoundary(q[0], Visit(q[0], visited), keep)
    ensures var (r, p) := PruneQueue(q[1..] + Nodes(q[0].children.items), Visit(q[0], visited), keep);
            PruneQueue(q, visited, keep) == ([Rejoined(q[0], r, |q| - 1)] + r[..|q| - 1], p)
  {
  }

  /** What it does to a queue whose first node is left or cut. */
  lemma ClosedUnfolds(q: seq<Node>, visited: nat, keep: int)
    requires q != [] && (q[0].children.Kids? ==> AtBoundary(q[0], Visit(q[0], visited), keep))
    ensures var (r, p) := PruneQueue(q[1..], Visit(q[0], visited), keep);
            PruneQueue(q, visited, keep) ==
            if q[0].children.Kids? then ([Cut(q[0]).0] + r, Cut(q[0]).1 + p) else ([q[0]] + r, p)
  {
    hide Cut;
  }

  /** Dequeuing a node whose children join the queue. */
  lemma OpenStep(log: seq<Cell>, q: seq<Node>, visited: nat, keep: int)
    requires q != [] && Balanced(log, |q|) && q[0].children.Kids? && !AtBoundary(q[0], Visit(q[0], visited), keep)
    ensures var n := q[0];
            var q' := q[1..] + Nodes(n.children.items);
            var log' := log + [Opened(n.kind, n.content, n.children.items)];
            var (r, p), (r', p') := PruneQueue(q, visited, keep), PruneQueue(q', Visit(n, visited), keep);
            && Balanced(log', |q'|)
            && Unwind(log', r') == Unwind(log, r)
            && p == p'
  {
    hide AtBoundary, PruneQueue, Nodes;
    OpenedUnfolds(q, visited, keep);
    var n := q[0];
    var log' := log + [Opened(n.kind, n.content, n.children.items)];
    assert log'[..|log'| - 1] == log;
  }

  lemma UnwindNothing(r: seq<Node>)
    ensures Balanced([], |r|) && Unwind([], r) == r
  {
  }

  lemma NothingPending(visited: nat, keep: int)
    ensures PruneQueue([], visited, keep) == ([], {})
  {
  }

  /** `_pruneChanges`: the queue loop computes `Prune`. */
  method PruneChanges(root: Node, keepCount: int) returns (root': Node, prunedCids: set<Cid>)
    ensures (root', prunedCids) == Prune(root, keepCount)
  {
    hide PruneQueue, Unwind, Balanced, Cut, QueueSize;
    prunedCids := {};
    if keepCount <= 0 { return root, prunedCids; }
    var queue, qi, visited := [root], 0, 0;
    var log: seq<Cell> := [];
    assert queue[qi..] == [root];
    UnwindNothing(PruneQueue([root], 0, keepCount).0);
    while qi < |queue|
      invariant 0 <= qi <= |queue|
      invariant Balanced(log, |queue| - qi)
      invariant var (r, p) := PruneQueue(queue[qi..], visited, keepCount);
                && Unwind(log, r) == PruneQueue([root], 0, keepCount).0
                && prunedCids + p == PruneQueue([root], 0, keepCount).1
      decreases QueueSize(queue[qi..])
    {
      var current := queue[qi];
      ghost var pending, before := queue[qi..], visited;
      assert pending[1..] == queue[qi + 1..];
      qi := qi + 1;
      if !IsAcl(current) { visited := visited + 1; }
      if current.children.Kids? {
        if AtBoundary(current, visited, keepCount) {
          var (node, pruned) := Cut(current);
          CloseStep(log, pending, before, keepCount, node, pruned);
          QueueSizeDrops(pending);
          prunedCids := prunedCids + pruned;
          log := log + [Closed(node)];
        } else {
          var items := current.children.items;
          ExpandShrinks(pending);
          OpenStep(log, pending, before, keepCount);
          queue := queue + Nodes(items);
          assert queue[qi..] == pending[1..] + Nodes(items);
          log := log + [Opened(current.kind, current.content, items)];
        }
      } else {
        CloseStep(log, pending, before, keepCount, current, {});
        QueueSizeDrops(pending);
        log := log + [Closed(current)];
      }
    }
    NothingPending(visited, keepCount);
    assert queue[qi..] == [];
    root' := Unwind(log, [])[0];
  }
}
