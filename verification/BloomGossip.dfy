/**
 Replicating Bloom filters by gossip (bloom-filter-gossip.ts): each peer publishes its own filter and
 merges what it receives per sender. Messages may be lost, reordered and duplicated.
 */
module BloomGossip {
  import opened Collections
  import opened JsValue
  import opened BloomFilter

  type PeerId(==, !new)

  /** `onReceiveFilter`: data of the wrong length is ignored, the rest is merged into the sender's filter. */
  function Receive(s: Shape, tracked: map<PeerId, Bits>, from: PeerId, data: Bits): map<PeerId, Bits>
    requires forall p :: p in tracked ==> |tracked[p]| == ByteLength(s)
  {
    if |data| != ByteLength(s) then tracked
    else if from in tracked then tracked[from := Join(tracked[from], data)]
    else tracked[from := data]
  }

  ghost predicate HasAll(s: Shape, bits: Bits, terms: seq<Text>)
    requires ValidShape(s) && |bits| == ByteLength(s)
  {
    forall i :: 0 <= i < |terms| ==> Has(s, bits, terms[i])
  }

  /** One peer's replica. The filters it holds are kept as the contents of their arrays. */
  class Gossip {
    const shape: Shape
    var localFilter: Bits
    var peerFilters: map<PeerId, Bits>

    ghost predicate Valid()
      reads this
    {
      && ValidShape(shape)
      && |localFilter| == ByteLength(shape)
      && forall p :: p in peerFilters ==> |peerFilters[p]| == ByteLength(shape)
    }

    constructor (shape: Shape)
      requires ValidShape(shape)
      ensures Valid() && this.shape == shape && localFilter == Zeros(ByteLength(shape)) && peerFilters == map[]
    {
      this.shape := shape;
      localFilter, peerFilters := Zeros(ByteLength(shape)), map[];
    }

    /** `addTerm`: the term is found from now on, and so is all that was. */
    method AddLocalTerm(term: Text)
      requires Valid()
      modifies this`localFilter
      ensures Valid() && localFilter == Add(shape, old(localFilter), term)
      ensures Has(shape, localFilter, term)
      ensures forall other :: Has(shape, old(localFilter), other) ==> Has(shape, localFilter, other)
    {
      hide Has, Add;
      forall other ensures Has(shape, localFilter, other) ==> Has(shape, Add(shape, localFilter, term), other) {
        AddMakesPresent(shape, localFilter, term, other);
      }
      AddMakesPresent(shape, localFilter, term, term);
      localFilter := Add(shape, localFilter, term);
    }

    method OnReceiveFilter(from: PeerId, data: Bits)
      requires Valid()
      modifies this`peerFilters
      ensures Valid() && peerFilters == Receive(shape, old(peerFilters), from, data)
      ensures |data| != ByteLength(shape) ==> peerFilters == old(peerFilters)
      ensures forall p :: p != from ==> (p in peerFilters <==> p in old(peerFilters)) &&
                                        (p in peerFilters ==> peerFilters[p] == old(peerFilters[p]))
    {
      if |data| != ByteLength(shape) { return; }
      if from in peerFilters {
        peerFilters := peerFilters[from := Join(peerFilters[from], data)];
      } else {
        peerFilters := peerFilters[from := data];
      }
    }

    /** `queryPeers`: exactly the peers whose tracked filter has all terms, each once. */
    method QueryPeers(terms: seq<Text>) returns (matching: seq<PeerId>)
      requires Valid()
      ensures forall p :: p in matching <==> p in peerFilters && HasAll(shape, peerFilters[p], terms)
      ensures forall p, i :: p in matching && 0 <= i < |terms| ==> Has(shape, peerFilters[p], terms[i])
      ensures forall p :: p in peerFilters && p !in matching ==>
                exists i :: 0 <= i < |terms| && !Has(shape, peerFilters[p], terms[i])
      ensures Distinct(matching)
    {
      matching := [];
      var left := peerFilters.Keys;
      while left != {}
        invariant left <= peerFilters.Keys
        invariant forall p :: p in matching <==> p in peerFilters && p !in left && HasAll(shape, peerFilters[p], terms)
        invariant Distinct(matching)
      {
        var p :| p in left;
        left := left - {p};
        var all := TestAll(peerFilters[p], terms);
        DistinctSnoc(matching, p);
        if all { matching := matching + [p]; }
      }
    }

    /** `terms.every(term => filter.has(term))`. */
    method TestAll(bits: Bits, terms: seq<Text>) returns (all: bool)
      requires Valid() && |bits| == ByteLength(shape)
      ensures all <==> HasAll(shape, bits, terms)
    {
      for i := 0 to |terms|
        invariant forall j :: 0 <= j < i ==> Has(shape, bits, terms[j])
      {
        var filter := new BloomFilterCRDT(shape);
        filter.bits := new bv8[|bits|](k requires 0 <= k < |bits| => bits[k]);
        assert filter.bits[..] == bits;
        var one := filter.HasTerm(terms[i]);
        if !one { return false; }
      }
      return true;
    }

    /** `getMergedFilter`: an upper bound of every known filter, and the least one. */
    method GetMergedFilter() returns (merged: Bits)
      requires Valid()
      ensures |merged| == ByteLength(shape) && AtMost(localFilter, merged)
      ensures forall p :: p in peerFilters ==> AtMost(peerFilters[p], merged)
      ensures forall c :: AtMost(localFilter, c) && (forall p :: p in peerFilters ==> AtMost(peerFilters[p], c)) ==>
        AtMost(merged, c)
    {
      ghost var zeros := Zeros(ByteLength(shape));
      ZeroIsLeast(localFilter);
      merged := Join(Zeros(ByteLength(shape)), localFilter);
      assert merged == localFilter;
      AtMostReflexive(localFilter);
      var left := peerFilters.Keys;
      while left != {}
        invariant left <= peerFilters.Keys && |merged| == ByteLength(shape) && AtMost(localFilter, merged)
        invariant forall p :: p in peerFilters && p !in left ==> AtMost(peerFilters[p], merged)
        invariant forall c ::
          (AtMost(localFilter, c) && forall p :: p in peerFilters && p !in left ==> AtMost(peerFilters[p], c)) ==>
            AtMost(merged, c)
      {
        hide AtMost, Join;
        var p :| p in left;
        left := left - {p};
        MergedBound(merged, peerFilters[p]);
        forall q | q in peerFilters && AtMost(peerFilters[q], merged)
          ensures AtMost(peerFilters[q], Join(merged, peerFilters[p]))
        {
          AtMostTransitive(peerFilters[q], merged, Join(merged, peerFilters[p]));
        }
        AtMostTransitive(localFilter, merged, Join(merged, peerFilters[p]));
        merged := Join(merged, peerFilters[p]);
      }
    }
  }

  lemma MergedBound(a: Bits, b: Bits)
    requires |a| == |b|
    ensures AtMost(a, Join(a, b)) && AtMost(b, Join(a, b))
    ensures forall c :: AtMost(a, c) && AtMost(b, c) ==> AtMost(Join(a, b), c)
  {
    JoinIsLeastUpperBound(a, b, a);
    forall c | AtMost(a, c) && AtMost(b, c) ensures AtMost(Join(a, b), c) {
      JoinIsLeastUpperBound(a, b, c);
    }
  }

  lemma ZeroIsLeast(a: Bits)
    ensures Join(Zeros(|a|), a) == a
  {
    forall i | 0 <= i < |a| ensures Join(Zeros(|a|), a)[i] == a[i] { OrZero(a[i]); }
  }

  lemma OrZero(x: bv8)
    ensures 0 | x == x
  {
  }

  // ----- every run

  /** A published filter, with the terms its sender had added by then. */
  datatype Message = Message(from: PeerId, data: Bits, terms: set<Text>)

  datatype Peer = Peer(local: Bits, terms: set<Text>, tracked: map<PeerId, Bits>, delivered: map<PeerId, seq<Message>>)

  datatype World = World(peers: map<PeerId, Peer>, sent: set<Message>)

  /** A delivery takes any message ever sent, any number of times; a lost one is never taken. */
  datatype Event = AddTo(p: PeerId, term: Text) | Publish(p: PeerId) | Deliver(q: PeerId, m: Message)

  ghost predicate Start(s: Shape, w: World) {
    && ValidShape(s) && w.sent == {}
    && forall p :: p in w.peers ==> w.peers[p] == Peer(Zeros(ByteLength(s)), {}, map[], map[])
  }

  ghost predicate Possible(w: World, e: Event) {
    match e
    case AddTo(p, _) => p in w.peers
    case Publish(p) => p in w.peers
    case Deliver(q, m) => q in w.peers && m in w.sent
  }

  ghost function Past(x: Peer, p: PeerId): seq<Message> {
    if p in x.delivered then x.delivered[p] else []
  }

  ghost predicate WellSized(s: Shape, w: World) {
    && ValidShape(s)
    && (forall p :: p in w.peers ==> |w.peers[p].local| == ByteLength(s))
    && (forall p, r :: p in w.peers && r in w.peers[p].tracked ==> |w.peers[p].tracked[r]| == ByteLength(s))
  }

  ghost function Next(s: Shape, w: World, e: Event): World
    requires WellSized(s, w) && Possible(w, e)
  {
    match e
    case AddTo(p, t) =>
      var x := w.peers[p];
      w.(peers := w.peers[p := x.(local := Add(s, x.local, t), terms := x.terms + {t})])
    case Publish(p) =>
      w.(sent := w.sent + {Message(p, w.peers[p].local, w.peers[p].terms)})
    case Deliver(q, m) =>
      var x := w.peers[q];
      w.(peers := w.peers[q := x.(tracked := Receive(s, x.tracked, m.from, m.data),
                                  delivered := x.delivered[m.from := Past(x, m.from) + [m]])])
  }

  ghost predicate Covers(s: Shape, bits: Bits, terms: set<Text>)
    requires ValidShape(s) && |bits| == ByteLength(s)
  {
    forall t :: t in terms ==> Has(s, bits, t)
  }

  ghost predicate MessageOk(s: Shape, w: World, m: Message)
    requires WellSized(s, w)
  {
    && |m.data| == ByteLength(s) && Covers(s, m.data, m.terms)
    && m.from in w.peers && AtMost(m.data, w.peers[m.from].local) && m.terms <= w.peers[m.from].terms
  }

  /** The join of the data of a non-empty list of messages. */
  ghost function JoinAll(s: Shape, ms: seq<Message>): (r: Bits)
    requires ms != [] && forall i :: 0 <= i < |ms| ==> |ms[i].data| == ByteLength(s)
    ensures |r| == ByteLength(s)
  {
    if |ms| == 1 then ms[0].data else Join(JoinAll(s, ms[..|ms| - 1]), ms[|ms| - 1].data)
  }

  /** What peer `q` tracks for `p` is the join of the messages of `p` delivered to `q`. */
  ghost predicate TrackedOk(s: Shape, w: World, q: PeerId, p: PeerId)
    requires WellSized(s, w) && q in w.peers
  {
    var x := w.peers[q];
    && (p in x.tracked <==> Past(x, p) != [])
    && (forall i :: 0 <= i < |Past(x, p)| ==>
        Past(x, p)[i] in w.sent && Past(x, p)[i].from == p && |Past(x, p)[i].data| == ByteLength(s))
    && (p in x.tracked ==> x.tracked[p] == JoinAll(s, Past(x, p)))
  }

  ghost predicate Inv(s: Shape, w: World) {
    && WellSized(s, w)
    && (forall p :: p in w.peers ==> Covers(s, w.peers[p].local, w.peers[p].terms))
    && (forall m :: m in w.sent ==> MessageOk(s, w, m))
    && (forall q, p :: q in w.peers ==> TrackedOk(s, w, q, p))
  }

  lemma AddKeepsInv(s: Shape, w: World, p: PeerId, t: Text)
    requires Inv(s, w) && Possible(w, AddTo(p, t))
    ensures Inv(s, Next(s, w, AddTo(p, t)))
  {
    var w' := Next(s, w, AddTo(p, t));
    var x, x' := w.peers[p], w'.peers[p];
    hide Has, AtMost;
    forall u | u in x'.terms ensures Has(s, x'.local, u) { AddMakesPresent(s, x.local, t, u); }
    AddMakesPresent(s, x.local, t, t);
    forall m | m in w'.sent ensures MessageOk(s, w', m) {
      assert MessageOk(s, w, m);
      if m.from == p { AtMostTransitive(m.data, x.local, x'.local); }
    }
    forall q, r | q in w'.peers ensures TrackedOk(s, w', q, r) {
      assert TrackedOk(s, w, q, r);
    }
  }

  lemma PublishKeepsInv(s: Shape, w: World, p: PeerId)
    requires Inv(s, w) && Possible(w, Publish(p))
    ensures Inv(s, Next(s, w, Publish(p)))
  {
    var w' := Next(s, w, Publish(p));
    AtMostReflexive(w.peers[p].local);
    forall m | m in w'.sent ensures MessageOk(s, w', m) {
      if m in w.sent { assert MessageOk(s, w, m); }
    }
    forall q, r | q in w'.peers ensures TrackedOk(s, w', q, r) {
      assert TrackedOk(s, w, q, r);
    }
  }

  lemma DeliverKeepsInv(s: Shape, w: World, q: PeerId, m: Message)
    requires Inv(s, w) && Possible(w, Deliver(q, m))
    ensures Inv(s, Next(s, w, Deliver(q, m)))
  {
    var w' := Next(s, w, Deliver(q, m));
    assert MessageOk(s, w, m);
    forall n | n in w'.sent ensures MessageOk(s, w', n) {
      assert MessageOk(s, w, n);
    }
    forall o, r | o in w'.peers ensures TrackedOk(s, w', o, r) {
      assert TrackedOk(s, w, o, r);
      if o == q && r == m.from {
        var before, after := Past(w.peers[q], r), Past(w'.peers[q], r);
        assert after[..|after| - 1] == before;
      }
    }
  }

  ghost predicate Execution(s: Shape, ws: seq<World>, es: seq<Event>) {
    && |ws| == |es| + 1
    && Start(s, ws[0])
    && forall i :: 0 <= i < |es| ==> WellSized(s, ws[i]) && Possible(ws[i], es[i]) && ws[i + 1] == Next(s, ws[i], es[i])
  }

  lemma {:induction false} EveryRunKeepsInv(s: Shape, ws: seq<World>, es: seq<Event>, n: nat)
    requires Execution(s, ws, es) && n < |ws|
    ensures Inv(s, ws[n])
  {
    if n > 0 {
      EveryRunKeepsInv(s, ws, es, n - 1);
      match es[n - 1]
      case AddTo(p, t) => AddKeepsInv(s, ws[n - 1], p, t);
      case Publish(p) => PublishKeepsInv(s, ws[n - 1], p);
      case Deliver(q, m) => DeliverKeepsInv(s, ws[n - 1], q, m);
    }
  }

  lemma {:induction false} JoinAllBounds(s: Shape, ms: seq<Message>, i: nat, c: Bits)
    requires ms != [] && forall j :: 0 <= j < |ms| ==> |ms[j].data| == ByteLength(s)
    requires i < |ms|
    ensures AtMost(ms[i].data, JoinAll(s, ms))
    ensures (forall j :: 0 <= j < |ms| ==> AtMost(ms[j].data, c)) ==> AtMost(JoinAll(s, ms), c)
  {
    hide AtMost, Join;
    var last := ms[|ms| - 1].data;
    AtMostReflexive(last);
    if |ms| > 1 {
      var init := ms[..|ms| - 1];
      MergedBound(JoinAll(s, init), last);
      JoinAllBounds(s, init, if i < |init| then i else 0, c);
      if i < |init| { AtMostTransitive(ms[i].data, JoinAll(s, init), JoinAll(s, ms)); }
      assert forall j :: 0 <= j < |init| ==> init[j] == ms[j];
    }
  }

  /** In every run with loss, reordering and duplication: what `q` tracks for `p` is never more than
      `p`'s own filter, and it has every term `p` had added before any publication delivered to `q`. */
  lemma TrackedFilterIsSandwiched(s: Shape, ws: seq<World>, es: seq<Event>, n: nat, q: PeerId, p: PeerId)
    requires Execution(s, ws, es) && n < |ws| && q in ws[n].peers && p in ws[n].peers[q].tracked
    ensures p in ws[n].peers && AtMost(ws[n].peers[q].tracked[p], ws[n].peers[p].local)
    ensures |ws[n].peers[q].tracked[p]| == ByteLength(s) && ValidShape(s)
    ensures forall m, t :: m in Past(ws[n].peers[q], p) && t in m.terms ==> Has(s, ws[n].peers[q].tracked[p], t)
  {
    EveryRunKeepsInv(s, ws, es, n);
    var w := ws[n];
    var x := w.peers[q];
    assert TrackedOk(s, w, q, p);
    var ms := Past(x, p);
    forall i | 0 <= i < |ms| ensures p in w.peers && AtMost(ms[i].data, w.peers[p].local) {
      assert MessageOk(s, w, ms[i]);
    }
    assert MessageOk(s, w, ms[0]);
    JoinAllBounds(s, ms, 0, w.peers[p].local);
    forall m, t | m in ms && t in m.terms ensures Has(s, x.tracked[p], t) {
      var i :| 0 <= i < |ms| && ms[i] == m;
      assert MessageOk(s, w, m);
      JoinAllBounds(s, ms, i, w.peers[p].local);
      HasIsMonotone(s, m.data, x.tracked[p], t);
    }
  }

  /** A query never misses a peer: if `p` had added all the terms before some publication that reached
      `q`, then `q` finds `p` for them; and whoever is found has all the bits in its own filter. */
  lemma QueryNeverMisses(
    s: Shape, ws: seq<World>, es: seq<Event>, n: nat, q: PeerId, p: PeerId, m: Message, terms: seq<Text>)
    requires Execution(s, ws, es) && n < |ws| && q in ws[n].peers
    requires m in Past(ws[n].peers[q], p) && forall i :: 0 <= i < |terms| ==> terms[i] in m.terms
    ensures ValidShape(s) && p in ws[n].peers[q].tracked && |ws[n].peers[q].tracked[p]| == ByteLength(s)
    ensures HasAll(s, ws[n].peers[q].tracked[p], terms)
    ensures p in ws[n].peers && |ws[n].peers[p].local| == ByteLength(s) && HasAll(s, ws[n].peers[p].local, terms)
  {
    EveryRunKeepsInv(s, ws, es, n);
    assert TrackedOk(s, ws[n], q, p);
    TrackedFilterIsSandwiched(s, ws, es, n, q, p);
    forall i | 0 <= i < |terms| ensures Has(s, ws[n].peers[p].local, terms[i]) {
      HasIsMonotone(s, ws[n].peers[q].tracked[p], ws[n].peers[p].local, terms[i]);
    }
  }

  lemma AtMostAntisymmetric(a: Bits, b: Bits)
    requires AtMost(a, b) && AtMost(b, a)
    ensures a == b
  {
    forall i | 0 <= i < |a| ensures a[i] == b[i] { OrCommutes(a[i], b[i]); }
  }

  lemma OrCommutes(x: bv8, y: bv8)
    ensures x | y == y | x
  {
  }

  /** Replicas converge: two peers, or two runs, that have received the same set of filters from `p`, in
      whatever order and however often, track the same filter for `p`. */
  lemma SameMessagesSameFilter(
    s: Shape, ws: seq<World>, es: seq<Event>, n: nat, ws': seq<World>, es': seq<Event>, n': nat,
    q: PeerId, q': PeerId, p: PeerId)
    requires Execution(s, ws, es) && n < |ws| && q in ws[n].peers
    requires Execution(s, ws', es') && n' < |ws'| && q' in ws'[n'].peers
    requires Past(ws[n].peers[q], p) != []
    requires forall m :: m in Past(ws[n].peers[q], p) <==> m in Past(ws'[n'].peers[q'], p)
    ensures p in ws[n].peers[q].tracked && p in ws'[n'].peers[q'].tracked
    ensures ws[n].peers[q].tracked[p] == ws'[n'].peers[q'].tracked[p]
  {
    EveryRunKeepsInv(s, ws, es, n);
    EveryRunKeepsInv(s, ws', es', n');
    assert TrackedOk(s, ws[n], q, p) && TrackedOk(s, ws'[n'], q', p);
    var ms, ms' := Past(ws[n].peers[q], p), Past(ws'[n'].peers[q'], p);
    assert ms[0] in ms';
    SameSetJoinsBelow(s, ms, ms');
    SameSetJoinsBelow(s, ms', ms);
    AtMostAntisymmetric(JoinAll(s, ms), JoinAll(s, ms'));
  }

  lemma SameSetJoinsBelow(s: Shape, ms: seq<Message>, ms': seq<Message>)
    requires ms != [] && ms' != [] && forall m :: m in ms ==> m in ms'
    requires forall j :: 0 <= j < |ms| ==> |ms[j].data| == ByteLength(s)
    requires forall j :: 0 <= j < |ms'| ==> |ms'[j].data| == ByteLength(s)
    ensures AtMost(JoinAll(s, ms), JoinAll(s, ms'))
  {
    forall i | 0 <= i < |ms| ensures AtMost(ms[i].data, JoinAll(s, ms')) {
      assert ms[i] in ms;
      var j :| 0 <= j < |ms'| && ms'[j] == ms[i];
      JoinAllBounds(s, ms', j, JoinAll(s, ms'));
    }
    JoinAllBounds(s, ms, 0, JoinAll(s, ms'));
  }
}
