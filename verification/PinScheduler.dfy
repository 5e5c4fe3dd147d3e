/**
 The pin scheduler (collabswarm-node.ts): at most ten pins run at once, further ones wait in order,
 a finished pin hands its slot to the first waiter, and no CID is pinned twice at the same time.
 */
module PinScheduler {
  import opened Collections

  type Cid(==, !new)

  const MAX_CONCURRENT_PINS := 10

  /** The fields of the node. A waiting `resolve` callback is named by the CID that waits for it. */
  datatype Fields = Fields(active: nat, queue: seq<Cid>, pinning: set<Cid>, seen: set<Cid>)

  /** `_pinCID` up to its `await`: whether the request goes on, and whether it got a slot at once. */
  datatype Admission = Ignored | Running | Waiting

  function Admit(f: Fields, cid: Cid, wellFormed: bool): (Fields, Admission) {
    if cid in f.seen || cid in f.pinning || !wellFormed then (f, Ignored)
    else if f.active < MAX_CONCURRENT_PINS then (f.(pinning := f.pinning + {cid}, active := f.active + 1), Running)
    else (f.(pinning := f.pinning + {cid}, queue := f.queue + [cid]), Waiting)
  }

  /** `_releasePinSlot`: the first waiter takes the slot over, or the slot is freed. */
  function Release(f: Fields): Fields
    requires f.queue == [] ==> f.active > 0
  {
    if f.queue != [] then f.(queue := f.queue[1..]) else f.(active := f.active - 1)
  }

  /** The end of `_pinCID`, after success or failure. */
  function Finish(f: Fields, cid: Cid, success: bool): Fields
    requires f.queue == [] ==> f.active > 0
  {
    Release(f.(seen := if success then f.seen + {cid} else f.seen, pinning := f.pinning - {cid}))
  }

  class Node {
    var activePins: nat
    var pinQueue: seq<Cid>
    var pinningCids: set<Cid>
    var seenCids: set<Cid>

    constructor ()
      ensures State() == Fields(0, [], {}, {})
    {
      activePins, pinQueue, pinningCids, seenCids := 0, [], {}, {};
    }

    ghost function State(): Fields
      reads this
    {
      Fields(activePins, pinQueue, pinningCids, seenCids)
    }

    method AcquirePinSlot(cid: Cid) returns (immediate: bool)
      modifies this`activePins, this`pinQueue
      ensures immediate <==> old(activePins) < MAX_CONCURRENT_PINS
      ensures activePins == (if immediate then old(activePins) + 1 else old(activePins))
      ensures pinQueue == (if immediate then old(pinQueue) else old(pinQueue) + [cid])
    {
      if activePins < MAX_CONCURRENT_PINS {
        activePins := activePins + 1;
        return true;
      }
      pinQueue := pinQueue + [cid];
      return false;
    }

    method ReleasePinSlot()
      requires pinQueue == [] ==> activePins > 0
      modifies this`activePins, this`pinQueue
      ensures State() == Release(old(State()))
    {
      if pinQueue != [] {
        pinQueue := pinQueue[1..];
      } else {
        activePins := activePins - 1;
      }
    }

    method BeginPin(cid: Cid, wellFormed: bool) returns (a: Admission)
      modifies this
      ensures (State(), a) == Admit(old(State()), cid, wellFormed)
    {
      if cid in seenCids || cid in pinningCids { return Ignored; }
      if !wellFormed { return Ignored; }
      pinningCids := pinningCids + {cid};
      var immediate := AcquirePinSlot(cid);
      return if immediate then Running else Waiting;
    }

    method EndPin(cid: Cid, success: bool)
      requires pinQueue == [] ==> activePins > 0
      modifies this
      ensures State() == Finish(old(State()), cid, success)
    {
      if success { seenCids := seenCids + {cid}; }
      pinningCids := pinningCids - {cid};
      ReleasePinSlot();
    }
  }

  // ----- every interleaving

  /** The fields, the pins that hold a slot, the CIDs pinned successfully, and the order in which pins
      arrived and got a slot. */
  datatype World = World(f: Fields, running: set<Cid>, pinned: set<Cid>, arrived: seq<Cid>, granted: seq<Cid>)

  datatype Step = Request(cid: Cid, wellFormed: bool) | Complete(cid: Cid, success: bool)

  ghost predicate Enabled(w: World, s: Step) {
    s.Complete? ==> s.cid in w.running && (w.f.queue == [] ==> w.f.active > 0)
  }

  ghost function Next(w: World, s: Step): World
    requires Enabled(w, s)
  {
    match s
    case Request(cid, wellFormed) =>
      (match Admit(w.f, cid, wellFormed)
       case (_, Ignored) => w
       case (f', Running) => World(f', w.running + {cid}, w.pinned, w.arrived + [cid], w.granted + [cid])
       case (f', Waiting) => World(f', w.running, w.pinned, w.arrived + [cid], w.granted))
    case Complete(cid, success) =>
      var f' := Finish(w.f, cid, success);
      var pinned' := if success then w.pinned + {cid} else w.pinned;
      if w.f.queue == [] then World(f', w.running - {cid}, pinned', w.arrived, w.granted)
      else World(f', w.running - {cid} + {w.f.queue[0]}, pinned', w.arrived, w.granted + [w.f.queue[0]])
  }

  ghost function Waiters(q: seq<Cid>): set<Cid> {
    set c | c in q
  }

  /** At most ten pins are active, exactly ten while one waits. */
  ghost predicate SlotsOk(w: World) {
    && w.f.active == |w.running| <= MAX_CONCURRENT_PINS
    && (w.f.queue != [] ==> w.f.active == MAX_CONCURRENT_PINS)
  }

  /** The CIDs in progress are the active and the waiting ones, each once, and none has been
      seen; the CIDs seen are those pinned successfully. */
  ghost predicate CidsOk(w: World) {
    && Distinct(w.f.queue)
    && w.running !! Waiters(w.f.queue)
    && w.f.pinning == w.running + Waiters(w.f.queue)
    && w.f.pinning !! w.f.seen
    && w.f.seen == w.pinned
  }

  /** Slots have been granted in the order of arrival, and the others still wait in that order. */
  ghost predicate OrderOk(w: World) {
    w.granted + w.f.queue == w.arrived
  }

  ghost predicate Inv(w: World) {
    SlotsOk(w) && CidsOk(w) && OrderOk(w)
  }

  lemma WaitersSnoc(q: seq<Cid>, cid: Cid)
    ensures Waiters(q + [cid]) == Waiters(q) + {cid}
    ensures Distinct(q) && cid !in q ==> Distinct(q + [cid])
  {
  }

  lemma WaitersTail(q: seq<Cid>)
    requires q != [] && Distinct(q)
    ensures Waiters(q) == {q[0]} + Waiters(q[1..]) && q[0] !in Waiters(q[1..]) && Distinct(q[1..])
  {
    assert q == [q[0]] + q[1..];
  }

  lemma {:induction false} WaitersSize(q: seq<Cid>)
    requires Distinct(q)
    ensures |Waiters(q)| == |q|
  {
    if q == [] {
      assert Waiters(q) == {};
    } else {
      WaitersTail(q);
      WaitersSize(q[1..]);
    }
  }

  lemma RequestKeepsSlots(w: World, cid: Cid, wellFormed: bool)
    requires SlotsOk(w) && CidsOk(w)
    ensures SlotsOk(Next(w, Request(cid, wellFormed)))
  {
    hide Waiters, Distinct;
    if Admit(w.f, cid, wellFormed).1.Running? {
      assert cid !in w.running;
      assert |w.running + {cid}| == |w.running| + 1;
    }
  }

  lemma RequestKeepsCids(w: World, cid: Cid, wellFormed: bool)
    requires CidsOk(w)
    ensures CidsOk(Next(w, Request(cid, wellFormed)))
  {
    WaitersSnoc(w.f.queue, cid);
    assert cid in w.f.queue <==> cid in Waiters(w.f.queue);
    hide Waiters, Distinct;
  }

  lemma RequestKeepsInv(w: World, cid: Cid, wellFormed: bool)
    requires Inv(w)
    ensures Inv(Next(w, Request(cid, wellFormed)))
  {
    RequestKeepsSlots(w, cid, wellFormed);
    RequestKeepsCids(w, cid, wellFormed);
    hide CidsOk;
    var q := w.f.queue;
    assert w.granted + (q + [cid]) == w.granted + q + [cid];
    if Admit(w.f, cid, wellFormed).1.Running? {
      assert q == [] && w.granted + q == w.granted && w.granted + [cid] + q == w.granted + [cid];
    }
  }

  lemma CompleteKeepsSlots(w: World, cid: Cid, success: bool)
    requires SlotsOk(w) && CidsOk(w) && Enabled(w, Complete(cid, success))
    ensures SlotsOk(Next(w, Complete(cid, success)))
  {
    var q := w.f.queue;
    if q == [] {
      assert |w.running - {cid}| == |w.running| - 1;
    } else {
      assert q[0] in Waiters(q);
      SlotHandedOver(w.running, cid, q[0]);
    }
  }

  lemma CompleteKeepsCids(w: World, cid: Cid, success: bool)
    requires CidsOk(w) && Enabled(w, Complete(cid, success))
    ensures CidsOk(Next(w, Complete(cid, success)))
  {
    if w.f.queue != [] { WaitersTail(w.f.queue); }
    hide Waiters, Distinct;
  }

  lemma CompleteKeepsOrder(w: World, cid: Cid, success: bool)
    requires OrderOk(w) && Enabled(w, Complete(cid, success))
    ensures OrderOk(Next(w, Complete(cid, success)))
  {
    var q := w.f.queue;
    if q != [] { assert w.granted + [q[0]] + q[1..] == w.granted + q; }
  }

  lemma CompleteKeepsInv(w: World, cid: Cid, success: bool)
    requires Inv(w) && Enabled(w, Complete(cid, success))
    ensures Inv(Next(w, Complete(cid, success)))
  {
    hide SlotsOk, CidsOk, OrderOk, Next;
    CompleteKeepsSlots(w, cid, success);
    CompleteKeepsCids(w, cid, success);
    CompleteKeepsOrder(w, cid, success);
  }

  lemma SlotHandedOver(running: set<Cid>, cid: Cid, next: Cid)
    requires cid in running && next !in running
    ensures |running - {cid} + {next}| == |running|
  {
  }

  lemma StepKeepsInv(w: World, s: Step)
    requires Inv(w) && Enabled(w, s)
    ensures Inv(Next(w, s))
  {
    hide Inv, Next;
    match s
    case Request(cid, wellFormed) => RequestKeepsInv(w, cid, wellFormed);
    case Complete(cid, success) => CompleteKeepsInv(w, cid, success);
  }

  ghost predicate Execution(ws: seq<World>, steps: seq<Step>) {
    && |ws| == |steps| + 1
    && ws[0] == World(Fields(0, [], {}, {}), {}, {}, [], [])
    && forall i :: 0 <= i < |steps| ==> Enabled(ws[i], steps[i]) && ws[i + 1] == Next(ws[i], steps[i])
  }

  /** In every interleaving of requests, completions and failures: at most ten pins are active and
      exactly ten while one waits; the CIDs in progress are the active and the waiting ones, and none
      of them has been pinned already; and slots are granted in the order of arrival, with none lost. */
  lemma {:induction false} EveryInterleavingIsSafe(ws: seq<World>, steps: seq<Step>, n: nat)
    requires Execution(ws, steps) && n < |ws|
    ensures Inv(ws[n])
    ensures |ws[n].f.pinning| == ws[n].f.active + |ws[n].f.queue|
    ensures ws[n].granted <= ws[n].arrived
  {
    if n == 0 {
      assert Waiters([]) == {};
    } else {
      EveryInterleavingIsSafe(ws, steps, n - 1);
      StepKeepsInv(ws[n - 1], steps[n - 1]);
    }
    WaitersSize(ws[n].f.queue);
  }

  /** In every interleaving a request goes on exactly if its CID is well-formed, has not been pinned
      successfully and is neither being pinned nor waiting; then it has a slot at once if fewer than ten pins
      are running, and the end of the queue otherwise. Any other request changes nothing. */
  lemma RequestGoesOnIff(ws: seq<World>, steps: seq<Step>, n: nat)
    requires Execution(ws, steps) && n < |steps| && steps[n].Request?
    ensures var w, w', cid := ws[n], ws[n + 1], steps[n].cid;
            if steps[n].wellFormed && cid !in w.pinned && cid !in w.running && cid !in w.f.queue then
              if |w.running| < 10 then
                w'.arrived == w.arrived + [cid] && w'.running == w.running + {cid} && w'.f.queue == w.f.queue
              else
                w'.arrived == w.arrived + [cid] && w'.running == w.running && w'.f.queue == w.f.queue + [cid]
            else
              w' == w
  {
    EveryInterleavingIsSafe(ws, steps, n);
    assert ws[n + 1] == Next(ws[n], steps[n]);
  }

  /** The CIDs pinned are those of which a pin has completed successfully; a failed one can be requested
      again. */
  lemma {:induction false} PinnedIffSucceeded(ws: seq<World>, steps: seq<Step>, n: nat, cid: Cid)
    requires Execution(ws, steps) && n < |ws|
    ensures cid in ws[n].f.seen <==> exists i :: 0 <= i < n && steps[i] == Complete(cid, true)
    ensures ws[n].pinned == ws[n].f.seen
  {
    EveryInterleavingIsSafe(ws, steps, n);
    if n > 0 {
      PinnedIffSucceeded(ws, steps, n - 1, cid);
      assert ws[n] == Next(ws[n - 1], steps[n - 1]);
      if steps[n - 1] == Complete(cid, true) { assert 0 <= n - 1 < n; }
    }
  }

  ghost function Completions(steps: seq<Step>, m: nat, n: nat): nat
    requires m <= n <= |steps|
    decreases n
  {
    if m == n then 0 else Completions(steps, m, n - 1) + (if steps[n - 1].Complete? then 1 else 0)
  }

  /** Nobody waits for more than its turn: the pin at position `k` of the queue has its slot after at
      most `k + 1` completions, whatever is requested meanwhile. */
  lemma {:induction false} WaiterIsServed(ws: seq<World>, steps: seq<Step>, m: nat, n: nat, k: nat)
    requires Execution(ws, steps) && m <= n < |ws| && k < |ws[m].f.queue|
    requires Completions(steps, m, n) > k
    ensures |ws[m].granted| + k < |ws[n].granted| && ws[n].granted[|ws[m].granted| + k] == ws[m].f.queue[k]
  {
    GrantedSince(ws, steps, m, n);
    EveryInterleavingIsSafe(ws, steps, m);
    EveryInterleavingIsSafe(ws, steps, n);
    assert ws[m].arrived[|ws[m].granted| + k] == ws[m].f.queue[k];
  }

  lemma {:induction false} GrantedSince(ws: seq<World>, steps: seq<Step>, m: nat, n: nat)
    requires Execution(ws, steps) && m <= n < |ws|
    ensures ws[m].arrived <= ws[n].arrived
    ensures |ws[n].granted| >= |ws[m].granted|
    ensures |ws[n].granted| >= |ws[m].granted| + Completions(steps, m, n) || |ws[n].granted| >= |ws[m].arrived|
    decreases n
  {
    hide Next, SlotsOk, CidsOk, OrderOk;
    if m < n {
      GrantedSince(ws, steps, m, n - 1);
      EveryInterleavingIsSafe(ws, steps, n - 1);
      OneStepGrants(ws[n - 1], steps[n - 1]);
    }
  }

  lemma OneStepGrants(w: World, s: Step)
    requires OrderOk(w) && Enabled(w, s)
    ensures var w' := Next(w, s);
            && w.arrived <= w'.arrived && w.granted <= w'.granted
            && (s.Complete? ==> |w'.granted| > |w.granted| || |w.granted| == |w.arrived|)
  {
  }
}
