/**
 The mutation queue of the ACL chain (`_runExclusive` in acl-chain.ts): calls may be made at any time,
 each call pauses at its awaits, and what it decides is based on what it read before them. Each call is
 chained onto the promise that the queue holds when it is made, and the queue then holds a promise that
 settles after that call has, whether it succeeded or failed. Nothing else keeps calls apart; that they
 run one at a time and in order, as if each ran as a whole, is proved.
 */
module AclQueue {
  import opened Collections
  import opened AclChain
  import opened AclTrust

  /** The task of a call, with the chains that it has read so far; a replay has ingested its
      first `next` entries and is reading for the next one. */
  datatype Task = Deciding(seen: seq<Chain>) | Replaying(next: nat, seen: seq<Chain>)

  /** A call whose task has not begun; whose task runs; whose task has settled; and after which the
      promise that the queue made for it has settled too. */
  datatype Status = Waiting | Running(task: Task) | Settled(rejected: bool) | Released

  /** All calls in the order in which they were made, with the call whose promise each is chained onto;
      `tail` is the call whose promise `_mutationQueue` holds, at first none. */
  datatype World = World(chain: Chain, made: seq<Call>, after: seq<Option<nat>>, status: seq<Status>, tail: Option<nat>)

  /** The handlers that may run next, in whatever order the promises settle. */
  datatype Step = Make(call: Call) | Start(i: nat) | Proceed(i: nat, rejected: bool) | Release(i: nat)

  const START := World(EMPTY, [], [], [], None)

  ghost predicate Sized(w: World) {
    |w.made| == |w.after| == |w.status|
  }

  ghost predicate Enabled(w: World, s: Step) {
    Sized(w) &&
    match s
    case Make(_) => true
    case Start(i) =>
      && i < |w.made| && w.status[i].Waiting?
      && (w.after[i].None? || (w.after[i].value < |w.made| && w.status[w.after[i].value].Released?))
    case Proceed(i, _) => i < |w.made| && w.status[i].Running? && InStep(w.made[i], w.status[i].task)
    case Release(i) => i < |w.made| && w.status[i].Settled?
  }

  /** `_ingestEntryInternal` with the chains that it sees: the length before its first `await`, the head
      hash after serializing the key, the state, and whether there are entries, after verification. */
  ghost function JudgeReading(cfg: Config, seen: seq<Chain>, w: WireEntry, key: PublicKey): Judgement
    requires |seen| == 3
  {
    match ValidateShape(w)
    case None => Refuse(MalformedEntry)
    case Some(e) =>
      match cfg.serializeKey(key)
      case None => Refuse(MalformedEntry)
      case Some(actual) =>
        if e.signerKeyId != actual then Refuse(UnknownSignerKey)
        else if e.sequenceNumber != |seen[0].entries| then Refuse(SequenceOutOfOrder)
        else if e.parentHash != HeadHash(seen[1]) then Refuse(ParentHashMismatch)
        else JudgePayload(cfg, seen[2], e, key)
  }

  /** How often a call reads the chain; authoring reads it once more, to compose its entry. */
  function ReadCount(call: Call): nat {
    if call.AuthorCall? then 4 else 3
  }

  ghost function Decided(cfg: Config, seen: seq<Chain>, call: Call): Judgement
    requires !call.ReplayCall? && |seen| == ReadCount(call)
  {
    match call
    case IngestCall(w, key) => JudgeReading(cfg, seen, w, key)
    case AuthorCall(change, pub, priv, t) =>
      match Compose(cfg, seen[0], change, pub, priv, t)
      case None => Refuse(MalformedEntry)
      case Some(w) => JudgeReading(cfg, seen[1..], w, pub)
  }

  /** Writes what was decided onto the chain that is there now. */
  ghost function Written(now: Chain, j: Judgement): Chain {
    if j.Commit? then Append(now, j) else now
  }

  /** The key that a replay resolves for an entry. */
  ghost function ResolvedKey(w: WireEntry, resolve: Resolver): Option<PublicKey> {
    var shaped := ValidateShape(w);
    if shaped.None? then None else resolve(shaped.value.signerKeyId)
  }

  ghost predicate InStep(call: Call, task: Task) {
    match task
    case Deciding(seen) => !call.ReplayCall? && |seen| <= ReadCount(call)
    case Replaying(next, seen) => call.ReplayCall? && next <= |call.entries| && |seen| <= ReadCount(call)
  }

  /** One stretch of the task of call `i` between two awaits. */
  ghost function Proceeded(cfg: Config, w: World, i: nat, rejected: bool): (Chain, Status)
    requires Enabled(w, Proceed(i, rejected))
  {
    var call, task := w.made[i], w.status[i].task;
    match task
    case Deciding(seen) =>
      if |seen| < ReadCount(call) then (w.chain, Running(Deciding(seen + [w.chain])))
      else (Written(w.chain, Decided(cfg, seen, call)), Settled(rejected))
    case Replaying(next, seen) =>
      if next == |call.entries| then (w.chain, Settled(rejected))
      else
        match ResolvedKey(call.entries[next], call.resolve)
        case None => (w.chain, Settled(rejected))
        case Some(key) =>
          if |seen| < ReadCount(call) then (w.chain, Running(Replaying(next, seen + [w.chain])))
          else
            var j := JudgeReading(cfg, seen, call.entries[next], key);
            (Written(w.chain, j), if j.Commit? then Running(Replaying(next + 1, [])) else Settled(rejected))
  }

  ghost function Next(cfg: Config, w: World, s: Step): World
    requires Enabled(w, s)
  {
    match s
    case Make(call) =>
      World(w.chain, w.made + [call], w.after + [w.tail], w.status + [Waiting], Some(|w.made|))
    case Start(i) =>
      if w.made[i].ReplayCall? then w.(chain := EMPTY, status := w.status[i := Running(Replaying(0, []))])
      else w.(status := w.status[i := Running(Deciding([]))])
    case Proceed(i, rejected) =>
      var (chain, status) := Proceeded(cfg, w, i, rejected);
      w.(chain := chain, status := w.status[i := status])
    case Release(i) => w.(status := w.status[i := Released])
  }

  // ----- the promises form a chain

  /** Each call is chained onto the one made before it. */
  ghost predicate Chained(w: World) {
    && Sized(w)
    && w.tail == (if w.made == [] then None else Some(|w.made| - 1))
    && forall i :: 0 <= i < |w.after| ==> w.after[i] == if i == 0 then None else Some(i - 1)
  }

  predicate Ended(s: Status) {
    s.Settled? || s.Released?
  }

  /** The first `k` calls have ended, the next may be running, the others wait. */
  ghost predicate At(w: World, k: nat)
    requires Sized(w)
  {
    && k <= |w.made|
    && (forall i :: 0 <= i < k ==> Ended(w.status[i]))
    && (forall i :: 0 <= i < k - 1 ==> w.status[i].Released?)
    && (forall i :: k < i < |w.status| ==> w.status[i].Waiting?)
    && (k < |w.made| ==> !Ended(w.status[k]) && (w.status[k].Running? && k > 0 ==> w.status[k - 1].Released?))
  }

  ghost predicate ChainOk(cfg: Config, w: World, k: nat)
    requires Sized(w) && k <= |w.made|
  {
    if k < |w.made| && w.status[k].Running? then TaskOk(cfg, w.chain, w.made[..k], w.made[k], w.status[k].task)
    else w.chain == Run(cfg, w.made[..k])
  }

  /** What holds while the task of `call` runs after `earlier` calls: all it has read is still so. */
  ghost predicate TaskOk(cfg: Config, chain: Chain, earlier: seq<Call>, call: Call, task: Task) {
    && InStep(call, task) && (forall k :: 0 <= k < |task.seen| ==> task.seen[k] == chain)
    && match task
       case Deciding(_) => chain == Run(cfg, earlier)
       case Replaying(next, _) =>
         && Trusted(cfg, chain)
         && ReplayFrom(cfg, chain, call.entries, call.resolve, next) == Replay(cfg, call.entries, call.resolve)
  }

  ghost predicate Inv(cfg: Config, w: World) {
    Chained(w) && exists k: nat :: At(w, k) && ChainOk(cfg, w, k)
  }

  lemma RunSnoc(cfg: Config, calls: seq<Call>, call: Call)
    ensures Run(cfg, calls + [call]) == Perform(cfg, Run(cfg, calls), call)
  {
    assert (calls + [call])[..|calls|] == calls;
  }

  /** Reading the same chain each time is judging it at once. */
  lemma ReadingJudges(cfg: Config, seen: seq<Chain>, c: Chain, w: WireEntry, key: PublicKey)
    requires |seen| == 3 && forall k :: 0 <= k < 3 ==> seen[k] == c
    ensures JudgeReading(cfg, seen, w, key) == Judge(cfg, c, w, key)
  {
    hide JudgePayload, ValidateShape;
  }

  lemma DecidedPerforms(cfg: Config, seen: seq<Chain>, c: Chain, call: Call)
    requires !call.ReplayCall? && |seen| == ReadCount(call) && forall k :: 0 <= k < |seen| ==> seen[k] == c
    ensures Written(c, Decided(cfg, seen, call)) == Perform(cfg, c, call)
  {
    hide Judge, JudgeReading, Compose;
    match call
    case IngestCall(w, key) => ReadingJudges(cfg, seen, c, w, key);
    case AuthorCall(change, pub, priv, t) =>
      var w := Compose(cfg, c, change, pub, priv, t);
      if w.Some? { ReadingJudges(cfg, seen[1..], c, w.value, pub); }
  }

  lemma DecidingProceeds(cfg: Config, w: World, i: nat, rejected: bool)
    requires Enabled(w, Proceed(i, rejected)) && TaskOk(cfg, w.chain, w.made[..i], w.made[i], w.status[i].task)
    requires w.status[i].task.Deciding?
    ensures Proceeds(cfg, w, i, rejected)
  {
    hide Trusted, Run, Perform, Decided, Written;
    var call, seen := w.made[i], w.status[i].task.seen;
    assert w.made[..i + 1] == w.made[..i] + [call];
    RunSnoc(cfg, w.made[..i], call);
    if |seen| == ReadCount(call) { DecidedPerforms(cfg, seen, w.chain, call); }
  }

  lemma ReplayingProceeds(cfg: Config, w: World, i: nat, rejected: bool)
    requires Enabled(w, Proceed(i, rejected)) && TaskOk(cfg, w.chain, w.made[..i], w.made[i], w.status[i].task)
    requires w.status[i].task.Replaying?
    ensures Proceeds(cfg, w, i, rejected)
  {
    hide Trusted, Run, Judge, JudgeReading, ValidateShape;
    var call := w.made[i];
    var Replaying(next, seen) := w.status[i].task;
    assert w.made[..i + 1] == w.made[..i] + [call];
    RunSnoc(cfg, w.made[..i], call);
    if next < |call.entries| && ResolvedKey(call.entries[next], call.resolve).Some? && |seen| == ReadCount(call) {
      var key := ResolvedKey(call.entries[next], call.resolve).value;
      ReadingJudges(cfg, seen, w.chain, call.entries[next], key);
      if Judge(cfg, w.chain, call.entries[next], key).Commit? {
        CommitKeepsTrust(cfg, w.chain, call.entries[next], key);
      }
    }
  }

  /** A stretch of a task leaves it running as it should, or ended with what the whole call produces. */
  ghost predicate Proceeds(cfg: Config, w: World, i: nat, rejected: bool)
    requires Enabled(w, Proceed(i, rejected))
  {
    var (chain, status) := Proceeded(cfg, w, i, rejected);
    if status.Running? then TaskOk(cfg, chain, w.made[..i], w.made[i], status.task)
    else Ended(status) && chain == Run(cfg, w.made[..i + 1])
  }

  lemma TaskProceeds(cfg: Config, w: World, i: nat, rejected: bool)
    requires Enabled(w, Proceed(i, rejected)) && TaskOk(cfg, w.chain, w.made[..i], w.made[i], w.status[i].task)
    ensures Proceeds(cfg, w, i, rejected)
  {
    hide TaskOk, Proceeds;
    if w.status[i].task.Deciding? {
      DecidingProceeds(cfg, w, i, rejected);
    } else {
      ReplayingProceeds(cfg, w, i, rejected);
    }
  }

  /** A call can start only when all calls made before it have ended and released the queue. */
  lemma OnlyNextStarts(w: World, k: nat, i: nat)
    requires Chained(w) && At(w, k) && Enabled(w, Start(i))
    ensures i == k && (k > 0 ==> w.status[k - 1].Released?)
  {
  }

  lemma StartKeepsInv(cfg: Config, w: World, k: nat, i: nat)
    requires Chained(w) && At(w, k) && ChainOk(cfg, w, k) && Enabled(w, Start(i))
    ensures At(Next(cfg, w, Start(i)), k) && ChainOk(cfg, Next(cfg, w, Start(i)), k)
  {
    hide Run, Trusted, Replay;
    OnlyNextStarts(w, k, i);
    EmptyIsTrusted(cfg, w.made[i]);
  }

  lemma EmptyIsTrusted(cfg: Config, call: Call)
    ensures Trusted(cfg, EMPTY)
    ensures call.ReplayCall? ==>
              ReplayFrom(cfg, EMPTY, call.entries, call.resolve, 0) == Replay(cfg, call.entries, call.resolve)
  {
    EveryRunIsTrusted(cfg, []);
  }

  lemma ProceedKeepsInv(cfg: Config, w: World, k: nat, i: nat, rejected: bool)
    requires Chained(w) && At(w, k) && ChainOk(cfg, w, k) && Enabled(w, Proceed(i, rejected))
    ensures var w' := Next(cfg, w, Proceed(i, rejected));
            (At(w', k) && ChainOk(cfg, w', k)) || (At(w', k + 1) && ChainOk(cfg, w', k + 1))
  {
    hide Run, TaskOk, Proceeded;
    assert i == k;
    TaskProceeds(cfg, w, i, rejected);
    var w' := Next(cfg, w, Proceed(i, rejected));
    if w'.status[i].Running? {
      assert At(w', k);
    } else {
      assert At(w', k + 1);
    }
  }

  lemma StepKeepsInv(cfg: Config, w: World, s: Step)
    requires Inv(cfg, w) && Enabled(w, s)
    ensures Inv(cfg, Next(cfg, w, s))
  {
    hide Run, TaskOk, Proceeded;
    var k: nat :| At(w, k) && ChainOk(cfg, w, k);
    var w' := Next(cfg, w, s);
    assert Chained(w');
    match s
    case Make(call) =>
      assert w'.made[..k] == w.made[..k];
      assert At(w', k) && ChainOk(cfg, w', k);
    case Start(i) => StartKeepsInv(cfg, w, k, i);
    case Proceed(i, rejected) => ProceedKeepsInv(cfg, w, k, i, rejected);
    case Release(i) => assert At(w', k) && ChainOk(cfg, w', k);
  }

  ghost predicate Execution(cfg: Config, ws: seq<World>, steps: seq<Step>) {
    && |ws| == |steps| + 1
    && ws[0] == START
    && forall i :: 0 <= i < |steps| ==> Enabled(ws[i], steps[i]) && ws[i + 1] == Next(cfg, ws[i], steps[i])
  }

  lemma {:induction false} EveryInterleavingKeepsInv(cfg: Config, ws: seq<World>, steps: seq<Step>, n: nat)
    requires Execution(cfg, ws, steps) && n < |ws|
    ensures Inv(cfg, ws[n])
  {
    hide Inv, Next;
    if n == 0 {
      StartIsFine(cfg);
    } else {
      EveryInterleavingKeepsInv(cfg, ws, steps, n - 1);
      StepKeepsInv(cfg, ws[n - 1], steps[n - 1]);
    }
  }

  lemma StartIsFine(cfg: Config)
    ensures Inv(cfg, START)
  {
    assert At(START, 0) && ChainOk(cfg, START, 0);
  }

  /** However calls and their pauses interleave, at most one task runs, and no task begins before every
      call made earlier has ended and released the queue. */
  lemma CallsRunOneByOne(cfg: Config, ws: seq<World>, steps: seq<Step>, n: nat, i: nat, j: nat)
    requires Execution(cfg, ws, steps) && n < |ws| && i < |ws[n].made| && j < |ws[n].made|
    ensures Sized(ws[n])
    ensures ws[n].status[i].Running? && ws[n].status[j].Running? ==> i == j
    ensures i < j && !ws[n].status[j].Waiting? ==> ws[n].status[i].Released?
  {
    hide ChainOk;
    EveryInterleavingKeepsInv(cfg, ws, steps, n);
    var k: nat :| At(ws[n], k) && ChainOk(cfg, ws[n], k);
  }

  /** However they interleave, the chain of trust holds at every moment, in the middle of a replay too;
      whatever a task has read of the chain, at whichever of its awaits, is still so; and when every call has ended,
      the chain is the one that the calls made so far produce when each runs as a whole, in the order in
      which they were made. */
  lemma QueueSerializesCalls(cfg: Config, ws: seq<World>, steps: seq<Step>, n: nat)
    requires Execution(cfg, ws, steps) && n < |ws|
    ensures Trusted(cfg, ws[n].chain)
    ensures forall i :: 0 <= i < |ws[n].status| && ws[n].status[i].Running? ==>
              forall k :: 0 <= k < |ws[n].status[i].task.seen| ==> ws[n].status[i].task.seen[k] == ws[n].chain
    ensures (forall i :: 0 <= i < |ws[n].status| ==> Ended(ws[n].status[i])) ==> ws[n].chain == Run(cfg, ws[n].made)
  {
    hide Trusted, Run, ReplayFrom;
    EveryInterleavingKeepsInv(cfg, ws, steps, n);
    var w := ws[n];
    var k: nat :| At(w, k) && ChainOk(cfg, w, k);
    EveryRunIsTrusted(cfg, w.made[..k]);
    if forall i :: 0 <= i < |w.status| ==> Ended(w.status[i]) {
      assert k == |w.made| && w.made[..k] == w.made;
    }
  }

  /** A call that fails holds nothing up: while a call has not ended, some handler can run. */
  lemma QueueNeverStalls(cfg: Config, ws: seq<World>, steps: seq<Step>, n: nat)
    requires Execution(cfg, ws, steps) && n < |ws|
    requires exists i :: 0 <= i < |ws[n].status| && !Ended(ws[n].status[i])
    ensures exists i :: Enabled(ws[n], Start(i)) || Enabled(ws[n], Proceed(i, false)) || Enabled(ws[n], Release(i))
  {
    hide Run, Trusted, ReplayFrom;
    EveryInterleavingKeepsInv(cfg, ws, steps, n);
    var w := ws[n];
    var k: nat :| At(w, k) && ChainOk(cfg, w, k);
    if w.status[k].Running? {
      assert Enabled(w, Proceed(k, false));
    } else if k == 0 || w.status[k - 1].Released? {
      assert Enabled(w, Start(k));
    } else {
      assert Enabled(w, Release(k - 1));
    }
  }
}
