/**
 What becomes of the changes of a transaction (`startChange`, `addChange`, `endChange` in
 collabswarm-document.ts), over every history of calls and of whatever else happens to the document.
 */
module ChangeBatches {
  import opened Collections
  import opened Transactions

  /** One thing that happens: an event, `startChange` and `addChange` among them; a call of `endChange`; and
      the success or the failure of the commit that is running. */
  datatype Act = Happening(e: Event) | End | Succeed | Fail

  /** The document, and what the running commit noted. */
  datatype World = World(s: State, noted: Option<Checkpoint>)

  ghost predicate Enabled(w: World, a: Act) {
    match a
    case Happening(_) => true
    case End => true
    case Succeed => w.noted.Some?
    case Fail => w.noted.Some?
  }

  ghost predicate Fits(s: State, c: Checkpoint) {
    c.hashSize <= |s.hashes| && c.ancestorSize <= |s.referencedAncestors|
  }

  /** The end of a commit that succeeded, as `FinishCommit` leaves it. */
  ghost function Finished(s: State): State {
    s.(inTransaction := false, committing := false, pendingChangeFns := [])
  }

  ghost function Next(w: World, a: Act): World
    requires Enabled(w, a)
  {
    match a
    case Happening(e) => w.(s := Happens(w.s, e))
    case End =>
      var (s, answer) := CommitBegun(w.s);
      World(s, if answer.Noted? then Some(answer.checkpoint) else w.noted)
    case Succeed => World(Finished(w.s), None)
    case Fail => World(if Fits(w.s, w.noted.value) then RolledBack(w.s, w.noted.value) else w.s, None)
  }

  /** A document with no transaction open. */
  ghost predicate Idle(w: World) {
    !w.s.inTransaction && !w.s.committing && w.noted.None?
  }

  ghost predicate Execution(ws: seq<World>, acts: seq<Act>) {
    && |ws| == |acts| + 1
    && Idle(ws[0])
    && forall i :: 0 <= i < |acts| ==> Enabled(ws[i], acts[i]) && ws[i + 1] == Next(ws[i], acts[i])
  }

  // ----- the transaction as its callers see it

  /** No transaction; one that is open with the changes added so far; one whose changes are being committed. */
  datatype Phase = Closed | Open(fns: seq<ChangeFn>) | Committing(fns: seq<ChangeFn>)

  /** What the calls alone say: a start opens, an addition joins an open batch, an end commits a batch that is
      not empty and closes one that is, and a commit closes when it succeeds or fails. */
  ghost function PhaseAfter(acts: seq<Act>): Phase {
    if acts == [] then Closed
    else
      var before, last := PhaseAfter(acts[..|acts| - 1]), acts[|acts| - 1];
      match (before, last)
      case (Closed, Happening(CallStartChange)) => Open([])
      case (Open(fns), Happening(CallAddChange(fn))) => Open(fns + [fn])
      case (Open(fns), End) => if fns == [] then Closed else Committing(fns)
      case (Committing(_), Succeed) => Closed
      case (Committing(_), Fail) => Closed
      case _ => before
  }

  /** The document is in the phase. */
  ghost predicate InPhase(w: World, p: Phase) {
    match p
    case Closed => !w.s.inTransaction && !w.s.committing && w.noted.None?
    case Open(fns) => w.s.inTransaction && !w.s.committing && w.noted.None? && w.s.pendingChangeFns == fns
    case Committing(fns) =>
      w.s.inTransaction && w.s.committing && w.s.pendingChangeFns == fns && w.noted.Some? && Fits(w.s, w.noted.value)
  }

  lemma StepKeepsPhase(w: World, p: Phase, a: Act)
    requires InPhase(w, p) && Enabled(w, a)
    ensures match (p, a)
            case (Closed, Happening(CallStartChange)) => InPhase(Next(w, a), Open([]))
            case (Open(fns), Happening(CallAddChange(fn))) => InPhase(Next(w, a), Open(fns + [fn]))
            case (Open(fns), End) => InPhase(Next(w, a), if fns == [] then Closed else Committing(fns))
            case (Committing(_), Succeed) => InPhase(Next(w, a), Closed)
            case (Committing(_), Fail) => InPhase(Next(w, a), Closed)
            case _ => InPhase(Next(w, a), p)
  {
    hide PrunedThere;
  }

  /** In every history the document is in the phase that the calls alone say: the pending batch is exactly the
      changes accepted since the transaction was opened, in order. */
  lemma {:induction false} EveryHistoryIsInPhase(ws: seq<World>, acts: seq<Act>, n: nat)
    requires Execution(ws, acts) && n < |ws|
    ensures InPhase(ws[n], PhaseAfter(acts[..n]))
  {
    if n > 0 {
      EveryHistoryIsInPhase(ws, acts, n - 1);
      assert acts[..n][..n - 1] == acts[..n - 1] && acts[..n][n - 1] == acts[n - 1];
      StepKeepsPhase(ws[n - 1], PhaseAfter(acts[..n - 1]), acts[n - 1]);
    }
  }

  /** How `endChange` answers after any history: it throws exactly if no transaction is open or one is being
      committed; it has nothing to do exactly if the open one is empty; otherwise it goes on to commit exactly
      the changes that were accepted. */
  lemma EndAnswers(ws: seq<World>, acts: seq<Act>, n: nat)
    requires Execution(ws, acts) && n < |ws|
    ensures var (s, answer) := CommitBegun(ws[n].s);
            match PhaseAfter(acts[..n])
            case Closed => answer == Throws && s == ws[n].s
            case Committing(_) => answer == Throws && s == ws[n].s
            case Open(fns) =>
              if fns == [] then answer == NothingPending && !s.inTransaction
              else answer.Noted? && s == ws[n].s.(committing := true) && s.pendingChangeFns == fns
  {
    EveryHistoryIsInPhase(ws, acts, n);
  }

  lemma StartOpens(acts: seq<Act>)
    requires PhaseAfter(acts).Closed?
    ensures PhaseAfter(acts + [Happening(CallStartChange)]) == Open([])
  {
    var more := acts + [Happening(CallStartChange)];
    assert more[..|more| - 1] == acts;
  }

  lemma AdditionJoins(acts: seq<Act>, fn: ChangeFn)
    requires PhaseAfter(acts).Open?
    ensures PhaseAfter(acts + [Happening(CallAddChange(fn))]) == Open(PhaseAfter(acts).fns + [fn])
  {
    var more := acts + [Happening(CallAddChange(fn))];
    assert more[..|more| - 1] == acts;
  }

  ghost function Additions(fns: seq<ChangeFn>): seq<Act> {
    seq(|fns|, i requires 0 <= i < |fns| => Happening(CallAddChange(fns[i])))
  }

  /** After a start and the additions `fns`, the batch is `fns`. */
  lemma {:induction false} StartAndAdd(acts: seq<Act>, fns: seq<ChangeFn>)
    requires PhaseAfter(acts).Closed?
    ensures PhaseAfter(acts + [Happening(CallStartChange)] + Additions(fns)) == Open(fns)
  {
    hide PhaseAfter;
    var started := acts + [Happening(CallStartChange)];
    if fns == [] {
      StartOpens(acts);
      assert started + Additions(fns) == started;
    } else {
      var init, last := fns[..|fns| - 1], fns[|fns| - 1];
      StartAndAdd(acts, init);
      AdditionJoins(started + Additions(init), last);
      assert Additions(fns) == Additions(init) + [Happening(CallAddChange(last))];
      assert started + Additions(fns) == started + Additions(init) + [Happening(CallAddChange(last))];
      assert init + [last] == fns;
    }
  }

  /** No accepted change gets lost: one accepted in step `i` is, at every later moment, still at its place in
      the batch, unless a commit of a batch that held it there has ended meanwhile. */
  lemma {:induction false} NoChangeIsLost(acts: seq<Act>, i: nat, n: nat)
    requires i < n <= |acts|
    requires acts[i].Happening? && acts[i].e.CallAddChange? && PhaseAfter(acts[..i]).Open?
    ensures var k, fn := |PhaseAfter(acts[..i]).fns|, acts[i].e.fn;
            Holds(PhaseAfter(acts[..n]), k, fn) || exists j :: EndsCommit(acts, i, j, n, k, fn)
    decreases n
  {
    var k, fn := |PhaseAfter(acts[..i]).fns|, acts[i].e.fn;
    assert acts[..n][..n - 1] == acts[..n - 1] && acts[..n][n - 1] == acts[n - 1];
    if n > i + 1 {
      NoChangeIsLost(acts, i, n - 1);
      if Holds(PhaseAfter(acts[..n - 1]), k, fn) {
        if !Holds(PhaseAfter(acts[..n]), k, fn) { assert EndsCommit(acts, i, n - 1, n, k, fn); }
      } else {
        var j :| EndsCommit(acts, i, j, n - 1, k, fn);
        assert EndsCommit(acts, i, j, n, k, fn);
      }
    }
  }

  ghost predicate Holds(p: Phase, k: nat, fn: ChangeFn) {
    !p.Closed? && k < |p.fns| && p.fns[k] == fn
  }

  /** Step `j` ends a commit of a batch with `fn` at place `k`. */
  ghost predicate EndsCommit(acts: seq<Act>, i: nat, j: nat, n: nat, k: nat, fn: ChangeFn) {
    i < j < n <= |acts| && (acts[j].Succeed? || acts[j].Fail?) &&
    PhaseAfter(acts[..j]).Committing? && Holds(PhaseAfter(acts[..j]), k, fn)
  }
}
