/**
 The writer-key cache of a document (collabswarm-document.ts): a cached copy of the writer list,
 guarded by a version counter and a count of mutations in flight.

 Reads and mutations interleave at every `await`. The class holds the code between two awaits;
 the transition system below runs it in every order.
 */
module WriterKeyCache {
  import opened Collections

  type Keys(==, !new)

  /** The three fields that reads and mutations share. */
  datatype Fields = Fields(cached: Option<Keys>, version: nat, inFlight: nat)

  /** How a read continues after one stretch of code: it returns, or it awaits `users()` having
      noted the version. */
  datatype ReadStep = Return(keys: Keys) | Await(versionAtStart: nat)

  function Invalidated(f: Fields): Fields {
    f.(cached := None, version := f.version + 1)
  }

  function MutationBegun(f: Fields): Fields {
    Invalidated(f.(inFlight := f.inFlight + 1))
  }

  function MutationEnded(f: Fields): Fields
    requires f.inFlight > 0
  {
    Invalidated(f.(inFlight := f.inFlight - 1))
  }

  /** The head of the loop in `_getWriterKeys`. */
  function ReadHead(f: Fields): ReadStep {
    if f.inFlight == 0 && f.cached.Some? then Return(f.cached.value) else Await(f.version)
  }

  /** The rest of the loop body once `users()` has delivered `fetched`. */
  function ReadTail(f: Fields, versionAtStart: nat, fetched: Keys): (Fields, ReadStep) {
    if f.version == versionAtStart && f.inFlight == 0 then (f.(cached := Some(fetched)), Return(fetched))
    else if f.version != versionAtStart then (f, ReadHead(f))
    else (f, Return(fetched))
  }

  class WriterKeys {
    var cachedWriterKeys: Option<Keys>
    var writerKeysVersion: nat
    var writerMutationsInFlight: nat

    constructor ()
      ensures Shared() == Fields(None, 0, 0)
    {
      cachedWriterKeys, writerKeysVersion, writerMutationsInFlight := None, 0, 0;
    }

    ghost function Shared(): Fields
      reads this
    {
      Fields(cachedWriterKeys, writerKeysVersion, writerMutationsInFlight)
    }

    method Invalidate()
      modifies this
      ensures Shared() == Invalidated(old(Shared()))
    {
      cachedWriterKeys := None;
      writerKeysVersion := writerKeysVersion + 1;
    }

    /** `_getWriterKeys` up to its `await`. */
    method BeginRead() returns (r: ReadStep)
      ensures r == ReadHead(Shared())
    {
      if writerMutationsInFlight == 0 && cachedWriterKeys.Some? {
        return Return(cachedWriterKeys.value);
      }
      return Await(writerKeysVersion);
    }

    /** `_getWriterKeys` from its `await` to a return or to the next `await`. */
    method ResumeRead(versionAtStart: nat, fetched: Keys) returns (r: ReadStep)
      modifies this
      ensures (Shared(), r) == ReadTail(old(Shared()), versionAtStart, fetched)
    {
      if writerKeysVersion == versionAtStart && writerMutationsInFlight == 0 {
        cachedWriterKeys := Some(fetched);
        return Return(fetched);
      }
      if writerKeysVersion != versionAtStart {
        r := BeginRead();
        return r;
      }
      return Return(fetched);
    }

    /** `_runWriterMutation` up to its `await`. */
    method BeginMutation()
      modifies this
      ensures Shared() == MutationBegun(old(Shared()))
    {
      writerMutationsInFlight := writerMutationsInFlight + 1;
      Invalidate();
    }

    /** The `finally` block of `_runWriterMutation`, after success and after failure alike. */
    method EndMutation()
      requires writerMutationsInFlight > 0
      modifies this
      ensures Shared() == MutationEnded(old(Shared()))
    {
      writerMutationsInFlight := writerMutationsInFlight - 1;
      Invalidate();
    }
  }

  // ----- every interleaving

  /** A read in progress: when it was called (version and position in the history of the list),
      the version noted before the current fetch, how often it went round the loop again, and the
      position and value that `users()` sampled, once it has. */
  datatype Reader =
    Reader(calledVersion: nat, calledAt: nat, versionAtStart: nat, retries: nat, sample: Option<(nat, Keys)>)

  /** A read that has returned: its result, and the position and version at that moment. */
  datatype Returned = Returned(keys: Keys, reader: Reader, when: nat, version: nat)

  type Id = nat

  /** `history` lists every value the writer list has had; the last one is current. */
  datatype World = World(
    f: Fields,
    history: seq<Keys>,
    readers: map<Id, Reader>,
    mutations: set<Id>,
    returned: seq<Returned>)

  datatype Step =
    | CallRead(r: Id)
    | Sample(r: Id)               // `users()` reads the list at some moment of the await
    | Resume(r: Id)
    | Begin(m: Id)
    | Alter(m: Id, keys: Keys)    // a mutation in flight changes the list, any number of times
    | Finish(m: Id)               // it resolves or throws
    | MergeNow(keys: Keys)        // `_mergeWriters`: begin, change and finish without an await

  ghost function Current(w: World): Keys
    requires |w.history| > 0
  {
    w.history[|w.history| - 1]
  }

  ghost function Now(w: World): nat
    requires |w.history| > 0
  {
    |w.history| - 1
  }

  /** Where a read goes after a stretch of its code. */
  ghost function Continue(w: World, id: Id, r: Reader, step: ReadStep): World
    requires |w.history| > 0
  {
    match step
    case Return(keys) =>
      w.(readers := w.readers - {id}, returned := w.returned + [Returned(keys, r, Now(w), w.f.version)])
    case Await(v) =>
      w.(readers := w.readers[id := r.(versionAtStart := v, sample := None)])
  }

  ghost predicate Enabled(w: World, s: Step) {
    && |w.history| > 0
    && match s
       case CallRead(r) => r !in w.readers
       case Sample(r) => r in w.readers && w.readers[r].sample.None?
       case Resume(r) => r in w.readers && w.readers[r].sample.Some?
       case Begin(m) => m !in w.mutations
       case Alter(m, _) => m in w.mutations
       case Finish(m) => m in w.mutations && w.f.inFlight > 0
       case MergeNow(_) => true
  }

  ghost function Next(w: World, s: Step): World
    requires Enabled(w, s)
  {
    match s
    case CallRead(r) =>
      Continue(w, r, Reader(w.f.version, Now(w), w.f.version, 0, None), ReadHead(w.f))
    case Sample(r) =>
      w.(readers := w.readers[r := w.readers[r].(sample := Some((Now(w), Current(w))))])
    case Resume(r) =>
      var reader := w.readers[r];
      var (f', step) := ReadTail(w.f, reader.versionAtStart, reader.sample.value.1);
      var again := if w.f.version != reader.versionAtStart then reader.(retries := reader.retries + 1) else reader;
      Continue(w.(f := f'), r, again, step)
    case Begin(m) =>
      w.(f := MutationBegun(w.f), mutations := w.mutations + {m})
    case Alter(_, keys) =>
      w.(history := w.history + [keys])
    case Finish(m) =>
      w.(f := MutationEnded(w.f), mutations := w.mutations - {m})
    case MergeNow(keys) =>
      w.(f := MutationEnded(MutationBegun(w.f)), history := w.history + [keys])
  }

  ghost predicate Initial(w: World) {
    w.f == Fields(None, 0, 0) && |w.history| == 1 && w.readers == map[] && w.mutations == {} && w.returned == []
  }

  ghost predicate Execution(ws: seq<World>, steps: seq<Step>) {
    && |ws| == |steps| + 1
    && Initial(ws[0])
    && forall i :: 0 <= i < |steps| ==> Enabled(ws[i], steps[i]) && ws[i + 1] == Next(ws[i], steps[i])
  }

  /** What holds of a read between its call and its return. */
  ghost predicate ReaderOk(w: World, r: Reader)
    requires |w.history| > 0
  {
    && r.calledVersion + r.retries <= r.versionAtStart <= w.f.version
    && r.calledAt <= Now(w)
    && (r.sample.Some? ==>
         var (at, keys) := r.sample.value;
         && r.calledAt <= at <= Now(w)
         && keys == w.history[at]
         && (r.versionAtStart == w.f.version && w.f.inFlight == 0 ==> at == Now(w)))
  }

  /** What holds of a read that has returned: it gave the value the list had at some moment between
      its call and its return, and retried at most once per invalidation in between. */
  ghost predicate ReturnedOk(w: World, x: Returned)
    requires |w.history| > 0
  {
    && x.when <= Now(w)
    && (exists at :: x.reader.calledAt <= at <= x.when && w.history[at] == x.keys)
    && x.reader.calledVersion + x.reader.retries <= x.version
  }

  ghost predicate Inv(w: World) {
    && |w.history| > 0
    && w.f.inFlight == |w.mutations|
    && (w.f.cached.Some? ==> w.f.inFlight == 0 && w.f.cached.value == Current(w))
    && (forall id :: id in w.readers ==> ReaderOk(w, w.readers[id]))
    && (forall i :: 0 <= i < |w.returned| ==> ReturnedOk(w, w.returned[i]))
  }

  /** A read that returns `keys` while `keys` is the list's value at `at`. */
  lemma ReturnKeepsInv(w: World, id: Id, r: Reader, keys: Keys, at: nat)
    requires Inv(w) && ReaderOk(w, r) && r.calledAt <= at <= Now(w) && w.history[at] == keys
    ensures Inv(Continue(w, id, r, Return(keys)))
  {
    var w' := Continue(w, id, r, Return(keys));
    assert ReturnedOk(w', Returned(keys, r, Now(w), w.f.version));
    forall i | 0 <= i < |w'.returned| ensures ReturnedOk(w', w'.returned[i]) {
      if i < |w.returned| { assert ReturnedOk(w, w.returned[i]); }
    }
  }

  /** A new value of the list, added while the old fields have been invalidated or a mutation is in
      flight, keeps what was known about reads. */
  lemma HistoryGrows(w: World, f': Fields, keys: Keys)
    requires Inv(w) && f'.version >= w.f.version && f'.cached.None?
    requires f'.inFlight == w.f.inFlight && (f'.inFlight > 0 || f'.version > w.f.version)
    ensures Inv(w.(f := f', history := w.history + [keys]))
  {
    var w' := w.(f := f', history := w.history + [keys]);
    forall id | id in w'.readers ensures ReaderOk(w', w'.readers[id]) {
      assert ReaderOk(w, w.readers[id]);
    }
    forall i | 0 <= i < |w'.returned| ensures ReturnedOk(w', w'.returned[i]) {
      assert ReturnedOk(w, w.returned[i]);
      var x := w.returned[i];
      var at :| x.reader.calledAt <= at <= x.when && w.history[at] == x.keys;
      assert w'.history[at] == x.keys;
    }
  }

  lemma ResumeKeepsInv(w: World, r: Id)
    requires Inv(w) && Enabled(w, Resume(r))
    ensures Inv(Next(w, Resume(r)))
  {
    var reader := w.readers[r];
    assert ReaderOk(w, reader);
    var (at, keys) := reader.sample.value;
    if w.f.version != reader.versionAtStart {
      var again := reader.(retries := reader.retries + 1);
      match ReadHead(w.f)
      case Return(cached) =>
        ReturnKeepsInv(w, r, again.(versionAtStart := w.f.version, sample := None), cached, Now(w));
        assert ReturnedOk(Next(w, Resume(r)), Returned(cached, again, Now(w), w.f.version));
      case Await(_) =>
    } else {
      var f' := ReadTail(w.f, reader.versionAtStart, keys).0;
      assert Inv(w.(f := f')) by {
        forall i | 0 <= i < |w.returned| ensures ReturnedOk(w.(f := f'), w.returned[i]) {
          assert ReturnedOk(w, w.returned[i]);
        }
      }
      ReturnKeepsInv(w.(f := f'), r, reader, keys, at);
    }
  }

  lemma StepKeepsInv(w: World, s: Step)
    requires Inv(w) && Enabled(w, s)
    ensures Inv(Next(w, s))
  {
    var w' := Next(w, s);
    match s
    case CallRead(r) =>
      var reader := Reader(w.f.version, Now(w), w.f.version, 0, None);
      if ReadHead(w.f).Return? {
        ReturnKeepsInv(w, r, reader, ReadHead(w.f).keys, Now(w));
      }
    case Sample(r) =>
    case Resume(r) => ResumeKeepsInv(w, r);
    case Begin(m) =>
      forall i | 0 <= i < |w'.returned| ensures ReturnedOk(w', w'.returned[i]) {
        assert ReturnedOk(w, w.returned[i]);
      }
    case Alter(m, keys) =>
      HistoryGrows(w, w.f, keys);
    case Finish(m) =>
      forall i | 0 <= i < |w'.returned| ensures ReturnedOk(w', w'.returned[i]) {
        assert ReturnedOk(w, w.returned[i]);
      }
    case MergeNow(keys) =>
      HistoryGrows(w, MutationEnded(MutationBegun(w.f)), keys);
  }

  /** In every interleaving, at every moment: a cached list is current and no mutation is in flight;
      every read that has returned gave a value the list had between its call and its return; and no
      read went round its loop more often than the cache was invalidated while it ran. */
  lemma {:induction false} EveryInterleavingIsSafe(ws: seq<World>, steps: seq<Step>, n: nat)
    requires Execution(ws, steps) && n < |ws|
    ensures Inv(ws[n])
  {
    if n > 0 {
      EveryInterleavingIsSafe(ws, steps, n - 1);
      StepKeepsInv(ws[n - 1], steps[n - 1]);
    }
  }

  /** A read that returns while no mutation is in flight returns exactly the current list, and leaves it
      in the cache, so that the next read returns it without fetching. */
  lemma QuietReadIsExact(ws: seq<World>, steps: seq<Step>, n: nat)
    requires Execution(ws, steps) && n < |steps| && |ws[n + 1].returned| > |ws[n].returned|
    requires ws[n + 1].f.inFlight == 0
    ensures ws[n + 1].history != []
    ensures ws[n + 1].returned[|ws[n].returned|].keys == Current(ws[n + 1])
    ensures ReadHead(ws[n + 1].f) == Return(Current(ws[n + 1]))
  {
    EveryInterleavingIsSafe(ws, steps, n);
    var w, s := ws[n], steps[n];
    if s.Resume? {
      assert ReaderOk(w, w.readers[s.r]);
    }
  }

  /** A read that resumes goes round again exactly if the cache has been invalidated since its fetch began and
      has not been filled since; otherwise it returns. */
  lemma ResumeRetriesIff(ws: seq<World>, steps: seq<Step>, n: nat)
    requires Execution(ws, steps) && n < |steps| && steps[n].Resume?
    ensures steps[n].r in ws[n + 1].readers <==>
            ws[n].readers[steps[n].r].versionAtStart < ws[n].f.version && ws[n].f.cached.None?
    ensures steps[n].r !in ws[n + 1].readers ==> |ws[n + 1].returned| == |ws[n].returned| + 1
  {
    EveryInterleavingIsSafe(ws, steps, n);
    assert ReaderOk(ws[n], ws[n].readers[steps[n].r]);
  }

  /** Once mutations stop, a read that resumes returns at once or after one more fetch: a read that
      has to go round again has noted the current version. */
  lemma RetryCatchesUp(ws: seq<World>, steps: seq<Step>, n: nat)
    requires Execution(ws, steps) && n < |steps| && steps[n].Resume? && steps[n].r in ws[n + 1].readers
    ensures var r, r' := ws[n].readers[steps[n].r], ws[n + 1].readers[steps[n].r];
            r.versionAtStart < r'.versionAtStart == ws[n + 1].f.version && r'.retries == r.retries + 1
  {
    EveryInterleavingIsSafe(ws, steps, n);
    assert ReaderOk(ws[n], ws[n].readers[steps[n].r]);
  }
}
