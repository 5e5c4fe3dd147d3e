/**
 The materialized index (index-manager.ts over memory-index-storage.ts): definitions, incremental
 updates with a skip test, removal and rebuilding, one call at a time.
 */
module IndexManager {
  import opened Collections
  import opened JsValue
  import opened RowFields

  type Document(!new)

  type Extractor = Document -> Value

  datatype FieldType = StringField | NumberField | DateField | BooleanField

  datatype Field = Field(path: Path, fieldType: FieldType)

  datatype Definition = Definition(name: string, collectionPrefix: string, fields: seq<Field>)

  function Paths(def: Definition): (paths: seq<Path>) {
    seq(|def.fields|, i requires 0 <= i < |def.fields| => def.fields[i].path)
  }

  /** The rows of one index, by document path. */
  type Rows = map<string, Props>

  datatype Index = Index(definitions: map<string, Definition>, stores: map<string, Rows>)

  const NOTHING := Index(map[], map[])

  function RowsAt(stores: map<string, Rows>, name: string): Rows {
    if name in stores then stores[name] else map[]
  }

  /** The rows of an index after `updateIndex` has handled one matching document. */
  function UpdatedRows(rt: Runtime, rows: Rows, paths: seq<Path>, documentPath: string, snapshot: Value): Rows {
    if Unchanged(rt, rows, paths, documentPath, snapshot) then rows
    else rows[documentPath := RowFor(snapshot, paths)]
  }

  /** The stored row passes the skip test against the row for the snapshot. */
  predicate Unchanged(rt: Runtime, rows: Rows, paths: seq<Path>, documentPath: string, snapshot: Value) {
    documentPath in rows && FieldsEqual(rt, Object(Plain, rows[documentPath]), Row(snapshot, paths))
  }

  /** Index `n` covers the document and holds no row that passes the skip test. */
  predicate Outdated(
    rt: Runtime, defs: map<string, Definition>, stores: map<string, Rows>, n: string, documentPath: string,
    snapshot: Value)
  {
    n in defs && defs[n].collectionPrefix <= documentPath &&
    !Unchanged(rt, RowsAt(stores, n), Paths(defs[n]), documentPath, snapshot)
  }

  /** The rows that `rebuildIndex` writes. */
  function RebuiltRows(extract: Extractor, def: Definition, documents: map<string, Document>): Rows {
    map d | d in documents && def.collectionPrefix <= d :: RowFor(extract(documents[d]), Paths(def))
  }

  /** A document whose leaves hold no NaN and whose row is up to date is skipped, and nobody is notified. */
  lemma UnchangedIsSkipped(rt: Runtime, rows: Rows, paths: seq<Path>, documentPath: string, snapshot: Value)
    requires documentPath in rows && rows[documentPath] == RowFor(snapshot, paths)
    requires forall i :: 0 <= i < |paths| ==> NoNaN(Resolve(snapshot, paths[i]))
    ensures Unchanged(rt, rows, paths, documentPath, snapshot)
    ensures UpdatedRows(rt, rows, paths, documentPath, snapshot) == rows
  {
    hide RowFor, FieldsEqual, NoNaN;
    RowHasNoNaN(snapshot, paths);
    EqualValuesPass(rt, Row(snapshot, paths));
  }

  lemma NothingRebuilt(extract: Extractor, def: Definition, documents: map<string, Document>)
    ensures RebuiltRows(extract, def, documents - documents.Keys) == map[]
  {
  }

  lemma RebuiltOne(extract: Extractor, def: Definition, documents: map<string, Document>, left: set<string>, d: string)
    requires d in left && left <= documents.Keys
    ensures RebuiltRows(extract, def, documents - (left - {d})) ==
            if def.collectionPrefix <= d then
              RebuiltRows(extract, def, documents - left)[d := RowFor(extract(documents[d]), Paths(def))]
            else RebuiltRows(extract, def, documents - left)
  {
  }

  datatype Call =
    | DefineIndex(definition: Definition)
    | RemoveIndex(name: string)
    | UpdateIndex(documentPath: string, document: Document)
    | RemoveFromIndex(documentPath: string)
    | RebuildIndex(name: string, documents: map<string, Document>)

  /** The definitions after a call. Defining an existing name again changes nothing: it is ignored if
      the definition is the same and throws otherwise. */
  function DefinitionsAfter(defs: map<string, Definition>, call: Call): map<string, Definition> {
    match call
    case DefineIndex(def) => if def.name in defs then defs else defs[def.name := def]
    case RemoveIndex(name) => defs - {name}
    case _ => defs
  }

  /** The rows of index `n` after a call, from the definitions and the rows before it. */
  function RowsAfter(
    rt: Runtime, extract: Extractor, defs: map<string, Definition>, n: string, rows: Rows, call: Call): Rows
  {
    match call
    case DefineIndex(_) => rows
    case RemoveIndex(name) => if n == name then map[] else rows
    case UpdateIndex(d, document) =>
      if n in defs && defs[n].collectionPrefix <= d then UpdatedRows(rt, rows, Paths(defs[n]), d, extract(document))
      else rows
    case RemoveFromIndex(d) => if n in defs then rows - {d} else rows
    case RebuildIndex(name, documents) =>
      if n == name && n in defs then RebuiltRows(extract, defs[n], documents) else rows
  }

  /** `after` is what a call makes of `before`. */
  ghost predicate Performs(rt: Runtime, extract: Extractor, before: Index, call: Call, after: Index) {
    && after.definitions == DefinitionsAfter(before.definitions, call)
    && forall n :: RowsAt(after.stores, n) ==
        RowsAfter(rt, extract, before.definitions, n, RowsAt(before.stores, n), call)
  }

  class Manager {
    const rt: Runtime
    const extract: Extractor
    var definitions: map<string, Definition>
    var stores: map<string, Rows>

    constructor (rt: Runtime, extract: Extractor)
      ensures this.rt == rt && this.extract == extract && Contents() == NOTHING
    {
      this.rt, this.extract := rt, extract;
      definitions, stores := map[], map[];
    }

    ghost function Contents(): Index
      reads this
    {
      Index(definitions, stores)
    }

    /** `defineIndex`; returns false where the source throws. */
    method Define(def: Definition) returns (ok: bool)
      modifies this
      ensures ok <==> (def.name in old(definitions) ==> old(definitions)[def.name] == def)
      ensures Performs(rt, extract, old(Contents()), DefineIndex(def), Contents())
    {
      if def.name in definitions { return definitions[def.name] == def; }
      definitions := definitions[def.name := def];
      if def.name !in stores { stores := stores[def.name := map[]]; }
      return true;
    }

    method Remove(name: string)
      modifies this
      ensures Performs(rt, extract, old(Contents()), RemoveIndex(name), Contents())
    {
      definitions := definitions - {name};
      if name in stores { stores := stores[name := map[]]; }
    }

    /** `updateIndex`: every definition in turn, with the skip test. Subscribers are notified exactly when
        some matching index had no row that passed it. */
    method Update(documentPath: string, document: Document) returns (notified: bool)
      modifies this`stores
      ensures notified <==> exists n :: Outdated(rt, definitions, old(stores), n, documentPath, extract(document))
      ensures Performs(rt, extract, old(Contents()), UpdateIndex(documentPath, document), Contents())
    {
      hide UpdatedRows, Unchanged, RowsAt;
      var snapshot := extract(document);
      notified := false;
      var left := definitions.Keys;
      while left != {}
        invariant left <= definitions.Keys
        invariant notified <==> exists n ::
          n !in left && Outdated(rt, definitions, old(stores), n, documentPath, snapshot)
        invariant forall n :: RowsAt(stores, n) ==
                    (if n in left then RowsAt(old(stores), n)
                     else RowsAfter(rt, extract, definitions, n, RowsAt(old(stores), n),
                                    UpdateIndex(documentPath, document)))
      {
        var name :| name in left;
        left := left - {name};
        if !(definitions[name].collectionPrefix <= documentPath) { continue; }
        var wrote := UpdateOne(name, Paths(definitions[name]), documentPath, snapshot);
        if wrote { notified := true; }
      }
    }

    /** One round of the loop of `updateIndex`: builds the row, compares it, and writes it if it differs. */
    method UpdateOne(name: string, paths: seq<Path>, documentPath: string, snapshot: Value) returns (wrote: bool)
      modifies this`stores
      ensures wrote <==> !Unchanged(rt, RowsAt(old(stores), name), paths, documentPath, snapshot)
      ensures forall n :: RowsAt(stores, n) ==
                (if n == name then UpdatedRows(rt, RowsAt(old(stores), n), paths, documentPath, snapshot)
                 else RowsAt(old(stores), n))
    {
      hide RowFor, FieldsEqual;
      var fields := BuildRow(snapshot, paths);
      var rows := if name in stores then stores[name] else map[];
      if documentPath in rows && FieldsEqual(rt, Object(Plain, rows[documentPath]), Object(Plain, fields)) {
        return false;
      }
      stores := stores[name := rows[documentPath := fields]];
      return true;
    }

    /** `removeFromIndex` notifies subscribers whether or not it removed anything. */
    method RemoveDocument(documentPath: string) returns (notified: bool)
      modifies this`stores
      ensures notified
      ensures Performs(rt, extract, old(Contents()), RemoveFromIndex(documentPath), Contents())
    {
      var left := definitions.Keys;
      while left != {}
        invariant left <= definitions.Keys
        invariant forall n :: RowsAt(stores, n) ==
                    (if n in left then RowsAt(old(stores), n)
                     else RowsAfter(rt, extract, definitions, n, RowsAt(old(stores), n), RemoveFromIndex(documentPath)))
      {
        var name :| name in left;
        left := left - {name};
        if name in stores { stores := stores[name := stores[name] - {documentPath}]; }
      }
      return true;
    }

    /** `rebuildIndex`: clears the index and puts one row per matching document. Subscribers are notified
        unless there is no such index. */
    method Rebuild(name: string, documents: map<string, Document>) returns (notified: bool)
      modifies this`stores
      ensures notified <==> name in definitions
      ensures Performs(rt, extract, old(Contents()), RebuildIndex(name, documents), Contents())
    {
      hide RowFor;
      if name !in definitions { return false; }
      var def := definitions[name];
      stores := stores[name := map[]];
      var left := documents.Keys;
      NothingRebuilt(extract, def, documents);
      while left != {}
        invariant left <= documents.Keys && name in stores
        invariant forall n :: n != name ==> RowsAt(stores, n) == RowsAt(old(stores), n)
        invariant stores[name] == RebuiltRows(extract, def, documents - left)
      {
        var d :| d in left;
        RebuiltOne(extract, def, documents, left, d);
        left := left - {d};
        if !(def.collectionPrefix <= d) { continue; }
        var fields := BuildRow(extract(documents[d]), Paths(def));
        stores := stores[name := stores[name][d := fields]];
      }
      assert documents - left == documents;
      return true;
    }
  }

  // ----- the index is a function of the history

  ghost function Definitions(calls: seq<Call>): map<string, Definition> {
    if calls == [] then map[] else DefinitionsAfter(Definitions(calls[..|calls| - 1]), calls[|calls| - 1])
  }

  /** Call `i` put the definition of `n` in force that holds after all calls: the first one for that name
      since the index was last removed. */
  ghost predicate PutsInForce(calls: seq<Call>, n: string, i: nat) {
    && i < |calls| && calls[i].DefineIndex? && calls[i].definition.name == n
    && (forall j :: i < j < |calls| ==> calls[j] != RemoveIndex(n))
    && (forall j :: 0 <= j < i && calls[j].DefineIndex? && calls[j].definition.name == n ==>
          exists k :: j < k < i && calls[k] == RemoveIndex(n))
  }

  /** An index is in force exactly if some call put it there, with the definition of that call. */
  lemma {:induction false} DefinedIff(calls: seq<Call>, n: string)
    ensures n in Definitions(calls) <==> exists i: nat :: PutsInForce(calls, n, i)
    ensures forall i: nat :: PutsInForce(calls, n, i) ==>
              n in Definitions(calls) && Definitions(calls)[n] == calls[i].definition
    ensures n !in Definitions(calls) ==>
              forall j :: 0 <= j < |calls| && calls[j].DefineIndex? && calls[j].definition.name == n ==>
                exists k :: j < k < |calls| && calls[k] == RemoveIndex(n)
  {
    if calls != [] {
      var before, call := calls[..|calls| - 1], calls[|calls| - 1];
      DefinedIff(before, n);
      assert calls == before + [call];
      forall i: nat | i < |before|
        ensures PutsInForce(calls, n, i) <==> PutsInForce(before, n, i) && call != RemoveIndex(n)
      {
        StaysInForce(before, call, n, i);
      }
      if n in Definitions(before) && call != RemoveIndex(n) {
        var i: nat :| PutsInForce(before, n, i);
        assert PutsInForce(calls, n, i);
      }
      LastPutsInForce(before, call, n);
      if call == RemoveIndex(n) {
        assert calls[|before|] == RemoveIndex(n);
      }
    }
  }

  lemma StaysInForce(before: seq<Call>, call: Call, n: string, i: nat)
    requires i < |before|
    ensures PutsInForce(before + [call], n, i) <==> PutsInForce(before, n, i) && call != RemoveIndex(n)
  {
    var calls := before + [call];
    assert calls[|before|] == call && forall j :: 0 <= j < |before| ==> calls[j] == before[j];
  }

  lemma LastPutsInForce(before: seq<Call>, call: Call, n: string)
    ensures PutsInForce(before + [call], n, |before|) <==>
            && call.DefineIndex? && call.definition.name == n
            && forall j :: 0 <= j < |before| && before[j].DefineIndex? && before[j].definition.name == n ==>
                 exists k :: j < k < |before| && before[k] == RemoveIndex(n)
  {
    var calls := before + [call];
    assert calls[|before|] == call && forall j :: 0 <= j < |before| ==> calls[j] == before[j];
  }

  /** The rows of index `n` after a list of calls from empty storage. */
  ghost function RowsFrom(rt: Runtime, extract: Extractor, calls: seq<Call>, n: string): Rows {
    if calls == [] then map[]
    else
      var before := calls[..|calls| - 1];
      RowsAfter(rt, extract, Definitions(before), n, RowsFrom(rt, extract, before, n), calls[|calls| - 1])
  }

  /** The document whose row index `n` should hold at `d`: the last one given for that path since the
      index was last cleared, unless it was removed since. */
  ghost function Latest(calls: seq<Call>, n: string, d: string): Option<Document> {
    if calls == [] then None
    else
      var before := calls[..|calls| - 1];
      var defs := Definitions(before);
      match calls[|calls| - 1]
      case DefineIndex(_) => Latest(before, n, d)
      case RemoveIndex(name) => if n == name then None else Latest(before, n, d)
      case UpdateIndex(p, document) =>
        if p == d && n in defs && defs[n].collectionPrefix <= d then Some(document) else Latest(before, n, d)
      case RemoveFromIndex(p) => if p == d && n in defs then None else Latest(before, n, d)
      case RebuildIndex(name, documents) =>
        if n == name && n in defs then
          if d in documents && defs[n].collectionPrefix <= d then Some(documents[d]) else None
        else Latest(before, n, d)
  }

  /** Index `n` is in force before a call and covers the document path. */
  predicate Covers(defs: map<string, Definition>, n: string, d: string) {
    n in defs && defs[n].collectionPrefix <= d
  }

  /** A condition on the snapshots of two documents in a row, at the paths of an index. */
  type LeafTest = (Value, Value, seq<Path>) -> bool

  /** What a history must be like for the row of `d` in index `n` to be exact: the definitions of `n` that
      are accepted have prefix-free paths, and each update of `d` that index `n` covers meets the condition,
      at the paths in force, with the document before it. */
  ghost predicate HistoryWhere(ok: LeafTest, extract: Extractor, calls: seq<Call>, n: string, d: string)
    decreases |calls|
  {
    calls == [] ||
    var before, defs := calls[..|calls| - 1], Definitions(calls[..|calls| - 1]);
    && HistoryWhere(ok, extract, before, n, d)
    && match calls[|calls| - 1]
       case DefineIndex(def) => def.name == n && n !in defs ==> PrefixFree(Paths(def))
       case UpdateIndex(p, document) =>
         p == d && Covers(defs, n, d) && Latest(before, n, d).Some? ==>
           ok(extract(Latest(before, n, d).value), extract(document), Paths(defs[n]))
       case _ => true
  }

  /** The skip test can tell the snapshots apart. */
  ghost function ToldApart(rt: Runtime): LeafTest {
    (s, t, paths) => Distinguishable(rt, s, t, paths)
  }

  /** Both snapshots have leaves of the same form. */
  ghost function OfSameForm(): LeafTest {
    (s, t, paths) => SameForms(s, t, paths)
  }

  /** Both snapshots have scalars and dates only. */
  ghost function OfScalars(): LeafTest {
    (s, t, paths) => ScalarLeaves(s, paths) && ScalarLeaves(t, paths)
  }

  lemma {:induction false} DefinitionsKeepNames(calls: seq<Call>, n: string)
    ensures n in Definitions(calls) ==> Definitions(calls)[n].name == n
  {
    if calls != [] { DefinitionsKeepNames(calls[..|calls| - 1], n); }
  }

  lemma {:induction false} GoodDefinition(ok: LeafTest, extract: Extractor, calls: seq<Call>, n: string, d: string)
    requires HistoryWhere(ok, extract, calls, n, d) && n in Definitions(calls)
    ensures PrefixFree(Paths(Definitions(calls)[n]))
    decreases |calls|
  {
    hide PrefixFree, Paths, Latest;
    var before := calls[..|calls| - 1];
    DefinitionsKeepNames(calls, n);
    if n in Definitions(before) { GoodDefinition(ok, extract, before, n, d); }
  }

  /** What the rows of an index are, given the latest documents. */
  ghost predicate RowsAreLatest(extract: Extractor, calls: seq<Call>, n: string, rows: Rows, d: string) {
    && (d in rows <==> Latest(calls, n, d).Some?)
    && (d in rows ==>
          && n in Definitions(calls)
          && rows[d] == RowFor(extract(Latest(calls, n, d).value), Paths(Definitions(calls)[n])))
  }

  /** Every field path of the row reads what it reads in the snapshot of the latest document. */
  ghost predicate RowReadsBack(extract: Extractor, calls: seq<Call>, n: string, rows: Rows, d: string) {
    d in rows && n in Definitions(calls) && Latest(calls, n, d).Some? ==>
      var snapshot, paths := extract(Latest(calls, n, d).value), Paths(Definitions(calls)[n]);
      forall j :: 0 <= j < |paths| ==> Read(rows[d], paths[j]) == Resolve(snapshot, paths[j])
  }

  /** Where index `n` held the latest document and covers the next update, it holds the latest document
      afterwards exactly if there was no row, or the skip test can tell the two snapshots apart. */
  lemma UpdateKeptIff(
    rt: Runtime, extract: Extractor, before: seq<Call>, n: string, d: string, document: Document)
    requires Covers(Definitions(before), n, d) && PrefixFree(Paths(Definitions(before)[n]))
    requires RowsAreLatest(extract, before, n, RowsFrom(rt, extract, before, n), d)
    ensures var after := before + [UpdateIndex(d, document)];
            RowsAreLatest(extract, after, n, RowsFrom(rt, extract, after, n), d) <==>
            (Latest(before, n, d).None? ||
             Distinguishable(rt, extract(Latest(before, n, d).value), extract(document), Paths(Definitions(before)[n])))
  {
    hide FieldsEqual, RowFor, Distinguishable, PrefixFree, Paths;
    var after := before + [UpdateIndex(d, document)];
    assert after[..|after| - 1] == before;
    if Latest(before, n, d).Some? {
      SkipIsExactIff(rt, extract(Latest(before, n, d).value), extract(document), Paths(Definitions(before)[n]));
    }
  }

  lemma {:induction false} HistoryStep(rt: Runtime, extract: Extractor, calls: seq<Call>, n: string, d: string)
    requires HistoryWhere(ToldApart(rt), extract, calls, n, d)
    ensures RowsAreLatest(extract, calls, n, RowsFrom(rt, extract, calls, n), d)
  {
    hide RowsAreLatest, RowsFrom, Distinguishable, PrefixFree, Latest, Paths;
    if calls == [] {
      NoRowsAtFirst(rt, extract, n, d);
    } else {
      var before, call := calls[..|calls| - 1], calls[|calls| - 1];
      HistoryStep(rt, extract, before, n, d);
      if call.UpdateIndex? && call.documentPath == d && Covers(Definitions(before), n, d) {
        GoodDefinition(ToldApart(rt), extract, before, n, d);
        UpdateKeptIff(rt, extract, before, n, d, call.document);
        assert calls == before + [UpdateIndex(d, call.document)];
      } else {
        OtherStep(rt, extract, calls, n, d);
      }
    }
  }

  lemma NoRowsAtFirst(rt: Runtime, extract: Extractor, n: string, d: string)
    ensures RowsAreLatest(extract, [], n, RowsFrom(rt, extract, [], n), d)
  {
  }

  /** Calls other than a covered update of the document. */
  lemma OtherStep(rt: Runtime, extract: Extractor, calls: seq<Call>, n: string, d: string)
    requires calls != []
    requires var before := calls[..|calls| - 1];
             RowsAreLatest(extract, before, n, RowsFrom(rt, extract, before, n), d)
    requires var call := calls[|calls| - 1];
             !(call.UpdateIndex? && call.documentPath == d && Covers(Definitions(calls[..|calls| - 1]), n, d))
    ensures RowsAreLatest(extract, calls, n, RowsFrom(rt, extract, calls, n), d)
  {
    hide FieldsEqual, RowFor, Paths;
  }

  /** After every list of calls from empty storage, each index holds a row for exactly the documents
      that are latest in it, that row is the one built from the latest snapshot, and every field path
      of it reads what it reads in that snapshot. The skip test loses no update. */
  lemma IndexReflectsHistory(rt: Runtime, extract: Extractor, calls: seq<Call>, n: string, d: string)
    requires HistoryWhere(ToldApart(rt), extract, calls, n, d)
    ensures RowsAreLatest(extract, calls, n, RowsFrom(rt, extract, calls, n), d)
    ensures RowReadsBack(extract, calls, n, RowsFrom(rt, extract, calls, n), d)
  {
    HistoryStep(rt, extract, calls, n, d);
    if d in RowsFrom(rt, extract, calls, n) {
      var paths := Paths(Definitions(calls)[n]);
      GoodDefinition(ToldApart(rt), extract, calls, n, d);
      PrefixFreeIsOrderly(paths);
      OrderlyIsFaithful(extract(Latest(calls, n, d).value), paths);
    }
  }

  /** Two histories that leave the same definition of `n` and the same latest documents leave the same
      rows, however they got there. */
  lemma SameLatestSameRows(rt: Runtime, extract: Extractor, calls: seq<Call>, calls': seq<Call>, n: string)
    requires forall d :: HistoryWhere(ToldApart(rt), extract, calls, n, d)
    requires forall d :: HistoryWhere(ToldApart(rt), extract, calls', n, d)
    requires n in Definitions(calls) && n in Definitions(calls') && Definitions(calls)[n] == Definitions(calls')[n]
    requires forall d :: Latest(calls, n, d) == Latest(calls', n, d)
    ensures RowsFrom(rt, extract, calls, n) == RowsFrom(rt, extract, calls', n)
  {
    hide HistoryWhere, RowsFrom, Latest, Definitions, RowFor, Paths;
    var r, r' := RowsFrom(rt, extract, calls, n), RowsFrom(rt, extract, calls', n);
    forall d ensures (d in r <==> d in r') && (d in r ==> r[d] == r'[d]) {
      HistoryStep(rt, extract, calls, n, d);
      HistoryStep(rt, extract, calls', n, d);
    }
  }

  // ----- histories that a caller can check

  /** Leaves of the same form, scalars and dates among them, are enough for an update to be kept. */
  lemma SameFormUpdateIsKept(
    rt: Runtime, extract: Extractor, before: seq<Call>, n: string, d: string, document: Document)
    requires SameObjectSameValue(rt) && Covers(Definitions(before), n, d) && PrefixFree(Paths(Definitions(before)[n]))
    requires RowsAreLatest(extract, before, n, RowsFrom(rt, extract, before, n), d)
    requires var paths, latest := Paths(Definitions(before)[n]), Latest(before, n, d);
             latest.Some? ==>
               || SameForms(extract(latest.value), extract(document), paths)
               || (ScalarLeaves(extract(latest.value), paths) && ScalarLeaves(extract(document), paths))
    ensures var after := before + [UpdateIndex(d, document)];
            RowsAreLatest(extract, after, n, RowsFrom(rt, extract, after, n), d)
  {
    hide RowsAreLatest, RowsFrom, Latest, Paths, PrefixFree, SameForms, ScalarLeaves, Distinguishable,
        SameObjectSameValue;
    UpdateKeptIff(rt, extract, before, n, d, document);
    if Latest(before, n, d).Some? {
      var s, t, paths := extract(Latest(before, n, d).value), extract(document), Paths(Definitions(before)[n]);
      if !SameForms(s, t, paths) { ScalarsHaveSameForm(s, t, paths); }
      SameFormsAreDistinguishable(rt, s, t, paths);
    }
  }

  /** A weaker condition is met where a stronger one is. */
  lemma {:induction false} HistoryWeakens(
    ok: LeafTest, ok': LeafTest, extract: Extractor, calls: seq<Call>, n: string, d: string)
    requires HistoryWhere(ok, extract, calls, n, d)
    requires forall s, t, paths :: PrefixFree(paths) && ok(s, t, paths) ==> ok'(s, t, paths)
    ensures HistoryWhere(ok', extract, calls, n, d)
    decreases |calls|
  {
    hide Paths, PrefixFree, Definitions, Latest;
    if calls != [] {
      var before := calls[..|calls| - 1];
      HistoryWeakens(ok, ok', extract, before, n, d);
      if n in Definitions(before) { GoodDefinition(ok, extract, before, n, d); }
    }
  }

  lemma ScalarsAreFormed(s: Value, t: Value, paths: seq<Path>)
    requires OfScalars()(s, t, paths)
    ensures OfSameForm()(s, t, paths)
  {
    hide SameForms, ScalarLeaves;
    ScalarsHaveSameForm(s, t, paths);
  }

  lemma FormsAreToldApart(rt: Runtime, s: Value, t: Value, paths: seq<Path>)
    requires SameObjectSameValue(rt) && PrefixFree(paths) && OfSameForm()(s, t, paths)
    ensures ToldApart(rt)(s, t, paths)
  {
    hide SameForms, Distinguishable, SameObjectSameValue, PrefixFree;
    SameFormsAreDistinguishable(rt, s, t, paths);
  }

  /** A caller can check a history: in leaves of the same form from one document to the next, or in scalars
      and dates, the skip test misses nothing, whatever objects rows share. */
  lemma CheckedHistoryIsExact(rt: Runtime, extract: Extractor, calls: seq<Call>, n: string, d: string)
    requires SameObjectSameValue(rt)
    requires HistoryWhere(OfSameForm(), extract, calls, n, d) || HistoryWhere(OfScalars(), extract, calls, n, d)
    ensures HistoryWhere(ToldApart(rt), extract, calls, n, d)
  {
    hide HistoryWhere, SameObjectSameValue, OfScalars, OfSameForm, ToldApart, PrefixFree;
    if !HistoryWhere(OfSameForm(), extract, calls, n, d) {
      forall s, t, paths | OfScalars()(s, t, paths) ensures OfSameForm()(s, t, paths) {
        ScalarsAreFormed(s, t, paths);
      }
      HistoryWeakens(OfScalars(), OfSameForm(), extract, calls, n, d);
    }
    forall s, t, paths | PrefixFree(paths) && OfSameForm()(s, t, paths) ensures ToldApart(rt)(s, t, paths) {
      FormsAreToldApart(rt, s, t, paths);
    }
    HistoryWeakens(OfSameForm(), ToldApart(rt), extract, calls, n, d);
  }

  /** So after every such history the index reflects it, whatever other indexes and documents hold. */
  lemma CheckedIndexReflectsHistory(rt: Runtime, extract: Extractor, calls: seq<Call>, n: string, d: string)
    requires SameObjectSameValue(rt)
    requires HistoryWhere(OfSameForm(), extract, calls, n, d) || HistoryWhere(OfScalars(), extract, calls, n, d)
    ensures RowsAreLatest(extract, calls, n, RowsFrom(rt, extract, calls, n), d)
    ensures RowReadsBack(extract, calls, n, RowsFrom(rt, extract, calls, n), d)
  {
    hide HistoryWhere, RowsFrom, SameObjectSameValue, OfScalars, OfSameForm, ToldApart, RowsAreLatest, RowReadsBack;
    CheckedHistoryIsExact(rt, extract, calls, n, d);
    IndexReflectsHistory(rt, extract, calls, n, d);
  }

  /** Beyond them an update can be lost: a date is replaced by an empty object, the index keeps the date. */
  lemma UpdateIsLost(rt: Runtime, extract: Extractor, field: string, time: Num, first: Document, second: Document)
    requires extract(first) == Object(Plain, map[field := Object(Date(time), map[])])
    requires extract(second) == Object(Plain, map[field := Object(Plain, map[])])
    ensures var def := Definition("by-date", "", [Field([field], DateField)]);
            var calls := [DefineIndex(def), UpdateIndex("doc", first), UpdateIndex("doc", second)];
            && Latest(calls, def.name, "doc") == Some(second)
            && RowsFrom(rt, extract, calls, def.name) == map["doc" := map[field := Object(Date(time), map[])]]
  {
    var def := Definition("by-date", "", [Field([field], DateField)]);
    var calls := [DefineIndex(def), UpdateIndex("doc", first), UpdateIndex("doc", second)];
    var one, two := [DefineIndex(def)], [DefineIndex(def), UpdateIndex("doc", first)];
    assert calls[..2] == two && two[..1] == one && one[..0] == [];
    assert Paths(def) == [[field]];
    RowOfOneField(extract(first), field);
    RowOfOneField(extract(second), field);
    assert Definitions(one) == DefinitionsAfter(Definitions([]), one[0]) == map[def.name := def];
    assert Definitions(two) == DefinitionsAfter(Definitions(one), two[1]) == map[def.name := def];
    assert RowsFrom(rt, extract, one, def.name) == map[];
    var dated: Props := map[field := Object(Date(time), map[])];
    assert RowsFrom(rt, extract, two, def.name) == map["doc" := dated];
    var emptied: Props := map[field := Object(Plain, map[])];
    assert FieldsEqual(rt, Object(Plain, dated), Object(Plain, emptied));
  }

  lemma RowOfOneField(snapshot: Value, field: string)
    ensures RowFor(snapshot, [[field]]) == map[field := Resolve(snapshot, [field])]
  {
    assert [[field]][..0] == [];
    assert RowFor(snapshot, [[field]][..0]) == map[];
  }

  // ----- rebuilding equals updating one by one

  ghost function Updates(documents: map<string, Document>, order: seq<string>): seq<Call>
    requires forall i :: 0 <= i < |order| ==> order[i] in documents
  {
    seq(|order|, i requires 0 <= i < |order| => UpdateIndex(order[i], documents[order[i]]))
  }

  /** Clearing the index by removing and redefining it, then updating the documents one by one. */
  ghost function OneByOne(def: Definition, documents: map<string, Document>, order: seq<string>): seq<Call>
    requires forall i :: 0 <= i < |order| ==> order[i] in documents
  {
    [RemoveIndex(def.name), DefineIndex(def)] + Updates(documents, order)
  }

  lemma ClearedByRedefining(rt: Runtime, extract: Extractor, calls: seq<Call>, def: Definition)
    ensures var all := calls + [RemoveIndex(def.name), DefineIndex(def)];
            && def.name in Definitions(all) && Definitions(all)[def.name] == def
            && RowsFrom(rt, extract, all, def.name) == map[]
  {
    var removed := calls + [RemoveIndex(def.name)];
    var all := calls + [RemoveIndex(def.name), DefineIndex(def)];
    assert all[..|all| - 1] == removed && removed[..|removed| - 1] == calls;
    assert Definitions(removed) == Definitions(calls) - {def.name};
  }

  /** Where the row of a document can only be the one built from it, updating with it makes sure it is. */
  lemma UpdateSetsRow(rt: Runtime, extract: Extractor, calls: seq<Call>, n: string, d: string, document: Document)
    requires n in Definitions(calls)
    requires d in RowsFrom(rt, extract, calls, n) ==>
               RowsFrom(rt, extract, calls, n)[d] == RowFor(extract(document), Paths(Definitions(calls)[n]))
    ensures var all, def := calls + [UpdateIndex(d, document)], Definitions(calls)[n];
            && Definitions(all) == Definitions(calls)
            && RowsFrom(rt, extract, all, n) ==
               if def.collectionPrefix <= d then
                 RowsFrom(rt, extract, calls, n)[d := RowFor(extract(document), Paths(def))]
               else RowsFrom(rt, extract, calls, n)
  {
    hide FieldsEqual, RowFor, Paths;
    var all := calls + [UpdateIndex(d, document)];
    assert all[..|all| - 1] == calls;
  }

  /** The documents among the first `k` of an order. */
  ghost function Among(documents: map<string, Document>, order: seq<string>, k: nat): map<string, Document>
    requires k <= |order|
  {
    map d | d in documents && d in order[..k] :: documents[d]
  }

  lemma {:induction false} RowsAfterUpdates(
    rt: Runtime, extract: Extractor, calls: seq<Call>, def: Definition, documents: map<string, Document>,
    order: seq<string>, k: nat)
    requires k <= |order| && forall i :: 0 <= i < |order| ==> order[i] in documents
    ensures var all := calls + OneByOne(def, documents, order)[..2 + k];
            && def.name in Definitions(all) && Definitions(all)[def.name] == def
            && RowsFrom(rt, extract, all, def.name) == RebuiltRows(extract, def, Among(documents, order, k))
  {
    hide Definitions, RowsFrom, RowFor, Paths;
    var steps := OneByOne(def, documents, order);
    if k == 0 {
      assert steps[..2] == [RemoveIndex(def.name), DefineIndex(def)];
      ClearedByRedefining(rt, extract, calls, def);
    } else {
      var before, p := calls + steps[..2 + (k - 1)], order[k - 1];
      RowsAfterUpdates(rt, extract, calls, def, documents, order, k - 1);
      assert calls + steps[..2 + k] == before + [UpdateIndex(p, documents[p])];
      hide OneByOne;
      UpdateSetsRow(rt, extract, before, def.name, p, documents[p]);
      RebuiltOneMore(extract, def, documents, order, k);
    }
  }

  lemma RebuiltOneMore(
    extract: Extractor, def: Definition, documents: map<string, Document>, order: seq<string>, k: nat)
    requires 0 < k <= |order| && forall i :: 0 <= i < |order| ==> order[i] in documents
    ensures var p, before := order[k - 1], RebuiltRows(extract, def, Among(documents, order, k - 1));
            RebuiltRows(extract, def, Among(documents, order, k)) ==
            if def.collectionPrefix <= p then before[p := RowFor(extract(documents[p]), Paths(def))] else before
  {
    hide RowFor, Paths;
    assert order[..k] == order[..k - 1] + [order[k - 1]];
  }

  /** Rebuilding an index leaves exactly the rows that clearing it and updating the same documents one
      by one, in any order and with repetitions, would leave: whatever the history, the paths and the
      leaves. */
  lemma RebuildEqualsUpdates(
    rt: Runtime, extract: Extractor, calls: seq<Call>, n: string, documents: map<string, Document>, order: seq<string>)
    requires n in Definitions(calls)
    requires (forall i :: 0 <= i < |order| ==> order[i] in documents) && (forall d :: d in documents ==> d in order)
    ensures RowsFrom(rt, extract, calls + [RebuildIndex(n, documents)], n) ==
            RowsFrom(rt, extract, calls + OneByOne(Definitions(calls)[n], documents, order), n)
  {
    var def, rebuilt := Definitions(calls)[n], calls + [RebuildIndex(n, documents)];
    DefinitionsKeepNames(calls, n);
    assert rebuilt[..|rebuilt| - 1] == calls;
    assert RowsFrom(rt, extract, rebuilt, n) == RebuiltRows(extract, def, documents);
    hide Definitions, RowsFrom, RebuiltRows;
    RowsAfterUpdates(rt, extract, calls, def, documents, order, |order|);
    assert OneByOne(def, documents, order)[..2 + |order|] == OneByOne(def, documents, order) &&
        order[..|order|] == order;
    assert Among(documents, order, |order|) == documents;
  }
}
