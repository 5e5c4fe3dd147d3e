/**
 Index queries: the full scan with JavaScript filters (memory-index-storage.ts) and the planner that
 replaces it by a key-range cursor over an IndexedDB index (idb-index-storage.ts).

 Keys, their order and key ranges are those of the W3C Indexed Database API 2.0 (sections 2.4 and 2.9);
 key paths are evaluated as that standard says, which reads the length of a string.
 */
module IndexQuery {
  import opened Collections
  import opened JsValue

  datatype Condition =
    | Eq(value: Value)
    | Neq(value: Value)
    | Gt(value: Value)
    | Gte(value: Value)
    | Lt(value: Value)
    | Lte(value: Value)
    | StartsWith(value: Value)
    | OneOf(values: Option<seq<Value>>)  // None: the filter value is not an array
    | Contains(value: Value)
    | UnknownOperator

  datatype Filter = Filter(path: Path, cond: Condition)

  /** `_matchesFilter` on the resolved value. */
  predicate Satisfies(rt: Runtime, v: Value, cond: Condition) {
    match cond
    case Eq(w) => StrictEqual(rt, v, w)
    case Neq(w) => !StrictEqual(rt, v, w)
    case Gt(w) => (var a, b := Normalize(rt, v), Normalize(rt, w); Comparable(a) && Comparable(b) && JsLess(rt, b, a))
    case Gte(w) =>
      (var a, b := Normalize(rt, v), Normalize(rt, w); Comparable(a) && Comparable(b) && JsAtMost(rt, b, a))
    case Lt(w) => (var a, b := Normalize(rt, v), Normalize(rt, w); Comparable(a) && Comparable(b) && JsLess(rt, a, b))
    case Lte(w) =>
      (var a, b := Normalize(rt, v), Normalize(rt, w); Comparable(a) && Comparable(b) && JsAtMost(rt, a, b))
    case StartsWith(w) => v.Str? && w.Str? && w.s <= v.s
    case OneOf(ws) => ws.Some? && exists i :: 0 <= i < |ws.value| && SameValueZero(rt, ws.value[i], v)
    case Contains(w) => v.Str? && w.Str? && Occurs(w.s, v.s)
    case UnknownOperator => false
  }

  predicate Matches(rt: Runtime, fields: Value, f: Filter) {
    Satisfies(rt, Resolve(fields, f.path), f.cond)
  }

  predicate MatchesAll(rt: Runtime, fields: Value, filters: seq<Filter>) {
    forall i :: 0 <= i < |filters| ==> Matches(rt, fields, filters[i])
  }

  type Doc = string

  /** The rows of one index: document path to its object of fields. */
  type Store = map<Doc, Value>

  /** The answer of the full scan. */
  ghost function Scan(rt: Runtime, store: Store, filters: seq<Filter>): set<Doc> {
    set d | d in store && MatchesAll(rt, store[d], filters)
  }

  // ----- IndexedDB keys and ranges

  /** Keys by type, in their order: numbers, dates, strings, arrays. */
  datatype Key = NumKey(n: Num) | DateKey(t: Num) | StrKey(s: Text) | ArrayKey

  datatype Range = Only(key: Key) | LowerBound(key: Key, open: bool) | Bound(lower: Key, upper: Key)  // [lower, upper)

  function Rank(k: Key): nat {
    match k
    case NumKey(_) => 0
    case DateKey(_) => 1
    case StrKey(_) => 2
    case ArrayKey => 3
  }

  predicate KeyLess(a: Key, b: Key) {
    match (a, b)
    case (NumKey(m), NumKey(n)) => NumLess(m, n)
    case (DateKey(t), DateKey(u)) => NumLess(t, u)
    case (StrKey(s), StrKey(t)) => TextLess(s, t)
    case _ => Rank(a) < Rank(b)
  }

  predicate InRange(k: Key, r: Range) {
    match r
    case Only(key) => k == key
    case LowerBound(key, open) => KeyLess(key, k) || (!open && k == key)
    case Bound(lower, upper) => !KeyLess(k, lower) && KeyLess(k, upper)
  }

  /** Converting a value to a key: booleans, big integers, null, plain and wrapper objects, NaN and invalid
      dates have none. */
  function ToKey(rt: Runtime, v: Value): Option<Key> {
    match v
    case Number(n) => if n == NaN then None else Some(NumKey(n))
    case Str(s) => Some(StrKey(s))
    case Object(Date(t), _) => if t == NaN then None else Some(DateKey(t))
    case Object(Array(_), _) => if rt.arrayIsKey(v) then Some(ArrayKey) else None
    case _ => None
  }

  /** Evaluating a key path: fails at anything missing, and reads the length of a string. */
  function EvalKeyPath(v: Value, path: seq<string>): Option<Value>
    decreases |path|
  {
    if path == [] then Some(v)
    else
      var next :=
        if v.Str? && path[0] == "length" then Number(Finite(|v.s| as real))
        else if v.Object? then Property(v, path[0])
        else Undefined;
      if next == Undefined then None else EvalKeyPath(next, path[1..])
  }

  function IndexKey(rt: Runtime, fields: Value, path: Path): Option<Key> {
    var v := EvalKeyPath(fields, path);
    if v.None? then None else ToKey(rt, v.value)
  }

  /** The documents that a cursor over an index visits in a range. */
  ghost function Visited(rt: Runtime, store: Store, path: Path, r: Range): set<Doc> {
    set d | d in store && IndexKey(rt, store[d], path).Some? && InRange(IndexKey(rt, store[d], path).value, r)
  }

  // ----- the planner

  /** `_lexicographicSuccessor`: the last code unit that can grow is incremented, the rest dropped. */
  function Successor(prefix: Text): Option<Text> {
    if prefix == [] then None
    else
      var last := prefix[|prefix| - 1];
      if last < 0xffff then Some(prefix[..|prefix| - 1] + [last + 1]) else Successor(prefix[..|prefix| - 1])
  }

  method LexicographicSuccessor(prefix: Text) returns (r: Option<Text>)
    ensures r == Successor(prefix)
  {
    var i := |prefix|;
    assert prefix[..i] == prefix;
    while i > 0
      invariant 0 <= i <= |prefix|
      invariant Successor(prefix) == Successor(prefix[..i])
    {
      var code := prefix[i - 1];
      assert prefix[..i][..i - 1] == prefix[..i - 1];
      if code < 0xffff { return Some(prefix[..i - 1] + [code + 1]); }
      i := i - 1;
    }
    return None;
  }

  lemma {:induction false} TextLessCommonPrefix(p: Text, a: Text, b: Text)
    ensures TextLess(p + a, p + b) == TextLess(a, b)
  {
    if p == [] {
      assert p + a == a && p + b == b;
    } else {
      TextLessCommonPrefix(p[1..], a, b);
      assert (p + a)[1..] == p[1..] + a && (p + b)[1..] == p[1..] + b;
    }
  }

  lemma {:induction false} TextLessIrreflexive(a: Text)
    ensures !TextLess(a, a)
  {
    if a != [] { TextLessIrreflexive(a[1..]); }
  }

  /** A string that does not start with `p` lies on one side of everything that does. */
  lemma {:induction false} OutsidePrefix(p: Text, s: Text, t: Text)
    requires !(p <= s)
    ensures TextLess(s, p + t) == TextLess(s, p) && TextLess(p + t, s) == TextLess(p, s)
  {
    if p != [] && s != [] && s[0] == p[0] {
      assert p == [p[0]] + p[1..] && s == [s[0]] + s[1..];
      OutsidePrefix(p[1..], s[1..], t);
      assert (p + t)[1..] == p[1..] + t;
    }
  }

  /** A string lies in [prefix, successor) exactly when it starts with the prefix; with no successor,
      every string from the prefix on starts with it. */
  lemma {:induction false} SuccessorBoundsPrefix(prefix: Text, s: Text)
    ensures Successor(prefix).Some? ==>
              (prefix <= s <==> !TextLess(s, prefix) && TextLess(s, Successor(prefix).value))
    ensures Successor(prefix).None? ==> (prefix <= s <==> !TextLess(s, prefix))
  {
    if prefix == [] {
      assert !TextLess(s, prefix);
    } else {
      var init, last := prefix[..|prefix| - 1], prefix[|prefix| - 1];
      assert prefix == init + [last];
      if init <= s {
        var rest := s[|init|..];
        assert s == init + rest;
        TextLessCommonPrefix(init, rest, [last]);
        if last < 0xffff { TextLessCommonPrefix(init, rest, [last + 1]); }
        assert prefix <= s <==> rest != [] && rest[0] == last;
        SuccessorBoundsPrefix(init, s);
      } else {
        SuccessorBoundsPrefix(init, s);
        OutsidePrefix(init, s, [last]);
        if last < 0xffff { OutsidePrefix(init, s, [last + 1]); OutsideSplits(init, s); }
        assert !(prefix <= s);
      }
    }
  }

  /** Strings are totally ordered, so a string outside the prefix is strictly on one side of it. */
  lemma {:induction false} OutsideSplits(p: Text, s: Text)
    requires !(p <= s)
    ensures TextLess(s, p) != TextLess(p, s)
  {
    if p != [] && s != [] && s[0] == p[0] {
      assert p == [p[0]] + p[1..] && s == [s[0]] + s[1..];
      OutsideSplits(p[1..], s[1..]);
    }
  }

  /** `_isIDBAcceleratable`. */
  predicate Acceleratable(cond: Condition) {
    match cond
    case StartsWith(w) => w.Str?
    case Gt(w) => w.Number? && w.n.Finite?
    case Gte(w) => w.Number? && w.n.Finite?
    case Eq(w) => (w.Number? && w.n.Finite?) || w.Str?
    case _ => false
  }

  /** The key range of an accelerated condition. */
  function RangeOf(cond: Condition): Range
    requires Acceleratable(cond)
  {
    match cond
    case Eq(w) => Only(if w.Str? then StrKey(w.s) else NumKey(w.n))
    case Gt(w) => LowerBound(NumKey(w.n), true)
    case Gte(w) => LowerBound(NumKey(w.n), false)
    case StartsWith(w) =>
      var successor := Successor(w.s);
      if successor.None? then LowerBound(StrKey(w.s), false) else Bound(StrKey(w.s), StrKey(successor.value))
  }

  /** The index to use, the range to visit, and the filters still to apply. */
  datatype Strategy = Strategy(path: Path, range: Range, remaining: seq<Filter>)

  function StrategyFor(filters: seq<Filter>, i: nat): Strategy
    requires i < |filters| && Acceleratable(filters[i].cond)
  {
    var f := filters[i];
    Strategy(f.path, RangeOf(f.cond), if f.cond.Eq? then filters[..i] + filters[i + 1..] else filters)
  }

  predicate Usable(indexed: set<Path>, f: Filter) {
    f.path in indexed && Acceleratable(f.cond)
  }

  /** `_pickIDBStrategy`: the first usable filter decides. */
  method PickStrategy(indexed: set<Path>, filters: seq<Filter>) returns (r: Option<Strategy>)
    ensures r.None? <==> forall i :: 0 <= i < |filters| ==> !Usable(indexed, filters[i])
    ensures r.Some? ==> exists i :: IsFirstUsable(indexed, filters, i) && r.value == StrategyFor(filters, i)
  {
    for i := 0 to |filters|
      invariant forall j :: 0 <= j < i ==> !Usable(indexed, filters[j])
    {
      var f := filters[i];
      if f.path !in indexed { continue; }
      if !Acceleratable(f.cond) { continue; }
      assert IsFirstUsable(indexed, filters, i);
      return Some(StrategyFor(filters, i));
    }
    return None;
  }

  predicate IsFirstUsable(indexed: set<Path>, filters: seq<Filter>, i: nat) {
    i < |filters| && Usable(indexed, filters[i]) && forall j :: 0 <= j < i ==> !Usable(indexed, filters[j])
  }

  /** The answer of the accelerated path. */
  ghost function Accelerated(rt: Runtime, store: Store, s: Strategy): set<Doc> {
    set d | d in Visited(rt, store, s.path, s.range) && MatchesAll(rt, store[d], s.remaining)
  }

  // ----- when the two answers agree

  /** Values that the index leaves out although a comparison may still accept them. */
  predicate LeftOut(rt: Runtime, v: Value) {
    v.Bool? || v.BigInt? || (v.Object? && (v.cls.Boxed? || (v.cls.Array? && !rt.arrayIsKey(v))))
  }

  /** The path steps into a string to read its length. */
  predicate ReadsLength(v: Value, path: seq<string>)
    decreases |path|
  {
    path != [] &&
    if v.Str? then path[0] == "length"
    else v.Object? && ReadsLength(Property(v, path[0]), path[1..])
  }

  /** Away from string lengths, the key path reads what the filter reads. */
  lemma {:induction false} KeyPathReadsField(v: Value, path: seq<string>)
    requires !ReadsLength(v, path) && path != []
    ensures EvalKeyPath(v, path) == if Resolve(v, path) == Undefined then None else Some(Resolve(v, path))
    decreases |path|
  {
    if v.Object? {
      var next := Property(v, path[0]);
      if |path| == 1 {
        assert Resolve(next, path[1..]) == next;
      } else if next == Undefined {
        assert Resolve(next, path[1..]) == Undefined;
      } else {
        KeyPathReadsField(next, path[1..]);
      }
    }
  }

  /** A filter that reads through a string finds nothing there. */
  lemma {:induction false} LengthIsUndefined(v: Value, path: seq<string>)
    requires ReadsLength(v, path)
    ensures Resolve(v, path) == Undefined
    decreases |path|
  {
    if v.Object? { LengthIsUndefined(Property(v, path[0]), path[1..]); }
  }

  /** The cursor visits every record whose field satisfies the condition, unless the index leaves the
      value out; and for an equality it visits no other record. */
  lemma VisitedIfSatisfied(rt: Runtime, v: Value, cond: Condition)
    requires Sane(rt) && Acceleratable(cond)
    ensures Satisfies(rt, v, cond) && !LeftOut(rt, v) ==>
      ToKey(rt, v).Some? && InRange(ToKey(rt, v).value, RangeOf(cond))
    ensures cond.Eq? && ToKey(rt, v).Some? && InRange(ToKey(rt, v).value, RangeOf(cond)) ==> Satisfies(rt, v, cond)
    ensures cond.Eq? || cond.StartsWith? ==> Satisfies(rt, v, cond) ==> !LeftOut(rt, v)
  {
    if cond.StartsWith? && v.Str? {
      SuccessorBoundsPrefix(cond.value.s, v.s);
      if cond.value.s <= v.s { AtLeastPrefix(cond.value.s, v.s); }
    }
    if v.Object? && v.cls.Plain? {
      assert rt.toNumber(rt.objectText(Object(Plain, v.props))) == NaN;
    }
  }

  lemma {:induction false} AtLeastPrefix(p: Text, s: Text)
    requires p <= s
    ensures TextLess(p, s) || p == s
  {
    if p != [] { AtLeastPrefix(p[1..], s[1..]); }
  }

  lemma MatchesAllWithout(rt: Runtime, fields: Value, filters: seq<Filter>, i: nat)
    requires i < |filters|
    ensures MatchesAll(rt, fields, filters) <==>
            Matches(rt, fields, filters[i]) && MatchesAll(rt, fields, filters[..i] + filters[i + 1..])
  {
    var rest := filters[..i] + filters[i + 1..];
    forall j | 0 <= j < |filters| && j != i ensures filters[j] in rest {
      assert filters[j] == rest[if j < i then j else j - 1];
    }
    forall j | 0 <= j < |rest| ensures rest[j] in filters {
      assert rest[j] == filters[if j < i then j else j + 1];
    }
    if Matches(rt, fields, filters[i]) && MatchesAll(rt, fields, rest) {
      forall j | 0 <= j < |filters| ensures Matches(rt, fields, filters[j]) {
        if j != i { assert filters[j] == rest[if j < i then j else j - 1]; }
      }
    }
  }

  /** The scan finds the record, the index does not have it. */
  predicate Missed(rt: Runtime, fields: Value, filters: seq<Filter>, i: nat)
    requires i < |filters|
  {
    LeftOut(rt, Resolve(fields, filters[i].path)) && MatchesAll(rt, fields, filters)
  }

  /** The index has the record under the length of a string, where the filter reads nothing. */
  predicate Phantom(rt: Runtime, fields: Value, filters: seq<Filter>, i: nat)
    requires i < |filters|
  {
    var f := filters[i];
    && f.cond.Eq?
    && ReadsLength(fields, f.path)
    && f.cond.value.Number? && IndexKey(rt, fields, f.path) == Some(NumKey(f.cond.value.n))
    && MatchesAll(rt, fields, filters[..i] + filters[i + 1..])
  }

  /** One record: the two paths agree on it unless it is missed or a phantom. */
  lemma RecordAgreesIff(rt: Runtime, fields: Value, filters: seq<Filter>, i: nat)
    requires Sane(rt) && i < |filters| && Acceleratable(filters[i].cond)
    ensures var s := StrategyFor(filters, i);
            var key := IndexKey(rt, fields, s.path);
            ((key.Some? && InRange(key.value, s.range) && MatchesAll(rt, fields, s.remaining)) <==>
                MatchesAll(rt, fields, filters))
            <==> !Missed(rt, fields, filters, i) && !Phantom(rt, fields, filters, i)
  {
    hide MatchesAll, Satisfies, InRange, RangeOf;
    var f := filters[i];
    MatchesAllWithout(rt, fields, filters, i);
    var v := Resolve(fields, f.path);
    VisitedIfSatisfied(rt, v, f.cond);
    if ReadsLength(fields, f.path) {
      LengthIsUndefined(fields, f.path);
      LengthKeys(rt, fields, f.path);
      UndefinedSatisfiesNothing(rt, f.cond);
    } else {
      KeyPathReadsField(fields, f.path);
    }
    if f.cond.Eq? { OnlyRange(f.cond); }
  }

  lemma UndefinedSatisfiesNothing(rt: Runtime, cond: Condition)
    requires Acceleratable(cond)
    ensures !Satisfies(rt, Undefined, cond)
  {
  }

  lemma OnlyRange(cond: Condition)
    requires Acceleratable(cond) && cond.Eq?
    ensures forall k :: InRange(k, RangeOf(cond)) <==>
      k == (if cond.value.Str? then StrKey(cond.value.s) else NumKey(cond.value.n))
  {
  }

  /** What a key path reads off a string's length is a number or nothing. */
  lemma {:induction false} LengthKeys(rt: Runtime, v: Value, path: seq<string>)
    requires ReadsLength(v, path)
    ensures EvalKeyPath(v, path).Some? ==> EvalKeyPath(v, path).value.Number?
    decreases |path|
  {
    if v.Object? {
      LengthKeys(rt, Property(v, path[0]), path[1..]);
    } else if |path| > 1 {
      assert EvalKeyPath(Number(Finite(|v.s| as real)), path[1..]) == None;
    }
  }

  /** For every store, filter list and usable filter: the accelerated answer equals the full scan if
      and only if no record is missed and none is a phantom. */
  lemma AcceleratedAgreesIff(rt: Runtime, store: Store, filters: seq<Filter>, i: nat)
    requires Sane(rt) && i < |filters| && Acceleratable(filters[i].cond)
    ensures Accelerated(rt, store, StrategyFor(filters, i)) == Scan(rt, store, filters) <==>
            forall d :: d in store ==> !Missed(rt, store[d], filters, i) && !Phantom(rt, store[d], filters, i)
  {
    hide MatchesAll, InRange, Missed, Phantom, IndexKey;
    var s := StrategyFor(filters, i);
    forall d | d in store
      ensures (d in Accelerated(rt, store, s) <==> d in Scan(rt, store, filters)) <==>
              !Missed(rt, store[d], filters, i) && !Phantom(rt, store[d], filters, i)
    {
      RecordAgreesIff(rt, store[d], filters, i);
    }
    if forall d :: d in store ==> !Missed(rt, store[d], filters, i) && !Phantom(rt, store[d], filters, i) {
      assert forall d :: d in Accelerated(rt, store, s) <==> d in Scan(rt, store, filters);
    }
  }

  /** Stored values at a path for which range filters agree: numbers, strings, dates, valid array keys,
      plain objects, null and absent values, none of them a string's length. */
  ghost predicate Indexable(rt: Runtime, store: Store, path: Path) {
    forall d :: d in store ==> !LeftOut(rt, Resolve(store[d], path)) && !ReadsLength(store[d], path)
  }

  lemma IndexableNeverDiffers(rt: Runtime, store: Store, filters: seq<Filter>, i: nat)
    requires Sane(rt) && i < |filters| && Acceleratable(filters[i].cond) && Indexable(rt, store, filters[i].path)
    ensures Accelerated(rt, store, StrategyFor(filters, i)) == Scan(rt, store, filters)
  {
    AcceleratedAgreesIff(rt, store, filters, i);
  }

  /** A stored boolean is compared as a number by the scan and is absent from the index. */
  lemma BooleanIsMissed(rt: Runtime, path: string)
    requires Sane(rt)
    ensures var store: Store := map["doc" := Object(Plain, map[path := Bool(true)])];
            var filters := [Filter([path], Gt(Number(Finite(0.0))))];
            Scan(rt, store, filters) == {"doc"} && Accelerated(rt, store, StrategyFor(filters, 0)) == {}
  {
    var fields := Object(Plain, map[path := Bool(true)]);
    var store: Store := map["doc" := fields];
    var filters := [Filter([path], Gt(Number(Finite(0.0))))];
    assert Resolve(fields, [path]) == Resolve(Bool(true), [path][1..]) == Bool(true);
    assert Matches(rt, fields, filters[0]);
    assert EvalKeyPath(fields, [path]) == EvalKeyPath(Bool(true), [path][1..]) == Some(Bool(true));
  }

  /** So is a big integer, and a wrapped number. */
  lemma BigIntIsMissed(rt: Runtime, path: string, v: Value)
    requires Sane(rt) && v in {BigInt(10), Object(Boxed(Number(Finite(10.0))), map[])}
    ensures var store: Store := map["doc" := Object(Plain, map[path := v])];
            var filters := [Filter([path], Gt(Number(Finite(5.0))))];
            Scan(rt, store, filters) == {"doc"} && Accelerated(rt, store, StrategyFor(filters, 0)) == {}
  {
    var fields := Object(Plain, map[path := v]);
    var store: Store := map["doc" := fields];
    var filters := [Filter([path], Gt(Number(Finite(5.0))))];
    assert Resolve(fields, [path]) == Resolve(v, [path][1..]) == v;
    assert Matches(rt, fields, filters[0]);
    assert EvalKeyPath(fields, [path]) == EvalKeyPath(v, [path][1..]) == Some(v);
  }

  /** An index on a string's length answers an equality that the filter itself rejects. */
  lemma LengthIsAPhantom(rt: Runtime, name: string, text: Text)
    requires Sane(rt)
    ensures var store: Store := map["doc" := Object(Plain, map[name := Str(text)])];
            var filters := [Filter([name, "length"], Eq(Number(Finite(|text| as real))))];
            Scan(rt, store, filters) == {} && Accelerated(rt, store, StrategyFor(filters, 0)) == {"doc"}
  {
    var fields := Object(Plain, map[name := Str(text)]);
    var filters := [Filter([name, "length"], Eq(Number(Finite(|text| as real))))];
    var path := [name, "length"];
    assert path[1..] == ["length"] && ["length"][1..] == [];
    assert Resolve(fields, path) == Resolve(Str(text), ["length"]) == Undefined;
    assert EvalKeyPath(fields, path) == EvalKeyPath(Str(text), ["length"]) == Some(Number(Finite(|text| as real)));
    assert !Matches(rt, fields, filters[0]);
    assert StrategyFor(filters, 0).remaining == [];
  }

  // ----- the query loops

  datatype Row = Row(documentPath: Doc, fields: Value)

  ghost predicate Lists(docs: seq<Doc>, all: set<Doc>) {
    Distinct(docs) && (forall d :: d in docs <==> d in all)
  }

  /** The rows list each document of a set once, with its stored fields. */
  ghost predicate RowsOf(rows: seq<Row>, store: Store, docs: set<Doc>) {
    && (forall i, j :: 0 <= i < j < |rows| ==> rows[i].documentPath != rows[j].documentPath)
    && (forall i :: 0 <= i < |rows| ==>
        rows[i].documentPath in docs && rows[i].documentPath in store && rows[i].fields == store[rows[i].documentPath])
    && (forall d :: d in docs ==> exists i :: 0 <= i < |rows| && rows[i].documentPath == d)
  }

  lemma RowsGrow(rows: seq<Row>, store: Store, docs: set<Doc>, d: Doc)
    requires RowsOf(rows, store, docs) && d !in docs && d in store
    ensures RowsOf(rows + [Row(d, store[d])], store, docs + {d})
  {
    var rows' := rows + [Row(d, store[d])];
    forall e | e in docs + {d} ensures exists i :: 0 <= i < |rows'| && rows'[i].documentPath == e {
      if e == d {
        assert rows'[|rows|].documentPath == d;
      } else {
        var i :| 0 <= i < |rows| && rows[i].documentPath == e;
        assert rows'[i].documentPath == e;
      }
    }
  }

  ghost function Passing(rt: Runtime, store: Store, docs: set<Doc>, filters: seq<Filter>): set<Doc> {
    set d | d in docs && d in store && MatchesAll(rt, store[d], filters)
  }

  /** A cursor loop: keeps the visited records that pass the filters. */
  method FilterVisited(rt: Runtime, store: Store, docs: seq<Doc>, ghost all: set<Doc>, filters: seq<Filter>)
    returns (rows: seq<Row>)
    requires Lists(docs, all) && all <= store.Keys
    ensures RowsOf(rows, store, Passing(rt, store, all, filters))
  {
    hide RowsOf, MatchesAll;
    rows := [];
    ghost var seen: set<Doc> := {};
    NoRows(store);
    assert Passing(rt, store, {}, filters) == {};
    for i := 0 to |docs|
      invariant forall d :: d in docs[..i] <==> d in seen
      invariant RowsOf(rows, store, Passing(rt, store, seen, filters))
    {
      var d := docs[i];
      assert docs[..i + 1] == docs[..i] + [d];
      assert d in docs && d in store && d !in docs[..i];
      if MatchesAll(rt, store[d], filters) {
        RowsGrow(rows, store, Passing(rt, store, seen, filters), d);
        rows := rows + [Row(d, store[d])];
        assert Passing(rt, store, seen + {d}, filters) == Passing(rt, store, seen, filters) + {d};
      } else {
        assert Passing(rt, store, seen + {d}, filters) == Passing(rt, store, seen, filters);
      }
      seen := seen + {d};
    }
    assert docs[..|docs|] == docs;
    assert seen == all;
  }

  lemma NoRows(store: Store)
    ensures RowsOf([], store, {})
  {
  }

  /** The cursors of an IndexedDB store: over all records, and over an index in a range. */
  datatype Cursors = Cursors(records: seq<Doc>, index: (Path, Range) -> seq<Doc>)

  ghost predicate ValidCursors(rt: Runtime, store: Store, c: Cursors) {
    Lists(c.records, store.Keys) && forall p, r :: Lists(c.index(p, r), Visited(rt, store, p, r))
  }

  /** `query` without sorting and paging. */
  method Query(rt: Runtime, store: Store, indexed: set<Path>, filters: seq<Filter>, c: Cursors) returns (rows: seq<Row>)
    requires Sane(rt) && ValidCursors(rt, store, c)
    ensures (forall p :: p in indexed ==> Indexable(rt, store, p)) ==> RowsOf(rows, store, Scan(rt, store, filters))
    ensures (forall i :: 0 <= i < |filters| ==> !Usable(indexed, filters[i])) ==>
      RowsOf(rows, store, Scan(rt, store, filters))
    ensures forall i :: IsFirstUsable(indexed, filters, i) ==>
      RowsOf(rows, store, Accelerated(rt, store, StrategyFor(filters, i)))
  {
    hide RowsOf, MatchesAll, Lists, RangeOf, InRange, IndexKey, Indexable, Sane, Acceleratable;
    var strategy := PickStrategy(indexed, filters);
    if strategy.Some? {
      var s := strategy.value;
      ghost var i :| IsFirstUsable(indexed, filters, i) && s == StrategyFor(filters, i);
      ghost var visited := Visited(rt, store, s.path, s.range);
      rows := FilterVisited(rt, store, c.index(s.path, s.range), visited, s.remaining);
      assert Passing(rt, store, visited, s.remaining) == Accelerated(rt, store, s);
      if forall p :: p in indexed ==> Indexable(rt, store, p) {
        IndexableNeverDiffers(rt, store, filters, i);
      }
    } else {
      rows := FilterVisited(rt, store, c.records, store.Keys, filters);
      assert Passing(rt, store, store.Keys, filters) == Scan(rt, store, filters);
    }
  }
}
