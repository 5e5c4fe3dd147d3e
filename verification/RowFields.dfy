/**
 The rows of a materialized index (index-manager.ts, field-extractor.ts): building a row from the
 field paths of a definition, reading it back, and comparing it with the row already stored.
 */
module RowFields {
  import opened JsValue

  type Props = map<string, Value>

  /** `_setNestedField` on the properties of an object: objects on the way are kept, anything else is
      replaced by an empty object. */
  function SetNested(props: Props, path: seq<string>, value: Value): Props
    requires path != []
    decreases |path|, 0
  {
    if |path| == 1 then props[path[0] := value]
    else props[path[0] := Descend(if path[0] in props then props[path[0]] else Undefined, path[1..], value)]
  }

  function Descend(current: Value, path: seq<string>, value: Value): Value
    requires path != []
    decreases |path|, 1
  {
    if current.Object? then Object(current.cls, SetNested(current.props, path, value))
    else Object(Plain, SetNested(map[], path, value))
  }

  /** Reading a path of a row. */
  function Read(props: Props, path: seq<string>): Value {
    Resolve(Object(Plain, props), path)
  }

  /** The row for a snapshot: every field path set in turn to the snapshot's value. */
  function RowFor(snapshot: Value, paths: seq<Path>): Props {
    if paths == [] then map[]
    else
      var last := paths[|paths| - 1];
      SetNested(RowFor(snapshot, paths[..|paths| - 1]), last, Resolve(snapshot, last))
  }

  method BuildRow(snapshot: Value, paths: seq<Path>) returns (fields: Props)
    ensures fields == RowFor(snapshot, paths)
  {
    fields := map[];
    for i := 0 to |paths|
      invariant fields == RowFor(snapshot, paths[..i])
    {
      assert paths[..i + 1][..i] == paths[..i];
      var value := ExtractField(snapshot, paths[i]);
      fields := SetNested(fields, paths[i], value);
    }
    assert paths[..|paths|] == paths;
  }

  // ----- reading back what was set

  lemma ReadStep(props: Props, path: seq<string>)
    requires path != []
    ensures Read(props, path) == Resolve(if path[0] in props then props[path[0]] else Undefined, path[1..])
  {
  }

  /** Setting a path and reading it, or anything below it, gives the value, or what is below it. */
  lemma {:induction false} ReadBelowSet(props: Props, path: seq<string>, value: Value, more: seq<string>)
    requires path != []
    ensures Read(SetNested(props, path, value), path + more) == Resolve(value, more)
    decreases |path|
  {
    var props' := SetNested(props, path, value);
    ReadStep(props', path + more);
    if |path| == 1 {
      assert (path + more)[1..] == more;
    } else {
      assert (path + more)[1..] == path[1..] + more;
      var was := if path[0] in props then props[path[0]] else Undefined;
      var inner := if was.Object? then was.props else map[];
      ReadBelowSet(inner, path[1..], value, more);
      SameRead(Descend(was, path[1..], value), path[1..] + more);
    }
  }

  /** The class of an object matters only to the length of an array, which a property hides. */
  lemma SameRead(v: Value, path: seq<string>)
    requires v.Object? && path != [] && path[0] in v.props
    ensures Resolve(v, path) == Read(v.props, path)
  {
  }

  lemma {:induction false} SetNestedHasHead(props: Props, path: seq<string>, value: Value)
    requires path != []
    ensures path[0] in SetNested(props, path, value)
  {
  }

  /** Neither path is a prefix of the other. */
  predicate Apart(p: seq<string>, q: seq<string>) {
    !(p <= q) && !(q <= p)
  }

  /** Setting a path does not disturb a path apart from it. */
  lemma {:induction false} ReadApartFromSet(v: Value, path: seq<string>, value: Value, other: seq<string>)
    requires path != [] && Apart(path, other) && v.Object?
    ensures Resolve(Object(v.cls, SetNested(v.props, path, value)), other) == Resolve(v, other)
    decreases |path|
  {
    assert other != [];
    if other[0] == path[0] {
      assert path == [path[0]] + path[1..] && other == [other[0]] + other[1..];
      if |path| > 1 {
        var stored := if path[0] in v.props then v.props[path[0]] else Undefined;
        assert Apart(path[1..], other[1..]);
        if stored.Object? {
          ReadApartFromSet(stored, path[1..], value, other[1..]);
        } else {
          ReadApartFromSet(Object(Plain, map[]), path[1..], value, other[1..]);
        }
      }
    }
  }

  lemma {:induction false} ResolveConcat(v: Value, p: seq<string>, q: seq<string>)
    ensures Resolve(v, p + q) == Resolve(Resolve(v, p), q)
    decreases |p|
  {
    if p == [] {
      assert p + q == q;
    } else {
      assert (p + q)[0] == p[0] && (p + q)[1..] == p[1..] + q;
      if v.Object? {
        ResolveConcat(Property(v, p[0]), p[1..], q);
      } else if q != [] {
        assert Resolve(Undefined, q) == Undefined;
      }
    }
  }

  // ----- which definitions give faithful rows

  predicate ProperPrefix(p: seq<string>, q: seq<string>) {
    p <= q && p != q
  }

  /** A path set inside an earlier one is wiped out by a later prefix of that earlier path. */
  predicate Orderly(paths: seq<Path>) {
    forall i, j :: 0 <= i < j < |paths| && ProperPrefix(paths[i], paths[j]) ==>
      exists k :: j < k < |paths| && paths[k] <= paths[i]
  }

  /** Every field path of the row reads what it reads in the snapshot. */
  ghost predicate Faithful(snapshot: Value, paths: seq<Path>) {
    forall i :: 0 <= i < |paths| ==> Read(RowFor(snapshot, paths), paths[i]) == Resolve(snapshot, paths[i])
  }

  /** The last path that is a prefix of `p`. */
  predicate LastPrefix(paths: seq<Path>, p: seq<string>, k: nat) {
    k < |paths| && paths[k] <= p && forall j :: k < j < |paths| ==> !(paths[j] <= p)
  }

  lemma {:induction false} FindLastPrefix(paths: seq<Path>, p: seq<string>, i: nat) returns (k: nat)
    requires i < |paths| && paths[i] <= p
    ensures LastPrefix(paths, p, k)
    decreases |paths| - i
  {
    if j :| i < j < |paths| && paths[j] <= p {
      k := FindLastPrefix(paths, p, j);
    } else {
      k := i;
    }
  }

  /** From the last set of a prefix of `p` on, the row reads the snapshot at `p`. */
  lemma {:induction false} ReadsSnapshotFrom(snapshot: Value, paths: seq<Path>, p: seq<string>, k: nat, n: nat)
    requires k < n <= |paths| && paths[k] <= p
    requires forall j :: k < j < n ==> Apart(paths[j], p)
    ensures Read(RowFor(snapshot, paths[..n]), p) == Resolve(snapshot, p)
    decreases n
  {
    var rest, last := paths[..n - 1], paths[n - 1];
    assert paths[..n][..n - 1] == rest;
    if n == k + 1 {
      var more := p[|last|..];
      assert p == last + more;
      ReadBelowSet(RowFor(snapshot, rest), last, Resolve(snapshot, last), more);
      ResolveConcat(snapshot, last, more);
    } else {
      ReadsSnapshotFrom(snapshot, paths, p, k, n - 1);
      ReadApartFromSet(Object(Plain, RowFor(snapshot, rest)), last, Resolve(snapshot, last), p);
    }
  }

  lemma OrderlyIsFaithful(snapshot: Value, paths: seq<Path>)
    requires Orderly(paths)
    ensures Faithful(snapshot, paths)
  {
    hide Orderly, RowFor, Resolve;
    forall i | 0 <= i < |paths| ensures Read(RowFor(snapshot, paths), paths[i]) == Resolve(snapshot, paths[i]) {
      OrderlyReads(snapshot, paths, i);
    }
  }

  lemma OrderlyReads(snapshot: Value, paths: seq<Path>, i: nat)
    requires Orderly(paths) && i < |paths|
    ensures Read(RowFor(snapshot, paths), paths[i]) == Resolve(snapshot, paths[i])
  {
    hide Read, RowFor, Resolve;
    var p := paths[i];
    var k := FindLastPrefix(paths, p, i);
    forall j | k < j < |paths| ensures Apart(paths[j], p) {
      assert forall m :: j < m < |paths| ==> !(paths[m] <= paths[k]);
      assert !ProperPrefix(paths[k], paths[j]);
    }
    ReadsSnapshotFrom(snapshot, paths, p, k, |paths|);
    assert paths[..|paths|] == paths;
  }

  /** Setting a longer path makes every proper prefix of it an object. */
  lemma {:induction false} SetMakesObjects(props: Props, path: seq<string>, value: Value, p: seq<string>)
    requires p != [] && ProperPrefix(p, path)
    ensures Read(SetNested(props, path, value), p).Object?
    decreases |path|
  {
    ReadStep(SetNested(props, path, value), p);
    if |p| > 1 {
      var was := if path[0] in props then props[path[0]] else Undefined;
      var inner := if was.Object? then was.props else map[];
      assert path == [path[0]] + path[1..] && p == [p[0]] + p[1..];
      SetMakesObjects(inner, path[1..], value, p[1..]);
      SetNestedHasHead(inner, path[1..], value);
      SameRead(Descend(was, path[1..], value), p[1..]);
    }
  }

  lemma {:induction false} StaysObject(snapshot: Value, paths: seq<Path>, p: seq<string>, j: nat, n: nat)
    requires p != [] && j < n <= |paths| && ProperPrefix(p, paths[j])
    requires forall k :: j < k < n ==> !(paths[k] <= p)
    ensures Read(RowFor(snapshot, paths[..n]), p).Object?
    decreases n
  {
    var rest, last := paths[..n - 1], paths[n - 1];
    assert paths[..n][..n - 1] == rest;
    if ProperPrefix(p, last) {
      SetMakesObjects(RowFor(snapshot, rest), last, Resolve(snapshot, last), p);
    } else {
      StaysObject(snapshot, paths, p, j, n - 1);
      ReadApartFromSet(Object(Plain, RowFor(snapshot, rest)), last, Resolve(snapshot, last), p);
    }
  }

  /** A definition gives faithful rows for every snapshot exactly when its paths are orderly; the empty
      snapshot already tells. Paths of which none is a prefix of another are orderly. */
  lemma FaithfulIffOrderly(paths: seq<Path>)
    ensures (forall snapshot :: Faithful(snapshot, paths)) <==> Orderly(paths)
    ensures Faithful(Object(Plain, map[]), paths) <==> Orderly(paths)
  {
    if Orderly(paths) {
      forall snapshot ensures Faithful(snapshot, paths) { OrderlyIsFaithful(snapshot, paths); }
    } else {
      var i, j :| 0 <= i < j < |paths| && ProperPrefix(paths[i], paths[j]) &&
        !(exists k :: j < k < |paths| && paths[k] <= paths[i]);
      var none := Object(Plain, map[]);
      StaysObject(none, paths, paths[i], j, |paths|);
      assert paths[..|paths|] == paths;
      assert Resolve(none, paths[i]) == Resolve(Undefined, paths[i][1..]) == Undefined;
      assert !Faithful(none, paths);
    }
  }

  // ----- the skip test

  /** `_fieldsEqual` on two objects. */
  predicate FieldsEqual(rt: Runtime, a: Value, b: Value)
    requires a.Object? && b.Object?
    decreases a, 0
  {
    |a.props| == |b.props| && forall key :: key in a.props ==> ValuesEqual(rt, a.props[key], Property(b, key))
  }

  predicate ValuesEqual(rt: Runtime, v: Value, w: Value)
    decreases v, 1
  {
    if StrictEqual(rt, v, w) then true
    else if v.Object? && w.Object? then
      if v.cls.Date? && w.cls.Date? then v.cls.time == w.cls.time && v.cls.time != NaN
      else FieldsEqual(rt, v, w)
    else false
  }

  /** Objects are the same reference only if they are the same value. */
  ghost predicate SameObjectSameValue(rt: Runtime) {
    forall a, b :: rt.sameObject(a, b) ==> a == b
  }

  /** A scalar, or a date with nothing attached to it. */
  predicate ScalarOrDate(v: Value) {
    v.Object? ==> v.cls.Date? && v.props == map[]
  }

  predicate ScalarLeaves(snapshot: Value, paths: seq<Path>) {
    forall i :: 0 <= i < |paths| ==> ScalarOrDate(Resolve(snapshot, paths[i]))
  }

  predicate PrefixFree(paths: seq<Path>) {
    forall i, j :: 0 <= i < |paths| && 0 <= j < |paths| && paths[i] <= paths[j] ==> paths[i] == paths[j]
  }

  /** The path leads through plain objects, all present. */
  predicate PlainPath(v: Value, path: seq<string>)
    decreases |path|
  {
    path == [] || (v.Object? && v.cls == Plain && path[0] in v.props && PlainPath(v.props[path[0]], path[1..]))
  }

  /** Setting the path would go through plain objects only. */
  predicate Open(v: Value, path: seq<string>)
    requires path != []
    decreases |path|
  {
    v.Object? && v.cls == Plain &&
    (|path| > 1 && path[0] in v.props ==> Open(v.props[path[0]], path[1..]))
  }

  function Set(v: Value, path: seq<string>, value: Value): Value
    requires v.Object? && path != []
  {
    Object(v.cls, SetNested(v.props, path, value))
  }

  lemma SetInside(v: Value, path: seq<string>, value: Value)
    requires v.Object? && |path| > 1 && (path[0] in v.props ==> v.props[path[0]].Object?)
    ensures path[0] in Set(v, path, value).props
    ensures Set(v, path, value).props[path[0]] ==
            Set(if path[0] in v.props then v.props[path[0]] else Object(Plain, map[]), path[1..], value)
  {
    var was := if path[0] in v.props then v.props[path[0]] else Undefined;
    assert SetNested(v.props, path, value)[path[0]] == Descend(was, path[1..], value);
  }

  lemma {:induction false} EmptyIsOpen(path: seq<string>)
    requires path != []
    ensures Open(Object(Plain, map[]), path)
  {
  }

  lemma {:induction false} SetStaysOpen(v: Value, path: seq<string>, value: Value, other: seq<string>)
    requires path != [] && other != [] && (path == other || Apart(path, other))
    requires Open(v, path) && Open(v, other)
    ensures Open(Set(v, path, value), other)
    decreases |path|
  {
    assert path == [path[0]] + path[1..] && other == [other[0]] + other[1..];
    if |path| > 1 && |other| > 1 && path[0] == other[0] {
      var inner := if path[0] in v.props then v.props[path[0]] else Object(Plain, map[]);
      EmptyIsOpen(path[1..]);
      EmptyIsOpen(other[1..]);
      SetStaysOpen(inner, path[1..], value, other[1..]);
      SetInside(v, path, value);
    }
  }

  lemma {:induction false} SetMakesPlainPath(v: Value, path: seq<string>, value: Value)
    requires path != [] && Open(v, path)
    ensures PlainPath(Set(v, path, value), path)
    decreases |path|
  {
    if |path| > 1 {
      var inner := if path[0] in v.props then v.props[path[0]] else Object(Plain, map[]);
      EmptyIsOpen(path[1..]);
      SetMakesPlainPath(inner, path[1..], value);
      SetInside(v, path, value);
    }
  }

  lemma {:induction false} SetKeepsPlainPath(v: Value, path: seq<string>, value: Value, other: seq<string>)
    requires path != [] && Apart(path, other) && Open(v, path) && PlainPath(v, other)
    ensures PlainPath(Set(v, path, value), other)
    decreases |path|
  {
    assert path == [path[0]] + path[1..] && other == [other[0]] + other[1..];
    if |path| > 1 && path[0] == other[0] {
      SetKeepsPlainPath(v.props[path[0]], path[1..], value, other[1..]);
      SetInside(v, path, value);
    }
  }

  /** With prefix-free paths, a row has every path so far and stays open to the others. */
  lemma {:induction false} RowHasPaths(snapshot: Value, paths: seq<Path>, n: nat)
    requires PrefixFree(paths) && n <= |paths|
    ensures forall i :: 0 <= i < n ==> PlainPath(Object(Plain, RowFor(snapshot, paths[..n])), paths[i])
    ensures forall i :: 0 <= i < |paths| ==> Open(Object(Plain, RowFor(snapshot, paths[..n])), paths[i])
  {
    if n > 0 {
      var rest, last := paths[..n - 1], paths[n - 1];
      assert paths[..n][..n - 1] == rest;
      RowHasPaths(snapshot, paths, n - 1);
      var row := Object(Plain, RowFor(snapshot, rest));
      var value := Resolve(snapshot, last);
      SetMakesPlainPath(row, last, value);
      forall i | 0 <= i < |paths| ensures Open(Set(row, last, value), paths[i]) {
        SetStaysOpen(row, last, value, paths[i]);
      }
      forall i | 0 <= i < n ensures PlainPath(Set(row, last, value), paths[i]) {
        if i < n - 1 && paths[i] != last { SetKeepsPlainPath(row, last, value, paths[i]); }
      }
    }
  }

  /** Every property of the object at `prefix` of a row lies on some path, and what is not the end of a
      path is such an object again. */
  predicate Covered(v: Value, paths: seq<Path>, prefix: seq<string>)
    decreases v
  {
    v.Object? && v.cls == Plain &&
    forall key :: key in v.props ==>
      prefix + [key] in paths || (LeadsOn(paths, prefix + [key]) && Covered(v.props[key], paths, prefix + [key]))
  }

  predicate LeadsOn(paths: seq<Path>, prefix: seq<string>) {
    exists i :: 0 <= i < |paths| && prefix <= paths[i]
  }

  lemma {:induction false} SetStaysCovered(v: Value, paths: seq<Path>, prefix: seq<string>, i: nat, value: Value)
    requires PrefixFree(paths) && i < |paths| && ProperPrefix(prefix, paths[i]) && Covered(v, paths, prefix)
    ensures Covered(Set(v, paths[i][|prefix|..], value), paths, prefix)
    decreases |paths[i]| - |prefix|
  {
    var rest := paths[i][|prefix|..];
    var next := prefix + [rest[0]];
    assert next <= paths[i] && paths[i] == prefix + rest;
    if |rest| == 1 {
      assert next == paths[i];
    } else {
      var inner := if rest[0] in v.props then v.props[rest[0]] else Object(Plain, map[]);
      assert next !in paths by { if j :| 0 <= j < |paths| && paths[j] == next { assert paths[j] <= paths[i]; } }
      assert Covered(inner, paths, next);
      SetStaysCovered(inner, paths, next, i, value);
      assert paths[i][|next|..] == rest[1..];
      SetInside(v, rest, value);
      assert LeadsOn(paths, next);
    }
  }

  lemma {:induction false} RowIsCovered(snapshot: Value, paths: seq<Path>, n: nat)
    requires PrefixFree(paths) && n <= |paths|
    ensures Covered(Object(Plain, RowFor(snapshot, paths[..n])), paths, [])
  {
    if n > 0 {
      var rest, last := paths[..n - 1], paths[n - 1];
      assert paths[..n][..n - 1] == rest;
      RowIsCovered(snapshot, paths, n - 1);
      assert last[0..] == last;
      SetStaysCovered(Object(Plain, RowFor(snapshot, rest)), paths, [], n - 1, Resolve(snapshot, last));
    }
  }

  lemma {:induction false} PlainPathThrough(v: Value, path: seq<string>, k: nat)
    requires PlainPath(v, path) && k < |path|
    ensures var at := Resolve(v, path[..k]);
            at.Object? && at.cls == Plain && path[k] in at.props && Resolve(v, path[..k + 1]) == at.props[path[k]]
    decreases |path|
  {
    if k > 0 {
      PlainPathThrough(v.props[path[0]], path[1..], k - 1);
      assert path[1..][..k - 1] == path[..k][1..] && path[1..][..k] == path[..k + 1][1..];
    } else {
      assert Resolve(v, path[..1]) == Resolve(v.props[path[0]], path[..1][1..]);
    }
  }

  /** At place `k` of the path the two rows hold one and the same object. */
  ghost predicate SharedAt(rt: Runtime, a: Value, b: Value, path: seq<string>, k: nat)
    requires k <= |path|
  {
    rt.sameObject(Resolve(a, path[..k]), Resolve(b, path[..k]))
  }

  ghost predicate SharesBefore(rt: Runtime, a: Value, b: Value, path: seq<string>, n: nat)
    requires n <= |path|
  {
    exists k :: 0 < k < n && SharedAt(rt, a, b, path, k)
  }

  /** The test passes at the path: it stops at a shared object on the way, or passes at the leaf. */
  ghost predicate PathPasses(rt: Runtime, a: Value, b: Value, path: seq<string>) {
    SharesBefore(rt, a, b, path, |path|) || ValuesEqual(rt, Resolve(a, path), Resolve(b, path))
  }

  ghost predicate AllPathsPass(rt: Runtime, a: Value, b: Value, paths: seq<Path>) {
    forall i :: 0 <= i < |paths| ==> PathPasses(rt, a, b, paths[i])
  }

  /** Both objects have all paths, through plain objects. */
  ghost predicate HaveAll(a: Value, b: Value, paths: seq<Path>) {
    forall i :: 0 <= i < |paths| ==> PlainPath(a, paths[i]) && PlainPath(b, paths[i])
  }

  /** Objects that pass the test pass it at every path. */
  lemma {:induction false} FieldsThenPath(rt: Runtime, a: Value, b: Value, path: seq<string>, k: nat)
    requires PlainPath(a, path) && PlainPath(b, path) && 0 < k <= |path| && a.Object? && b.Object?
    requires FieldsEqual(rt, a, b)
    ensures SharesBefore(rt, a, b, path, k) || ValuesEqual(rt, Resolve(a, path[..k]), Resolve(b, path[..k]))
    decreases k
  {
    hide PlainPath, Resolve;
    PlainPathThrough(a, path, k - 1);
    PlainPathThrough(b, path, k - 1);
    if k > 1 {
      FieldsThenPath(rt, a, b, path, k - 1);
      if SharesBefore(rt, a, b, path, k - 1) {
        var j: nat :| 0 < j < k - 1 && SharedAt(rt, a, b, path, j);
        assert SharesBefore(rt, a, b, path, k);
      } else if SharedAt(rt, a, b, path, k - 1) {
        assert SharesBefore(rt, a, b, path, k);
      }
    } else {
      ResolveNothing(a, b, path);
    }
  }

  lemma ResolveNothing(a: Value, b: Value, path: seq<string>)
    ensures Resolve(a, path[..0]) == a && Resolve(b, path[..0]) == b
  {
  }

  lemma ChildOnPath(v: Value, paths: seq<Path>, prefix: seq<string>, key: string)
    requires LeadsOn(paths, prefix + [key]) && forall i :: 0 <= i < |paths| ==> PlainPath(v, paths[i])
    ensures var at := Resolve(v, prefix);
            at.Object? && at.cls == Plain && key in at.props && Resolve(v, prefix + [key]) == at.props[key]
  {
    var i :| 0 <= i < |paths| && prefix + [key] <= paths[i];
    PlainPathThrough(v, paths[i], |prefix|);
    assert paths[i][..|prefix|] == prefix && paths[i][..|prefix| + 1] == prefix + [key];
  }

  /** The properties of a covered object are those that the paths lead to. */
  lemma CoveredKeys(v: Value, at: Value, paths: seq<Path>, prefix: seq<string>, key: string)
    requires at == Resolve(v, prefix) && Covered(at, paths, prefix)
    requires forall i :: 0 <= i < |paths| ==> PlainPath(v, paths[i])
    ensures key in at.props <==> LeadsOn(paths, prefix + [key])
  {
    if key in at.props && prefix + [key] in paths {
      var i :| 0 <= i < |paths| && paths[i] == prefix + [key];
      assert LeadsOn(paths, prefix + [key]);
    }
    if LeadsOn(paths, prefix + [key]) { ChildOnPath(v, paths, prefix, key); }
  }

  lemma CoveredSameKeys(v: Value, w: Value, a: Value, b: Value, paths: seq<Path>, prefix: seq<string>)
    requires a == Resolve(v, prefix) && b == Resolve(w, prefix)
    requires Covered(a, paths, prefix) && Covered(b, paths, prefix)
    requires forall i :: 0 <= i < |paths| ==> PlainPath(v, paths[i]) && PlainPath(w, paths[i])
    ensures a.props.Keys == b.props.Keys && |a.props| == |b.props|
  {
    forall key ensures key in a.props <==> key in b.props {
      CoveredKeys(v, a, paths, prefix, key);
      CoveredKeys(w, b, paths, prefix, key);
    }
    assert a.props.Keys == b.props.Keys;
    assert |a.props| == |a.props.Keys| && |b.props| == |b.props.Keys|;
  }

  /** Covered objects pass the test if all paths do and nothing above them is shared. */
  lemma {:induction false} PathsThenFields(
    rt: Runtime, v: Value, w: Value, a: Value, b: Value, paths: seq<Path>, prefix: seq<string>)
    requires HaveAll(v, w, paths) && AllPathsPass(rt, v, w, paths)
    requires a == Resolve(v, prefix) && b == Resolve(w, prefix)
    requires Covered(a, paths, prefix) && Covered(b, paths, prefix)
    requires forall k :: 0 < k <= |prefix| ==> !SharedAt(rt, v, w, prefix, k)
    ensures FieldsEqual(rt, a, b)
    decreases a, 1
  {
    hide PlainPath, Covered, SharedAt, PathPasses, Resolve, ValuesEqual;
    CoveredIsObject(a, paths, prefix);
    CoveredIsObject(b, paths, prefix);
    CoveredSameKeys(v, w, a, b, paths, prefix);
    forall key | key in a.props ensures ValuesEqual(rt, a.props[key], Property(b, key)) {
      PathsThenProperty(rt, v, w, a, b, paths, prefix, key);
    }
  }

  lemma CoveredIsObject(v: Value, paths: seq<Path>, prefix: seq<string>)
    requires Covered(v, paths, prefix)
    ensures v.Object?
  {
  }

  lemma {:induction false} PathsThenProperty(
    rt: Runtime, v: Value, w: Value, a: Value, b: Value, paths: seq<Path>, prefix: seq<string>, key: string)
    requires HaveAll(v, w, paths) && AllPathsPass(rt, v, w, paths)
    requires a == Resolve(v, prefix) && b == Resolve(w, prefix)
    requires Covered(a, paths, prefix) && Covered(b, paths, prefix)
    requires forall k :: 0 < k <= |prefix| ==> !SharedAt(rt, v, w, prefix, k)
    requires a.Object? && b.Object? && key in a.props
    ensures ValuesEqual(rt, a.props[key], Property(b, key))
    decreases a, 0
  {
    hide PlainPath, LeadsOn, SharedAt, AllPathsPass, Resolve, FieldsEqual, ValuesEqual, Covered;
    var next := prefix + [key];
    CoveredKeys(v, a, paths, prefix, key);
    ChildOnPath(v, paths, prefix, key);
    ChildOnPath(w, paths, prefix, key);
    if next in paths {
      UnsharedLeafPasses(rt, v, w, paths, prefix, key);
    } else {
      CoveredChild(a, paths, prefix, key);
      CoveredChild(b, paths, prefix, key);
      if !rt.sameObject(a.props[key], b.props[key]) {
        UnsharedFurther(rt, v, w, prefix, key);
        PathsThenFields(rt, v, w, a.props[key], b.props[key], paths, next);
      }
      PlainObjectsPass(rt, a.props[key], b.props[key]);
    }
  }

  lemma CoveredChild(v: Value, paths: seq<Path>, prefix: seq<string>, key: string)
    requires Covered(v, paths, prefix) && key in v.props && prefix + [key] !in paths
    ensures Covered(v.props[key], paths, prefix + [key]) && v.props[key].Object? && v.props[key].cls == Plain
  {
  }

  lemma PlainObjectsPass(rt: Runtime, v: Value, w: Value)
    requires v.Object? && w.Object? && v.cls == Plain && w.cls == Plain
    requires rt.sameObject(v, w) || FieldsEqual(rt, v, w)
    ensures ValuesEqual(rt, v, w)
  {
    hide FieldsEqual;
  }

  lemma UnsharedLeafPasses(rt: Runtime, v: Value, w: Value, paths: seq<Path>, prefix: seq<string>, key: string)
    requires AllPathsPass(rt, v, w, paths) && prefix + [key] in paths
    requires forall k :: 0 < k <= |prefix| ==> !SharedAt(rt, v, w, prefix, k)
    ensures ValuesEqual(rt, Resolve(v, prefix + [key]), Resolve(w, prefix + [key]))
  {
    hide Resolve, ValuesEqual;
    var i :| 0 <= i < |paths| && paths[i] == prefix + [key];
    assert PathPasses(rt, v, w, paths[i]);
    forall k | 0 < k < |paths[i]| ensures !SharedAt(rt, v, w, paths[i], k) {
      assert paths[i][..k] == prefix[..k] && !SharedAt(rt, v, w, prefix, k);
    }
  }

  lemma UnsharedFurther(rt: Runtime, v: Value, w: Value, prefix: seq<string>, key: string)
    requires forall k :: 0 < k <= |prefix| ==> !SharedAt(rt, v, w, prefix, k)
    requires !rt.sameObject(Resolve(v, prefix + [key]), Resolve(w, prefix + [key]))
    ensures forall k :: 0 < k <= |prefix + [key]| ==> !SharedAt(rt, v, w, prefix + [key], k)
  {
    hide Resolve;
    var next := prefix + [key];
    forall k | 0 < k <= |next| ensures !SharedAt(rt, v, w, next, k) {
      if k <= |prefix| {
        assert next[..k] == prefix[..k] && !SharedAt(rt, v, w, prefix, k);
      } else {
        assert next[..k] == next;
      }
    }
  }

  /** A row for prefix-free paths has every path, nothing else, and the snapshot's leaves. */
  lemma RowFacts(s: Value, paths: seq<Path>)
    requires PrefixFree(paths)
    ensures var a := Object(Plain, RowFor(s, paths));
            && Covered(a, paths, [])
            && forall i :: 0 <= i < |paths| ==> PlainPath(a, paths[i]) && Resolve(a, paths[i]) == Resolve(s, paths[i])
  {
    hide Covered, PlainPath, Open, RowFor, Resolve;
    PrefixFreeIsOrderly(paths);
    hide PrefixFree, Orderly;
    OrderlyIsFaithful(s, paths);
    assert paths[..|paths|] == paths;
    RowHasPaths(s, paths, |paths|);
    RowIsCovered(s, paths, |paths|);
  }

  /** The row for a snapshot, as an object. */
  function Row(s: Value, paths: seq<Path>): Value {
    Object(Plain, RowFor(s, paths))
  }

  /** For prefix-free paths, whatever objects the rows share, the skip test passes exactly if it passes at
      every path. */
  lemma SkipTestIff(rt: Runtime, s: Value, t: Value, paths: seq<Path>)
    requires PrefixFree(paths)
    ensures FieldsEqual(rt, Row(s, paths), Row(t, paths)) <==> AllPathsPass(rt, Row(s, paths), Row(t, paths), paths)
  {
    RowFacts(s, paths);
    RowFacts(t, paths);
    var a, b := Row(s, paths), Row(t, paths);
    RowsAtRoot(a, b);
    hide RowFor, Covered, FieldsEqual, ValuesEqual, Resolve, PlainPath;
    if FieldsEqual(rt, a, b) {
      forall i | 0 <= i < |paths| ensures PathPasses(rt, a, b, paths[i]) {
        FieldsThenPath(rt, a, b, paths[i], |paths[i]|);
        assert paths[i][..|paths[i]|] == paths[i];
      }
    }
    if AllPathsPass(rt, a, b, paths) { PathsThenFields(rt, a, b, a, b, paths, []); }
  }

  lemma RowsAtRoot(a: Value, b: Value)
    ensures Resolve(a, []) == a && Resolve(b, []) == b
  {
  }

  /** Building a row makes the objects on the way to its leaves; the two rows share none of them. */
  ghost predicate Fresh(rt: Runtime, a: Value, b: Value, paths: seq<Path>) {
    forall i :: 0 <= i < |paths| ==> !SharesBefore(rt, a, b, paths[i], |paths[i]|)
  }

  /** If the rows share no object that was made for them, the test is a test on the snapshots' leaves. */
  lemma FreshSkipTestIff(rt: Runtime, s: Value, t: Value, paths: seq<Path>)
    requires PrefixFree(paths) && Fresh(rt, Row(s, paths), Row(t, paths), paths)
    ensures FieldsEqual(rt, Row(s, paths), Row(t, paths)) <==>
            forall i :: 0 <= i < |paths| ==> ValuesEqual(rt, Resolve(s, paths[i]), Resolve(t, paths[i]))
  {
    SkipTestIff(rt, s, t, paths);
    RowFacts(s, paths);
    RowFacts(t, paths);
    hide RowFor, Covered, FieldsEqual, ValuesEqual, Resolve, PlainPath, SharesBefore;
    assert forall i :: 0 <= i < |paths| ==>
        (PathPasses(rt, Row(s, paths), Row(t, paths), paths[i]) <==>
         ValuesEqual(rt, Resolve(s, paths[i]), Resolve(t, paths[i])));
  }

  lemma PrefixFreeIsOrderly(paths: seq<Path>)
    requires PrefixFree(paths)
    ensures Orderly(paths)
  {
  }

  ghost predicate SameLeaves(s: Value, t: Value, paths: seq<Path>) {
    forall i :: 0 <= i < |paths| ==> Resolve(s, paths[i]) == Resolve(t, paths[i])
  }

  lemma {:induction false} SameLeavesSameRow(s: Value, t: Value, paths: seq<Path>)
    requires SameLeaves(s, t, paths)
    ensures RowFor(s, paths) == RowFor(t, paths)
  {
    if paths != [] { SameLeavesSameRow(s, t, paths[..|paths| - 1]); }
  }

  /** The test can tell the snapshots apart: if it passes at every path, their leaves are equal. */
  ghost predicate Distinguishable(rt: Runtime, s: Value, t: Value, paths: seq<Path>) {
    AllPathsPass(rt, Row(s, paths), Row(t, paths), paths) ==> SameLeaves(s, t, paths)
  }

  /** For prefix-free paths a row that passes the skip test is the row that would be written exactly if
      the test can tell the leaves of the two snapshots apart. */
  lemma SkipIsExactIff(rt: Runtime, s: Value, t: Value, paths: seq<Path>)
    requires PrefixFree(paths)
    ensures (FieldsEqual(rt, Row(s, paths), Row(t, paths)) ==> RowFor(s, paths) == RowFor(t, paths))
            <==> Distinguishable(rt, s, t, paths)
  {
    SkipTestIff(rt, s, t, paths);
    RowFacts(s, paths);
    RowFacts(t, paths);
    hide FieldsEqual, AllPathsPass, Covered, RowFor, Resolve, PlainPath;
    if SameLeaves(s, t, paths) { SameLeavesSameRow(s, t, paths); }
  }

  // ----- leaves that the test can tell apart

  /** Two values that are no objects both; two dates with nothing attached; or two objects of the same
      class, the first without `undefined` properties, that have values of the same form wherever they
      have the same property. */
  predicate SameForm(v: Value, w: Value)
    decreases v
  {
    v.Object? && w.Object? ==>
      if v.cls.Date? then w.cls.Date? && v.props == map[] && w.props == map[]
      else
        && v.cls == w.cls && (v.cls != Plain ==> "length" !in v.props)
        && forall key :: key in v.props ==>
             v.props[key] != Undefined && (key in w.props ==> SameForm(v.props[key], w.props[key]))
  }

  /** Values of the same form that pass the test are equal. */
  lemma {:induction false} SameFormPassesIfEqual(rt: Runtime, v: Value, w: Value)
    requires SameObjectSameValue(rt) && SameForm(v, w) && ValuesEqual(rt, v, w)
    ensures v == w
    decreases v
  {
    if v.Object? && w.Object? && !rt.sameObject(v, w) && !v.cls.Date? {
      forall key | key in v.props ensures key in w.props && v.props[key] == w.props[key] {
        assert ValuesEqual(rt, v.props[key], Property(w, key));
        if key !in w.props { OnlyUndefinedPasses(rt, v.props[key]); }
        SameFormPassesIfEqual(rt, v.props[key], w.props[key]);
      }
      SameSizeSameKeys(v.props, w.props);
    }
  }

  lemma OnlyUndefinedPasses(rt: Runtime, v: Value)
    ensures ValuesEqual(rt, v, Undefined) ==> v == Undefined
  {
  }

  lemma SameSizeSameKeys(p: Props, q: Props)
    requires |p| == |q| && forall key :: key in p ==> key in q && p[key] == q[key]
    ensures p == q
  {
    assert p.Keys <= q.Keys;
    SubsetOfSameSize(p.Keys, q.Keys);
  }

  lemma {:induction false} SubsetOfSameSize(a: set<string>, b: set<string>)
    requires a <= b && |a| == |b|
    ensures a == b
  {
    if a != b {
      var x :| x in b && x !in a;
      assert a <= b - {x};
      SmallerSubset(a, b - {x});
    }
  }

  lemma {:induction false} SmallerSubset(a: set<string>, b: set<string>)
    requires a <= b
    ensures |a| <= |b|
    decreases a
  {
    if a != {} {
      var x :| x in a;
      SmallerSubset(a - {x}, b - {x});
    }
  }

  ghost predicate SameForms(s: Value, t: Value, paths: seq<Path>) {
    forall i :: 0 <= i < |paths| ==> SameForm(Resolve(s, paths[i]), Resolve(t, paths[i]))
  }

  /** Leaves of the same form can always be told apart, whatever objects the rows share. */
  lemma SameFormsAreDistinguishable(rt: Runtime, s: Value, t: Value, paths: seq<Path>)
    requires SameObjectSameValue(rt) && PrefixFree(paths) && SameForms(s, t, paths)
    ensures Distinguishable(rt, s, t, paths)
  {
    RowFacts(s, paths);
    RowFacts(t, paths);
    hide SameObjectSameValue, RowFor, Covered, Resolve, PlainPath, PathPasses, SameForm;
    var a, b := Row(s, paths), Row(t, paths);
    if AllPathsPass(rt, a, b, paths) {
      forall i | 0 <= i < |paths| ensures Resolve(s, paths[i]) == Resolve(t, paths[i]) {
        assert PathPasses(rt, a, b, paths[i]);
        PassingPathEqualLeaf(rt, a, b, paths[i]);
      }
    }
  }

  lemma PassingPathEqualLeaf(rt: Runtime, a: Value, b: Value, path: seq<string>)
    requires SameObjectSameValue(rt) && PathPasses(rt, a, b, path) && SameForm(Resolve(a, path), Resolve(b, path))
    ensures Resolve(a, path) == Resolve(b, path)
  {
    hide Resolve, SameForm, ValuesEqual;
    if SharesBefore(rt, a, b, path, |path|) {
      var k: nat :| 0 < k < |path| && SharedAt(rt, a, b, path, k);
      assert Resolve(a, path[..k]) == Resolve(b, path[..k]);
      ResolveConcat(a, path[..k], path[k..]);
      ResolveConcat(b, path[..k], path[k..]);
      assert path == path[..k] + path[k..];
    } else {
      SameFormPassesIfEqual(rt, Resolve(a, path), Resolve(b, path));
    }
  }

  lemma ScalarsHaveSameForm(s: Value, t: Value, paths: seq<Path>)
    requires ScalarLeaves(s, paths) && ScalarLeaves(t, paths)
    ensures SameForms(s, t, paths)
  {
    hide Resolve;
  }

  /** With leaves of the same form, scalars and dates among them, the skip test never skips a row that
      differs. */
  lemma SkippedRowIsEqual(rt: Runtime, s: Value, t: Value, paths: seq<Path>)
    requires SameObjectSameValue(rt) && PrefixFree(paths)
    requires SameForms(s, t, paths) || (ScalarLeaves(s, paths) && ScalarLeaves(t, paths))
    requires FieldsEqual(rt, Row(s, paths), Row(t, paths))
    ensures RowFor(s, paths) == RowFor(t, paths)
  {
    hide FieldsEqual, RowFor, Distinguishable, SameForms, ScalarLeaves, PrefixFree;
    if !SameForms(s, t, paths) { ScalarsHaveSameForm(s, t, paths); }
    SameFormsAreDistinguishable(rt, s, t, paths);
    SkipIsExactIff(rt, s, t, paths);
  }

  /** Objects that differ and pass the test: a date and an empty object; objects of one property each,
      one of them holding nothing; an array and an object; two wrapped numbers. */
  lemma DifferentObjectsPass(rt: Runtime, time: Num, v: Value, key: string, other: string)
    requires key != other
    ensures ValuesEqual(rt, Object(Date(time), map[]), Object(Plain, map[]))
    ensures ValuesEqual(rt, Object(Plain, map[key := Undefined]), Object(Plain, map[other := v]))
    ensures ValuesEqual(rt, Object(Array(1), map["0" := Bool(true)]), Object(Plain, map["0" := Bool(true)]))
    ensures ValuesEqual(rt, Object(Boxed(v), map[]), Object(Boxed(Number(time)), map[]))
  {
    var a, b := Object(Plain, map[key := Undefined]), Object(Plain, map[other := v]);
    assert Property(b, key) == Undefined && FieldsEqual(rt, a, b);
    var c, d := Object(Array(1), map["0" := Bool(true)]), Object(Plain, map["0" := Bool(true)]);
    assert Property(d, "0") == Bool(true) && FieldsEqual(rt, c, d);
  }

  // ----- equal rows pass

  /** No number in the value is NaN, and no date in it is invalid. */
  predicate NoNaN(v: Value)
    decreases v
  {
    match v
    case Number(n) => n != NaN
    case Object(cls, props) => (cls.Date? ==> cls.time != NaN) && forall key :: key in props ==> NoNaN(props[key])
    case _ => true
  }

  /** A value without NaN passes against itself, whatever it is and however its objects are shared. */
  lemma {:induction false} EqualValuesPass(rt: Runtime, v: Value)
    requires NoNaN(v)
    ensures ValuesEqual(rt, v, v)
    ensures v.Object? ==> FieldsEqual(rt, v, v)
    decreases v
  {
    if v.Object? {
      forall key | key in v.props ensures ValuesEqual(rt, v.props[key], Property(v, key)) {
        EqualValuesPass(rt, v.props[key]);
      }
    }
  }

  lemma {:induction false} SetHasNoNaN(props: Props, path: seq<string>, value: Value)
    requires path != [] && NoNaN(Object(Plain, props)) && NoNaN(value)
    ensures NoNaN(Object(Plain, SetNested(props, path, value)))
    decreases |path|
  {
    if |path| > 1 {
      var was := if path[0] in props then props[path[0]] else Undefined;
      var inner := if was.Object? then was.props else map[];
      assert NoNaN(Object(Plain, inner));
      SetHasNoNaN(inner, path[1..], value);
      var below := SetNested(inner, path[1..], value);
      assert forall key :: key in below ==> NoNaN(Object(Plain, below).props[key]);
      assert NoNaN(Descend(was, path[1..], value));
    }
  }

  lemma {:induction false} RowHasNoNaN(snapshot: Value, paths: seq<Path>)
    requires forall i :: 0 <= i < |paths| ==> NoNaN(Resolve(snapshot, paths[i]))
    ensures NoNaN(Row(snapshot, paths))
  {
    if paths != [] {
      var rest := paths[..|paths| - 1];
      RowHasNoNaN(snapshot, rest);
      SetHasNoNaN(RowFor(snapshot, rest), paths[|paths| - 1], Resolve(snapshot, paths[|paths| - 1]));
    }
  }
}
