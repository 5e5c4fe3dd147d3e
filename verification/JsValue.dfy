/** The JavaScript values that index rows and filters hold, and the operators applied to them. */
module JsValue {
  import opened Collections

  /** A UTF-16 code unit, and a string of them. */
  type CodeUnit = x: int | 0 <= x <= 0xffff

  type Text = seq<CodeUnit>

  datatype Num = Finite(x: real) | NaN | PosInf | NegInf

  /** The class of an object; `Boxed` is a wrapper such as `new Number(5)`. */
  datatype Class = Plain | Array(length: nat) | Date(time: Num) | Boxed(primitive: Value)

  /** A value; an object is its class and its own properties. */
  datatype Value =
    | Undefined
    | Null
    | Bool(b: bool)
    | Number(n: Num)
    | BigInt(i: int)
    | Str(s: Text)
    | Object(cls: Class, props: map<string, Value>)

  /** A dotted path, split at its dots; it has at least one segment. */
  type Path = p: seq<string> | |p| > 0 witness [""]

  /** What the language runtime decides: numbers and big integers read from strings, ISO dates, the text of an object
      that is not a date, object identity, and which arrays are valid IndexedDB keys. */
  datatype Runtime = Runtime(
    toNumber: Text -> Num,
    toBigInt: Text -> Option<int>,
    isoTime: Text -> Option<real>,
    objectText: Value -> Text,
    sameObject: (Value, Value) -> bool,
    arrayIsKey: Value -> bool)

  /** A plain object reads as no number: its text is "[object Object]". */
  ghost predicate Sane(rt: Runtime) {
    forall props :: rt.toNumber(rt.objectText(Object(Plain, props))) == NaN
  }

  function Property(v: Value, name: string): Value
    requires v.Object?
  {
    if name in v.props then v.props[name]
    else if v.cls.Array? && name == "length" then Number(Finite(v.cls.length as real))
    else if v.cls.Boxed? && v.cls.primitive.Str? && name == "length" then Number(Finite(|v.cls.primitive.s| as real))
    else Undefined
  }

  /** `extractField` and `_resolveFieldPath`: anything missing on the way is `undefined`. */
  function Resolve(v: Value, path: seq<string>): Value
    decreases |path|
  {
    if path == [] then v
    else if !v.Object? then Undefined
    else Resolve(Property(v, path[0]), path[1..])
  }

  /** The loop of `extractField`. */
  method ExtractField(v: Value, path: seq<string>) returns (r: Value)
    ensures r == Resolve(v, path)
  {
    r := v;
    for i := 0 to |path|
      invariant Resolve(v, path) == Resolve(r, path[i..])
    {
      assert path[i..][1..] == path[i + 1..];
      if !r.Object? { return Undefined; }
      r := Property(r, path[i]);
    }
  }

  // ----- comparison

  /** `===`. */
  predicate StrictEqual(rt: Runtime, a: Value, b: Value) {
    match (a, b)
    case (Number(m), Number(n)) => m == n && m != NaN
    case (Object(_, _), Object(_, _)) => rt.sameObject(a, b)
    case _ => a == b
  }

  /** `Array.prototype.includes` compares like `===` but finds NaN. */
  predicate SameValueZero(rt: Runtime, a: Value, b: Value) {
    StrictEqual(rt, a, b) || (a == Number(NaN) && b == Number(NaN))
  }

  /** Code-unit order on strings, shorter first. */
  predicate TextLess(a: Text, b: Text) {
    b != [] && (a == [] || a[0] < b[0] || (a[0] == b[0] && TextLess(a[1..], b[1..])))
  }

  /** `a` comes before `b`: it is a shorter beginning of `b`, or smaller where they first differ. */
  ghost predicate Before(a: Text, b: Text) {
    (|a| < |b| && a <= b) || exists k :: SmallerAt(a, b, k)
  }

  predicate SmallerAt(a: Text, b: Text, k: int) {
    0 <= k < |a| && k < |b| && a[..k] == b[..k] && a[k] < b[k]
  }

  lemma {:induction false} TextLessIff(a: Text, b: Text)
    ensures TextLess(a, b) <==> Before(a, b)
  {
    if a != [] && b != [] {
      if a[0] == b[0] {
        TextLessIff(a[1..], b[1..]);
        BeforeCons(a, b);
      } else if a[0] < b[0] {
        assert SmallerAt(a, b, 0);
      } else {
        forall k ensures !SmallerAt(a, b, k) {
          if 0 < k <= |a| && k <= |b| { assert a[..k][0] != b[..k][0]; }
        }
      }
    }
  }

  lemma BeforeCons(a: Text, b: Text)
    requires a != [] && b != [] && a[0] == b[0]
    ensures Before(a, b) <==> Before(a[1..], b[1..])
  {
    var x, y := a[1..], b[1..];
    assert a == [a[0]] + x && b == [b[0]] + y;
    if k :| SmallerAt(a, b, k) {
      assert x[..k - 1] == a[..k][1..] && y[..k - 1] == b[..k][1..];
      assert SmallerAt(x, y, k - 1);
    }
    if k :| SmallerAt(x, y, k) {
      assert a[..k + 1] == [a[0]] + x[..k] && b[..k + 1] == [b[0]] + y[..k];
      assert SmallerAt(a, b, k + 1);
    }
  }

  lemma {:induction false} TextLessTransitive(a: Text, b: Text, c: Text)
    requires TextLess(a, b) && TextLess(b, c)
    ensures TextLess(a, c)
  {
    if a != [] && a[0] == b[0] && b[0] == c[0] { TextLessTransitive(a[1..], b[1..], c[1..]); }
  }

  /** Exactly one of less, equal and greater holds. */
  lemma {:induction false} TextTrichotomy(a: Text, b: Text)
    ensures !(TextLess(a, b) && TextLess(b, a)) && (TextLess(a, b) || TextLess(b, a) || a == b)
    ensures a == b ==> !TextLess(a, b)
  {
    if a != [] && b != [] && a[0] == b[0] {
      TextTrichotomy(a[1..], b[1..]);
      assert a == [a[0]] + a[1..] && b == [b[0]] + b[1..];
    }
  }

  predicate NumLess(a: Num, b: Num) {
    match (a, b)
    case (Finite(x), Finite(y)) => x < y
    case (NegInf, Finite(_)) => true
    case (NegInf, PosInf) => true
    case (Finite(_), PosInf) => true
    case _ => false
  }

  predicate NumAtMost(a: Num, b: Num) {
    a != NaN && b != NaN && !NumLess(b, a)
  }

  /** `_normalizeForComparison`: dates and ISO date strings become timestamps. */
  function Normalize(rt: Runtime, v: Value): Value {
    match v
    case Object(Date(t), _) => Number(t)
    case Str(s) => (var t := rt.isoTime(s); if t.Some? then Number(Finite(t.value)) else v)
    case _ => v
  }

  /** What a comparison makes of an object: the wrapped value, or its text. */
  function Primitive(rt: Runtime, v: Value): Value {
    match v
    case Object(Boxed(p), _) => if p.Object? then Str(rt.objectText(v)) else p
    case Object(_, _) => Str(rt.objectText(v))
    case _ => v
  }

  function ToNumber(rt: Runtime, v: Value): Num {
    match v
    case Undefined => NaN
    case Null => Finite(0.0)
    case Bool(b) => Finite(if b then 1.0 else 0.0)
    case Number(n) => n
    case BigInt(i) => Finite(i as real)
    case Str(s) => rt.toNumber(s)
    case Object(_, _) => rt.toNumber(rt.objectText(v))
  }

  /** `a < b` and `a <= b`: two strings by code units, a string beside a big integer as one too, or not at
      all, and anything else as numbers. */
  predicate JsLess(rt: Runtime, a: Value, b: Value) {
    match (Primitive(rt, a), Primitive(rt, b))
    case (Str(s), Str(t)) => TextLess(s, t)
    case (BigInt(i), Str(t)) => rt.toBigInt(t).Some? && i < rt.toBigInt(t).value
    case (Str(s), BigInt(j)) => rt.toBigInt(s).Some? && rt.toBigInt(s).value < j
    case (p, q) => NumLess(ToNumber(rt, p), ToNumber(rt, q))
  }

  predicate JsAtMost(rt: Runtime, a: Value, b: Value) {
    match (Primitive(rt, a), Primitive(rt, b))
    case (Str(s), Str(t)) => !TextLess(t, s)
    case (BigInt(i), Str(t)) => rt.toBigInt(t).Some? && i <= rt.toBigInt(t).value
    case (Str(s), BigInt(j)) => rt.toBigInt(s).Some? && rt.toBigInt(s).value <= j
    case (p, q) => NumAtMost(ToNumber(rt, p), ToNumber(rt, q))
  }

  predicate Comparable(v: Value) {
    v != Undefined && v != Null
  }

  predicate Occurs(part: Text, s: Text) {
    part <= s || (s != [] && Occurs(part, s[1..]))
  }

  lemma {:induction false} OccursIff(part: Text, s: Text)
    ensures Occurs(part, s) <==> exists i :: 0 <= i <= |s| && part <= s[i..]
  {
    assert s[0..] == s;
    if !(part <= s) && s != [] {
      OccursIff(part, s[1..]);
      if i :| 0 <= i <= |s[1..]| && part <= s[1..][i..] { assert s[i + 1..] == s[1..][i..]; }
      if i :| 0 <= i <= |s| && part <= s[i..] { assert i > 0 && s[1..][i - 1..] == s[i..]; }
    }
  }

  /** What a path reads: its last segment of what the rest reads. An object gives its own property, an array
      or a wrapped string its length, and anything else nothing. */
  lemma {:induction false} ResolveReads(v: Value, path: seq<string>, name: string)
    ensures Resolve(v, []) == v
    ensures var at := Resolve(v, path);
            Resolve(v, path + [name]) ==
            match at
            case Object(cls, props) =>
              if name in props then props[name]
              else if name == "length" && cls.Array? then Number(Finite(cls.length as real))
              else if name == "length" && cls.Boxed? && cls.primitive.Str? then
                Number(Finite(|cls.primitive.s| as real))
              else Undefined
            case _ => Undefined
    decreases |path|
  {
    var longer := path + [name];
    if path == [] {
      assert longer == [name] && [name][1..] == [];
      if v.Object? { assert Resolve(v, [name]) == Resolve(Property(v, name), [name][1..]); }
    } else {
      assert longer[0] == path[0] && longer[1..] == path[1..] + [name];
      if v.Object? { ResolveReads(Property(v, path[0]), path[1..], name); }
    }
  }
}
