/**
 What the filters of a query mean (`_matchesFilter` in memory-index-storage.ts and idb-index-storage.ts),
 operator by operator, in terms of numbers, times and texts.
 */
module FilterMeaning {
  import opened Collections
  import opened JsValue
  import opened IndexQuery

  /** Finite numbers compare as numbers. */
  lemma NumberFilters(rt: Runtime, m: real, n: real)
    ensures var v, w := Number(Finite(m)), Number(Finite(n));
            && (Satisfies(rt, v, Lt(w)) <==> m < n)
            && (Satisfies(rt, v, Lte(w)) <==> m <= n)
            && (Satisfies(rt, v, Gt(w)) <==> m > n)
            && (Satisfies(rt, v, Gte(w)) <==> m >= n)
            && (Satisfies(rt, v, Eq(w)) <==> m == n)
  {
  }

  /** The time a value stands for: a date's own, or that of an ISO date string. */
  function TimeOf(rt: Runtime, v: Value): Option<real> {
    match v
    case Object(Date(Finite(t)), _) => Some(t)
    case Str(s) => rt.isoTime(s)
    case _ => None
  }

  /** Dates and ISO date strings compare by their times, with each other and with numbers. */
  lemma TimeFilters(rt: Runtime, v: Value, w: Value)
    requires TimeOf(rt, v).Some?
    requires TimeOf(rt, w).Some? || (w.Number? && w.n.Finite?)
    ensures var t := TimeOf(rt, v).value;
            var u := if w.Number? then w.n.x else TimeOf(rt, w).value;
            && (Satisfies(rt, v, Lt(w)) <==> t < u)
            && (Satisfies(rt, v, Lte(w)) <==> t <= u)
            && (Satisfies(rt, v, Gt(w)) <==> t > u)
            && (Satisfies(rt, v, Gte(w)) <==> t >= u)
  {
  }

  /** Strings that are no ISO dates compare by code units. */
  lemma TextFilters(rt: Runtime, s: Text, t: Text)
    requires rt.isoTime(s).None? && rt.isoTime(t).None?
    ensures var v, w := Str(s), Str(t);
            && (Satisfies(rt, v, Lt(w)) <==> Before(s, t))
            && (Satisfies(rt, v, Lte(w)) <==> Before(s, t) || s == t)
            && (Satisfies(rt, v, Gt(w)) <==> Before(t, s))
            && (Satisfies(rt, v, Gte(w)) <==> Before(t, s) || s == t)
  {
    hide Before, TextLess;
    TextLessIff(s, t);
    TextLessIff(t, s);
    TextTrichotomy(s, t);
  }

  /** Strings are equal, start and contain as texts do, ISO dates or not. */
  lemma TextTests(rt: Runtime, s: Text, t: Text)
    ensures Satisfies(rt, Str(s), Eq(Str(t))) <==> s == t
    ensures Satisfies(rt, Str(s), StartsWith(Str(t))) <==> |t| <= |s| && s[..|t|] == t
    ensures Satisfies(rt, Str(s), Contains(Str(t))) <==> exists i :: 0 <= i <= |s| && t <= s[i..]
  {
    OccursIff(t, s);
  }

  /** Other values neither start with nor contain anything. */
  lemma OnlyTextsHaveParts(rt: Runtime, v: Value, w: Value)
    requires !v.Str? || !w.Str?
    ensures !Satisfies(rt, v, StartsWith(w)) && !Satisfies(rt, v, Contains(w))
  {
  }

  /** Beside a number, a string that is no ISO date counts as the number it reads as, a boolean as 0 or 1, a
      big integer as its value; what reads as no number passes no comparison. */
  lemma MixedFilters(rt: Runtime, v: Value, n: real)
    requires v.Bool? || v.BigInt? || (v.Str? && rt.isoTime(v.s).None?) || v == Number(NaN)
    ensures var read := match v
                        case Bool(b) => Finite(if b then 1.0 else 0.0)
                        case BigInt(i) => Finite(i as real)
                        case Str(s) => rt.toNumber(s)
                        case _ => NaN;
            var w := Number(Finite(n));
            && (read.Finite? ==>
                  && (Satisfies(rt, v, Lt(w)) <==> read.x < n)
                  && (Satisfies(rt, v, Lte(w)) <==> read.x <= n)
                  && (Satisfies(rt, v, Gt(w)) <==> read.x > n)
                  && (Satisfies(rt, v, Gte(w)) <==> read.x >= n))
            && (read == NaN ==>
                  && !Satisfies(rt, v, Lt(w)) && !Satisfies(rt, v, Lte(w))
                  && !Satisfies(rt, v, Gt(w)) && !Satisfies(rt, v, Gte(w)))
  {
  }

  /** Beside a number, an array or a plain object counts as the number that its text reads as, so a plain object
      passes nothing, and a wrapper object as what it wraps. */
  lemma ObjectFilters(rt: Runtime, v: Value, n: real)
    requires Sane(rt) && v.Object? && !v.cls.Date?
    ensures var w := Number(Finite(n));
            && (v.cls.Plain? ==>
                  && !Satisfies(rt, v, Lt(w)) && !Satisfies(rt, v, Lte(w))
                  && !Satisfies(rt, v, Gt(w)) && !Satisfies(rt, v, Gte(w)))
            && (v.cls.Array? && rt.toNumber(rt.objectText(v)).Finite? ==>
                  var x := rt.toNumber(rt.objectText(v)).x;
                  && (Satisfies(rt, v, Lt(w)) <==> x < n) && (Satisfies(rt, v, Lte(w)) <==> x <= n)
                  && (Satisfies(rt, v, Gt(w)) <==> x > n) && (Satisfies(rt, v, Gte(w)) <==> x >= n))
            && (v.cls.Boxed? && v.cls.primitive.Number? && v.cls.primitive.n.Finite? ==>
                  var x := v.cls.primitive.n.x;
                  && (Satisfies(rt, v, Lt(w)) <==> x < n) && (Satisfies(rt, v, Lte(w)) <==> x <= n)
                  && (Satisfies(rt, v, Gt(w)) <==> x > n) && (Satisfies(rt, v, Gte(w)) <==> x >= n))
  {
    if v.cls.Plain? { assert rt.toNumber(rt.objectText(Object(Plain, v.props))) == NaN; }
  }

  /** A missing value or null passes no comparison, and nothing compares with a missing value or null. */
  lemma NothingCompares(rt: Runtime, v: Value, w: Value)
    requires v in {Undefined, Null} || w in {Undefined, Null}
    ensures !Satisfies(rt, v, Lt(w)) && !Satisfies(rt, v, Lte(w))
    ensures !Satisfies(rt, v, Gt(w)) && !Satisfies(rt, v, Gte(w))
  {
  }

  /** `neq` is the opposite of `eq`, `in` is `eq` with some listed value, except that it finds NaN, and an
      unknown operator passes nothing. */
  lemma ListFilters(rt: Runtime, v: Value, w: Value, ws: seq<Value>)
    ensures Satisfies(rt, v, Neq(w)) <==> !Satisfies(rt, v, Eq(w))
    ensures Satisfies(rt, v, OneOf(Some(ws))) <==>
            exists i :: 0 <= i < |ws| && (Satisfies(rt, ws[i], Eq(v)) || (ws[i] == Number(NaN) && v == Number(NaN)))
    ensures !Satisfies(rt, v, OneOf(None)) && !Satisfies(rt, v, UnknownOperator)
  {
    forall i | 0 <= i < |ws| ensures SameValueZero(rt, ws[i], v) <==>
        (Satisfies(rt, ws[i], Eq(v)) || (ws[i] == Number(NaN) && v == Number(NaN))) {
    }
  }

  /** `eq` on values that are no objects is being the same, NaN excepted; objects must be the same object. */
  lemma EqualFilter(rt: Runtime, v: Value, w: Value)
    ensures !(v.Object? && w.Object?) ==> (Satisfies(rt, v, Eq(w)) <==> v == w && v != Number(NaN))
    ensures v.Object? && w.Object? ==> (Satisfies(rt, v, Eq(w)) <==> rt.sameObject(v, w))
  {
  }

  // ----- whole queries

  /** What a comparison with a number asks of a number. */
  predicate Asks(cond: Condition, x: real, n: real) {
    match cond
    case Lt(_) => x < n
    case Lte(_) => x <= n
    case Gt(_) => x > n
    case Gte(_) => x >= n
    case Eq(_) => x == n
    case Neq(_) => x != n
    case _ => false
  }

  /** Where every record holds a finite number at the path, a numeric filter finds exactly the records whose
      number is as asked. */
  lemma NumericScan(rt: Runtime, store: Store, path: Path, cond: Condition, n: real)
    requires cond in [Lt(Number(Finite(n))), Lte(Number(Finite(n))), Gt(Number(Finite(n))), Gte(Number(Finite(n))),
                      Eq(Number(Finite(n))), Neq(Number(Finite(n)))]
    requires forall d :: d in store ==> Resolve(store[d], path).Number? && Resolve(store[d], path).n.Finite?
    ensures Scan(rt, store, [Filter(path, cond)]) == set d | d in store && Asks(cond, Resolve(store[d], path).n.x, n)
  {
    forall d | d in store
      ensures MatchesAll(rt, store[d], [Filter(path, cond)]) <==> Asks(cond, Resolve(store[d], path).n.x, n)
    {
      NumberFilters(rt, Resolve(store[d], path).n.x, n);
      assert MatchesAll(rt, store[d], [Filter(path, cond)]) <==> Matches(rt, store[d], [Filter(path, cond)][0]);
    }
  }

  /** So does the accelerated path, where there is one. */
  lemma NumericAccelerated(rt: Runtime, store: Store, path: Path, cond: Condition, n: real)
    requires Sane(rt) && cond in [Gt(Number(Finite(n))), Gte(Number(Finite(n))), Eq(Number(Finite(n)))]
    requires forall d :: d in store ==> Resolve(store[d], path).Number? && Resolve(store[d], path).n.Finite?
    ensures Acceleratable(cond)
    ensures Accelerated(rt, store, StrategyFor([Filter(path, cond)], 0)) ==
            set d | d in store && Asks(cond, Resolve(store[d], path).n.x, n)
  {
    var filters := [Filter(path, cond)];
    forall d | d in store ensures !LeftOut(rt, Resolve(store[d], path)) && !ReadsLength(store[d], path) {
      if ReadsLength(store[d], path) { LengthIsUndefined(store[d], path); }
    }
    IndexableNeverDiffers(rt, store, filters, 0);
    NumericScan(rt, store, path, cond, n);
  }

  /** A record passes a list of filters exactly if it passes each of them. */
  lemma ScanNarrows(rt: Runtime, store: Store, filters: seq<Filter>, f: Filter)
    ensures Scan(rt, store, filters + [f]) == Scan(rt, store, filters) * Scan(rt, store, [f])
    ensures Scan(rt, store, []) == store.Keys
  {
    forall d | d in store
      ensures MatchesAll(rt, store[d], filters + [f]) <==>
              MatchesAll(rt, store[d], filters) && MatchesAll(rt, store[d], [f])
    {
      var all := filters + [f];
      assert all[|filters|] == f && [f][0] == f && forall i :: 0 <= i < |filters| ==> all[i] == filters[i];
      if MatchesAll(rt, store[d], filters) && MatchesAll(rt, store[d], [f]) { assert Matches(rt, store[d], [f][0]); }
    }
  }

  /** What is looked up in an index: equality with a finite number or a string, `gt` and `gte` with a finite
      number, and prefixes. */
  lemma WhatIsAccelerated(n: real, s: Text, w: Value)
    ensures Acceleratable(Eq(Number(Finite(n)))) && Acceleratable(Eq(Str(s))) && Acceleratable(StartsWith(Str(s)))
    ensures Acceleratable(Gt(Number(Finite(n)))) && Acceleratable(Gte(Number(Finite(n))))
    ensures !Acceleratable(Lt(w)) && !Acceleratable(Lte(w)) && !Acceleratable(Neq(w)) && !Acceleratable(Contains(w))
    ensures w in [Number(NaN), Number(PosInf), Number(NegInf), Bool(true), Bool(false), Null, Undefined] ==>
              !Acceleratable(Eq(w)) && !Acceleratable(Gt(w)) && !Acceleratable(Gte(w)) && !Acceleratable(StartsWith(w))
  {
  }
}
