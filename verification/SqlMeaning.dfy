/** What the emitted WHERE text means under SQL's three-valued logic (SQL-92, section 8.12), compared
    with what the in-memory matcher decides. */
module SqlMeaning {
  import opened MongoQuery
  import opened SqlText
  import opened Translator

  /** `Undefined` stands for an error raised by the database and for the conversions between types
      that the comparison leaves out. */
  datatype Truth = Yes | No | Unknown | Undefined

  function Truly(b: bool): Truth {
    if b then Yes else No
  }

  function Not3(a: Truth): Truth {
    match a
    case Yes => No
    case No => Yes
    case _ => a
  }

  function And3(a: Truth, b: Truth): Truth {
    if a.Undefined? || b.Undefined? then Undefined
    else if a.No? || b.No? then No
    else if a.Yes? && b.Yes? then Yes
    else Unknown
  }

  function Or3(a: Truth, b: Truth): Truth {
    Not3(And3(Not3(a), Not3(b)))
  }

  // ---------- predicates ----------

  function Trimmed(segs: seq<string>): seq<string> {
    seq(|segs|, k requires 0 <= k < |segs| => TrimNewline(segs[k]))
  }

  /** The value a predicate reads; None is SQL's NULL. A real column holds the record's own field. */
  function Extract(r: Ref, row: Value): Option<Value> {
    match r
    case Column(name) => Walk(row, [name])
    case Data(segs) => Walk(row, Trimmed(segs))
    case ElemField(segs) => Walk(row, Trimmed(segs))
    case Elem => Some(row)
  }

  /** jsonb equality of a value and a scalar: numbers by value, everything else by type and value. */
  predicate JsonEq(v: Value, c: Value) {
    if IsNumber(v) && IsNumber(c) then NumberOf(v) == NumberOf(c) else v == c
  }

  function PgTypeof(v: Value): string {
    match v
    case Null => "null"
    case Bool(_) => "boolean"
    case Int(_) => "number"
    case Float(_) => "number"
    case Str(_) => "string"
    case List(_) => "array"
    case Dict(_) => "object"
  }

  function EvalCompare(rel: Rel, kind: Kind, v: Value, p: Param): Truth {
    if !p.Bound? then Undefined
    else if p.v.Null? then Unknown
    else
      match kind
      case BoolKind => if rel.REq? && p.v.Bool? then Truly(v == p.v) else Undefined
      case NumberKind =>
        if IsNumber(v) && IsNumber(p.v) then Truly(CompareReal(rel, NumberOf(v), NumberOf(p.v))) else Undefined
      case TextKind => if v.Str? && p.v.Str? then Truly(CompareStr(rel, v.s, p.v.s)) else Undefined
  }

  function EvalAny(kind: ArrayKind, v: Value, p: Param): Truth {
    if !p.Bound? || !p.v.List? then Undefined
    else
      match kind
      case TextArray => if v.Str? && AllStrings(p.v.items) then Truly(v in p.v.items) else Undefined
      case NumberArray =>
        if IsNumber(v) && AllNumbers(p.v.items)
        then Truly(exists k | 0 <= k < |p.v.items| :: NumberOf(p.v.items[k]) == NumberOf(v))
        else Undefined
      case JsonArray => Undefined
  }

  /** Every predicate but the null tests and the constants is unknown on NULL. */
  function EvalPred(p: Pred<Param>, row: Value): Truth {
    match p
    case IsNull(r) => Truly(Extract(r, row).None?)
    case NotNull(r) => Truly(Extract(r, row).Some?)
    case Constant(b) => Truly(b)
    case Compare(rel, kind, r, c) =>
      if Extract(r, row).None? then Unknown else EvalCompare(rel, kind, Extract(r, row).value, c)
    case AnyOf(kind, r, c) =>
      if Extract(r, row).None? then Unknown else EvalAny(kind, Extract(r, row).value, c)
    case RegexMatch(r, _, _) => if Extract(r, row).None? then Unknown else Undefined
    case Modulo(r, d, m) =>
      if Extract(r, row).None? then Unknown
      else
        var v := Extract(r, row).value;
        if IsNumber(v) && d.Bound? && m.Bound? && IsNumber(d.v) && IsNumber(m.v) && NumberOf(d.v) != 0.0
        then Truly(TruncMod(NumberOf(v), NumberOf(d.v)) == NumberOf(m.v))
        else Undefined
    case ArrayLength(r, n) =>
      if Extract(r, row).None? then Unknown
      else
        var v := Extract(r, row).value;
        if v.List? && n.Bound? && n.v.Int? then Truly(|v.items| == n.v.i) else Undefined
    case TypeOf(r, name) =>
      if Extract(r, row).None? then Unknown
      else if name.Bound? && name.v.Str? then Truly(PgTypeof(Extract(r, row).value) == name.v.s)
      else Undefined
    case Contains(r, c) =>
      if Extract(r, row).None? then Unknown
      else
        var v := Extract(r, row).value;
        if !(c.JsonText? && c.v.List? && |c.v.items| == 1) then Undefined
        else Truly(v.List? && exists k | 0 <= k < |v.items| :: JsonEq(v.items[k], c.v.items[0]))
  }

  // ---------- trees ----------

  function EvalConj(fs: seq<Factor>, row: Value): Truth
    decreases fs
  {
    if fs == [] then Yes else And3(EvalFactor(fs[0], row), EvalConj(fs[1..], row))
  }

  function EvalFactor(f: Factor, row: Value): Truth
    decreases f
  {
    if f.negated then Not3(EvalPrimary(f.prim, row)) else EvalPrimary(f.prim, row)
  }

  function EvalPrimary(p: Primary, row: Value): Truth
    decreases p
  {
    match p
    case Test(t) => EvalPred(t, row)
    case Paren(alts) => EvalAlts(alts, row)
    case ExistsElem(r, body) =>
      match Extract(r, row)
      case None => No
      case Some(v) =>
        if !v.List? then Undefined
        else if exists k | 0 <= k < |v.items| :: EvalConj(body.factors, v.items[k]).Undefined? then Undefined
        else Truly(exists k | 0 <= k < |v.items| :: EvalConj(body.factors, v.items[k]).Yes?)
  }

  function EvalAlts(alts: seq<Conj>, row: Value): Truth
    decreases alts
  {
    if alts == [] then No else Or3(EvalConj(alts[0].factors, row), EvalAlts(alts[1..], row))
  }

  lemma {:induction false} EvalConcat(a: seq<Factor>, b: seq<Factor>, row: Value)
    ensures EvalConj(a + b, row) == And3(EvalConj(a, row), EvalConj(b, row))
  {
    if a == [] {
      assert a + b == b;
    } else {
      assert (a + b)[1..] == a[1..] + b;
      EvalConcat(a[1..], b, row);
    }
  }

  lemma EvalOne(f: Factor, row: Value)
    ensures EvalConj([f], row) == EvalFactor(f, row)
  {
  }

  /** The value of one parenthesised conjunction, possibly negated. */
  lemma EvalGroup(negated: bool, fs: seq<Factor>, row: Value)
    ensures EvalConj([Factor(negated, Paren([Conj(fs)]))], row)
            == if negated then Not3(EvalConj(fs, row)) else EvalConj(fs, row)
  {
    EvalOne(Factor(negated, Paren([Conj(fs)])), row);
    var alts := [Conj(fs)];
    assert EvalAlts(alts, row) == Or3(EvalConj(fs, row), EvalAlts(alts[1..], row));
  }

  lemma EvalNullOrNot(r: Ref, p: Pred<Param>, row: Value)
    ensures EvalConj(NullOrNot(r, p), row) == Or3(Truly(Extract(r, row).None?), Not3(EvalPred(p, row)))
  {
    var alts := [Conj(Plainly(IsNull(r))), Conj([Factor(true, Paren([Conj(Plainly(p))]))])];
    EvalOne(Factor(false, Paren(alts)), row);
    EvalOne(Factor(false, Test(IsNull(r))), row);
    EvalOne(Factor(false, Test(p)), row);
    EvalGroup(true, Plainly(p), row);
    assert EvalAlts(alts, row) == Or3(EvalConj(alts[0].factors, row), EvalAlts(alts[1..], row));
    assert EvalAlts(alts[1..], row) == Or3(EvalConj(alts[1].factors, row), EvalAlts(alts[1..][1..], row));
  }

  // ---------- which documents a query is compared on ----------

  predicate SameType(v: Value, c: Value) {
    (v.Bool? && c.Bool?) || (IsNumber(v) && IsNumber(c)) || (v.Str? && c.Str?)
  }

  /** An explicit JSON null is excluded: the matcher takes it for a missing field, SQL does not. */
  predicate NotNullValue(x: Option<Value>) {
    x.Some? ==> !x.value.Null?
  }

  predicate TypedEq(x: Option<Value>, c: Value) {
    NotNullValue(x) && (x.Some? && !c.Null? ==> SameType(x.value, c))
  }

  /** The name of a queried field has no line break at the end of a segment, and the fields kept in
      text columns hold strings. */
  predicate TypedName(segs: seq<string>, x: Option<Value>) {
    Trimmed(segs) == segs && (FieldRef(segs).Column? && x.Some? ==> x.value.Str?)
  }

  predicate TypedQuery(row: Value, entries: seq<Entry>)
    decreases entries
  {
    if entries == [] then true else TypedEntry(row, entries[0]) && TypedQuery(row, entries[1..])
  }

  predicate TypedEntry(row: Value, e: Entry)
    decreases e
  {
    match e.key
    case Path(segs) => TypedName(segs, Walk(row, segs)) && TypedValue(Walk(row, segs), e.val)
    case Dollar(_) => (e.val.List? ==> TypedSubs(row, e.val.items)) && (e.val.Dict? ==> TypedQuery(row, e.val.entries))
  }

  predicate TypedSubs(row: Value, subs: seq<Value>)
    decreases subs
  {
    if subs == [] then true
    else (subs[0].Dict? ==> TypedQuery(row, subs[0].entries)) && TypedSubs(row, subs[1..])
  }

  predicate TypedValue(x: Option<Value>, cond: Value)
    decreases cond
  {
    if cond.Dict? then TypedOps(x, cond.entries) else TypedEq(x, cond)
  }

  predicate TypedOps(x: Option<Value>, ops: seq<Entry>)
    decreases ops
  {
    if ops == [] then true else TypedOp(x, ops[0]) && TypedOps(x, ops[1..])
  }

  predicate TypedOp(x: Option<Value>, e: Entry)
    decreases e
  {
    var c := e.val;
    && e.key.Dollar?
    && NotNullValue(x)
    && if IsComparator(e.key.op) then TypedEq(x, c)
       else
         match e.key.op
         case In => c.List? ==> TypedList(x, c.items)
         case Nin => c.List? ==> TypedList(x, c.items)
         case Exists => true
         case Mod => TypedMod(x, c)
         case Size => c.Int? && (x.Some? ==> x.value.List?)
         case Type => c.Str? && TypedTypeName(x, c.s)
         case All => c.List? && x.Some? && x.value.List? ==> NoBoolAsNumber(x.value.items, c.items)
         case ElemMatch =>
           c.Dict? && (x.Some? ==> x.value.List? && forall k | 0 <= k < |x.value.items| :: TypedElem(x.value.items[k], c.entries))
         case Not => c.Dict? ==> TypedOps(x, c.entries)
         case _ => false
  }

  /** The members of `$in` and `$nin` are all strings or all numbers, and so is the field. */
  predicate TypedList(x: Option<Value>, items: seq<Value>) {
    || items == []
    || (AllStrings(items) && (x.Some? ==> x.value.Str?))
    || (AllNumbers(items) && (x.Some? ==> IsNumber(x.value)))
  }

  /** The remainder is asked of a number whose quotient is non-negative or whole (`RemaindersAgree`). */
  predicate TypedMod(x: Option<Value>, c: Value) {
    c.List? && |c.items| == 2 && IsNumber(c.items[0]) && IsNumber(c.items[1]) && NumberOf(c.items[0]) != 0.0
    && (x.Some? ==>
          && IsNumber(x.value)
          && var q := NumberOf(x.value) / NumberOf(c.items[0]); q >= 0.0 || q == q.Floor as real)
  }

  /** Where the Python and the JSON meaning of a type name coincide. */
  predicate TypedTypeName(x: Option<Value>, name: string) {
    if name in {"string", "bool", "boolean", "object", "array"} then true
    else if name == "null" then x.Some?
    else if name in {"int", "long"} then x.Some? ==> !x.value.Float? && !x.value.Bool?
    else if name == "double" then x.Some? ==> !x.value.Int?
    else if name == "number" then x.Some? ==> !IsNumber(x.value)
    else false
  }

  /** Python counts True as 1, jsonb does not. */
  predicate NoBoolAsNumber(elems: seq<Value>, wanted: seq<Value>) {
    forall j, k | 0 <= j < |elems| && 0 <= k < |wanted| ::
      !(elems[j].Bool? && IsNumber(wanted[k])) && !(IsNumber(elems[j]) && wanted[k].Bool?)
  }

  /** The operand names fields of the elements: an element that is no record has none in SQL, and the one
      that the matcher gives it is not named. A null operand is excluded (`ElemNullExactIff`). */
  predicate TypedElem(elem: Value, entries: seq<Entry>)
    decreases entries
  {
    if entries == [] then true else TypedElemField(elem, entries[0]) && TypedElem(elem, entries[1..])
  }

  predicate TypedElemField(elem: Value, e: Entry)
    decreases e
  {
    && e.key.Path? && Trimmed(e.key.segs) == e.key.segs
    && (elem.Dict? || (e.key.segs != [] && e.key.segs[0] != "_"))
    && !e.val.Null?
    && TypedValue(Walk(elem, e.key.segs), e.val)
  }

  /** Every entry, sub-query, operator and sub-field counts; a list of none is typed. */
  lemma {:induction false} TypedThroughout(row: Value, entries: seq<Entry>)
    ensures TypedQuery(row, entries) <==> forall k | 0 <= k < |entries| :: TypedEntry(row, entries[k])
    ensures TypedElem(row, entries) <==> forall k | 0 <= k < |entries| :: TypedElemField(row, entries[k])
  {
    if entries != [] {
      TypedThroughout(row, entries[1..]);
      assert forall k | 1 <= k < |entries| :: entries[k] == entries[1..][k - 1];
    }
  }

  lemma {:induction false} TypedSubsThroughout(row: Value, subs: seq<Value>)
    ensures TypedSubs(row, subs) <==> forall k | 0 <= k < |subs| && subs[k].Dict? :: TypedQuery(row, subs[k].entries)
  {
    if subs != [] {
      TypedSubsThroughout(row, subs[1..]);
      assert forall k | 1 <= k < |subs| :: subs[k] == subs[1..][k - 1];
    }
  }

  lemma {:induction false} TypedOpsThroughout(x: Option<Value>, ops: seq<Entry>)
    ensures TypedOps(x, ops) <==> forall k | 0 <= k < |ops| :: TypedOp(x, ops[k])
  {
    if ops != [] {
      TypedOpsThroughout(x, ops[1..]);
      assert forall k | 1 <= k < |ops| :: ops[k] == ops[1..][k - 1];
    }
  }

  /** Comparing a string field with strings and a number field with numbers, counting a list field and
      asking for a field's presence or kind are typed, and so are they all on a missing field. */
  lemma TypedOperators(x: Option<Value>, e: Entry)
    requires e.key.Dollar? && NotNullValue(x)
    ensures e.key.op == Exists ==> TypedOp(x, e)
    ensures e.key.op == Size && e.val.Int? && (x.None? || x.value.List?) ==> TypedOp(x, e)
    ensures IsComparator(e.key.op) && e.val.Str? && (x.None? || x.value.Str?) ==> TypedOp(x, e)
    ensures IsComparator(e.key.op) && IsNumber(e.val) && (x.None? || IsNumber(x.value)) ==> TypedOp(x, e)
    ensures e.key.op in {In, Nin} && e.val.List? && AllStrings(e.val.items) && (x.None? || x.value.Str?) ==> TypedOp(x, e)
    ensures e.key.op == Type && e.val.Str? && e.val.s in {"string", "array", "object"} ==> TypedOp(x, e)
  {
  }

  lemma QuotientSign(a: real, b: real)
    requires (a >= 0.0 && b > 0.0) || (a <= 0.0 && b < 0.0)
    ensures a / b >= 0.0
  {
  }

  /** So is the remainder of a number by a divisor of its sign. */
  lemma TypedRemainder(n: int, d: int, r: int)
    requires (n >= 0 && d > 0) || (n <= 0 && d < 0)
    ensures TypedOp(Some(Int(n)), Entry(Dollar(Mod), List([Int(d), Int(r)])))
  {
    QuotientSign(n as real, d as real);
  }

  // ---------- Kleene logic ----------

  /** `t` is defined, true exactly when `lo` holds and false exactly when `hi` does not. */
  predicate Agrees(t: Truth, lo: bool, hi: bool) {
    !t.Undefined? && (t.Yes? <==> lo) && (t.No? <==> !hi)
  }

  // ---------- comparisons ----------

  const LO := Sql(false)
  const HI := Sql(true)

  lemma ComparatorMeaning(e: Entry, r: Ref, x: Option<Value>, row: Value)
    requires e.key.Dollar? && IsComparator(e.key.op) && Extract(r, row) == x && TypedEq(x, e.val)
    requires CompileComparator(e.key.op, e.val, r).Done?
    ensures Agrees(EvalConj(CompileComparator(e.key.op, e.val, r).value, row), MatchOp(x, e, LO), MatchOp(x, e, HI))
  {
    var op, c := e.key.op, e.val;
    EvalOne(Factor(false, Test(IsNull(r))), row);
    EvalOne(Factor(false, Test(NotNull(r))), row);
    EvalOne(Factor(false, Test(EqTest(r, c))), row);
    EvalNullOrNot(r, EqTest(r, c), row);
    if !c.Null? {
      if RelOf(op).Some? { EvalOne(Factor(false, Test(Compare(RelOf(op).value, KindOf(c), r, Bound(c)))), row); }
    }
  }

  lemma InMeaning(items: seq<Value>, r: Ref, x: Option<Value>, row: Value)
    requires Extract(r, row) == x && items != [] && NotNullValue(x) && TypedList(x, items)
    ensures Agrees(EvalPred(InTest(items, r), row), MatchIn(x, items, LO), MatchIn(x, items, HI))
    ensures x.Some? ==> EvalPred(InTest(items, r), row) == Truly(MatchIn(x, items, Plain))
  {
    if x.Some? {
      var v := x.value;
      if AllStrings(items) {
        assert items[0].Str?;
        assert v in items <==> exists k | 0 <= k < |items| :: PyEq(v, items[k]);
      } else {
        var fs := Floats(items);
        assert forall k | 0 <= k < |items| :: NumberOf(fs[k]) == NumberOf(items[k]);
        assert forall k | 0 <= k < |items| :: PyEq(v, items[k]) == (NumberOf(fs[k]) == NumberOf(v));
      }
    }
  }

  lemma ContainsMeaning(v: Value, r: Ref, x: Option<Value>, row: Value)
    requires Extract(r, row) == x && IsScalar(v) && NotNullValue(x)
    requires x.Some? && x.value.List? ==> NoBoolAsNumber(x.value.items, [v])
    ensures EvalFactor(Factor(false, Test(ContainsTest(v, r))), row)
            == if x.None? then Unknown else Truly(x.value.List? && Member(v, x.value.items))
  {
  }

  lemma {:induction false} AllMeaning(items: seq<Value>, r: Ref, x: Option<Value>, row: Value)
    requires Extract(r, row) == x && AllScalars(items) && items != [] && NotNullValue(x)
    requires x.Some? && x.value.List? ==> NoBoolAsNumber(x.value.items, items)
    ensures x.None? ==> EvalConj(ContainsTests(items, r), row) == Unknown
    ensures x.Some? ==> EvalConj(ContainsTests(items, r), row)
                        == Truly(x.value.List? && forall k | 0 <= k < |items| :: Member(items[k], x.value.items))
  {
    var test, rest := Factor(false, Test(ContainsTest(items[0], r))), items[1..];
    assert ContainsTests(items, r)[1..] == ContainsTests(rest, r);
    ContainsMeaning(items[0], r, x, row);
    if rest != [] {
      AllMeaning(rest, r, x, row);
      assert forall k | 0 <= k < |rest| :: rest[k] == items[k + 1];
      assert forall k | 0 < k < |items| :: items[k] == rest[k - 1];
    }
  }

  // ---------- $elemMatch ----------

  lemma {:induction false} ElemOpsMeaning(ops: seq<Entry>, segs: seq<string>, elem: Value)
    requires Trimmed(segs) == segs && TypedOps(Walk(elem, segs), ops)
    requires CompileElemOps(ops, ElemField(segs)).Done?
    ensures Agrees(EvalConj(CompileElemOps(ops, ElemField(segs)).value, elem),
                   MatchOps(Walk(elem, segs), ops, LO), MatchOps(Walk(elem, segs), ops, HI))
    ensures MatchOps(Walk(elem, segs), ops, LO) == MatchOps(Walk(elem, segs), ops, Plain)
    decreases ops
  {
    var r, x := ElemField(segs), Walk(elem, segs);
    if ops != [] {
      var first, rest := CompileElemOp(ops[0], r), CompileElemOps(ops[1..], r);
      ComparatorMeaning(ops[0], r, x, elem);
      ElemOpsMeaning(ops[1..], segs, elem);
      EvalConcat(first.value, rest.value, elem);
    }
  }

  /** A field of an element that is no record is missing on both sides. */
  lemma NoRecord(elem: Value, segs: seq<string>)
    requires elem.Dict? || (segs != [] && segs[0] != "_")
    ensures Walk(AsRecord(elem), segs) == Walk(elem, segs)
  {
    if !elem.Dict? {
      var fields := [Entry(Path(["_"]), elem)];
      assert fields[0].key.segs[0] != [segs[0]][0];
      assert Get(fields, Path([segs[0]])) == Get(fields[1..], Path([segs[0]]));
    }
  }

  lemma ElemFieldMeaning(e: Entry, elem: Value)
    requires TypedElemField(elem, e) && CompileElemField(e).Done?
    ensures !EvalConj(CompileElemField(e).value, elem).Undefined?
    ensures EvalConj(CompileElemField(e).value, elem).Yes? <==> MatchEntry(AsRecord(elem), e, Plain)
  {
    var segs := e.key.segs;
    var r, x := ElemField(segs), Walk(elem, segs);
    NoRecord(elem, segs);
    if e.val.Dict? {
      ElemOpsMeaning(e.val.entries, segs, elem);
    } else {
      EvalOne(Factor(false, Test(EqTest(r, e.val))), elem);
    }
  }

  lemma {:induction false} ElemMeaning(entries: seq<Entry>, elem: Value)
    requires TypedElem(elem, entries) && CompileElemFields(entries).Done?
    ensures !EvalConj(CompileElemFields(entries).value, elem).Undefined?
    ensures EvalConj(CompileElemFields(entries).value, elem).Yes? <==> MatchQuery(AsRecord(elem), entries, Plain)
    decreases entries
  {
    if entries != [] {
      ElemFieldMeaning(entries[0], elem);
      ElemMeaning(entries[1..], elem);
      EvalConcat(CompileElemField(entries[0]).value, CompileElemFields(entries[1..]).value, elem);
    }
  }

  lemma ElemMatchMeaning(c: Value, r: Ref, x: Option<Value>, row: Value)
    requires Extract(r, row) == x && c.Dict? && CompileElemMatch(c, r).Done?
    requires x.Some? ==> x.value.List? && forall k | 0 <= k < |x.value.items| :: TypedElem(x.value.items[k], c.entries)
    ensures EvalConj(CompileElemMatch(c, r).value, row)
            == Truly(x.Some? && exists k | 0 <= k < |x.value.items| :: MatchElem(x.value.items[k], c))
  {
    var fs := CompileElemFields(c.entries).value;
    EvalOne(Factor(false, ExistsElem(r, Conj(fs))), row);
    if x.Some? {
      forall k | 0 <= k < |x.value.items|
        ensures !EvalConj(fs, x.value.items[k]).Undefined?
        ensures EvalConj(fs, x.value.items[k]).Yes? <==> MatchElem(x.value.items[k], c)
      {
        ElemMeaning(c.entries, x.value.items[k]);
      }
    }
  }

  // ---------- fields ----------

  lemma FieldRefReads(segs: seq<string>, row: Value)
    requires Trimmed(segs) == segs
    ensures Extract(FieldRef(segs), row) == Walk(row, segs)
  {
    if FieldRef(segs).Column? { assert segs == [segs[0]]; }
  }

  lemma ModMeaning(e: Entry, r: Ref, x: Option<Value>, row: Value)
    requires Extract(r, row) == x && e.key == Dollar(Mod) && NotNullValue(x) && TypedMod(x, e.val)
    requires CompileMod(e.val, r).Done?
    ensures Agrees(EvalConj(CompileMod(e.val, r).value, row), MatchOp(x, e, LO), MatchOp(x, e, HI))
  {
    EvalOne(CompileMod(e.val, r).value[0], row);
    if x.Some? { RemaindersAgree(NumberOf(x.value), NumberOf(e.val.items[0])); }
  }

  lemma SizeMeaning(e: Entry, r: Ref, x: Option<Value>, row: Value)
    requires Extract(r, row) == x && e.key == Dollar(Size) && e.val.Int? && (x.Some? ==> x.value.List?)
    ensures Agrees(EvalConj(CompileSize(e.val, r).value, row), MatchOp(x, e, LO), MatchOp(x, e, HI))
  {
    EvalOne(Factor(false, Test(ArrayLength(r, Bound(e.val)))), row);
  }

  lemma TypeOpMeaning(e: Entry, r: Ref, x: Option<Value>, row: Value)
    requires Extract(r, row) == x && e.key == Dollar(Type) && NotNullValue(x)
    requires e.val.Str? && TypedTypeName(x, e.val.s) && CompileType(e.val, r).Done?
    ensures Agrees(EvalConj(CompileType(e.val, r).value, row), MatchOp(x, e, LO), MatchOp(x, e, HI))
  {
    EvalOne(CompileType(e.val, r).value[0], row);
  }

  lemma ExistsMeaning(e: Entry, r: Ref, x: Option<Value>, row: Value)
    requires Extract(r, row) == x && e.key == Dollar(Exists) && NotNullValue(x)
    ensures Agrees(EvalConj(Plainly(if Truthy(e.val) then NotNull(r) else IsNull(r)), row),
                   MatchOp(x, e, LO), MatchOp(x, e, HI))
  {
    EvalOne(Factor(false, Test(if Truthy(e.val) then NotNull(r) else IsNull(r))), row);
  }

  lemma AllOpMeaning(e: Entry, r: Ref, x: Option<Value>, row: Value)
    requires Extract(r, row) == x && e.key == Dollar(All) && NotNullValue(x) && CompileAll(e.val, r).Done?
    requires x.Some? && x.value.List? ==> NoBoolAsNumber(x.value.items, e.val.items)
    ensures Agrees(EvalConj(CompileAll(e.val, r).value, row), MatchOp(x, e, LO), MatchOp(x, e, HI))
  {
    AllMeaning(e.val.items, r, x, row);
    EvalGroup(false, ContainsTests(e.val.items, r), row);
  }

  lemma OpMeaning(segs: seq<string>, all: seq<Entry>, e: Entry, row: Value)
    requires SafeFieldPath(segs) && Trimmed(segs) == segs && TypedOp(Walk(row, segs), e)
    requires CompileOp(segs, all, e).Done?
    ensures Agrees(EvalConj(CompileOp(segs, all, e).value, row),
                   MatchOp(Walk(row, segs), e, LO), MatchOp(Walk(row, segs), e, HI))
    decreases e, 1
  {
    var r, x := FieldRef(segs), Walk(row, segs);
    FieldRefReads(segs, row);
    if IsComparator(e.key.op) {
      ComparatorMeaning(e, r, x, row);
    } else {
      match e.key.op {
        case In => InOpMeaning(e.val, r, x, row, false);
        case Nin => InOpMeaning(e.val, r, x, row, true);
        case Exists => ExistsMeaning(e, r, x, row);
        case Mod => ModMeaning(e, r, x, row);
        case Size => SizeMeaning(e, r, x, row);
        case Type => TypeOpMeaning(e, r, x, row);
        case ElemMatch => ElemMatchMeaning(e.val, r, x, row);
        case All => AllOpMeaning(e, r, x, row);
        case Not => NotMeaning(segs, e, row);
      }
    }
  }

  lemma NotMeaning(segs: seq<string>, e: Entry, row: Value)
    requires SafeFieldPath(segs) && Trimmed(segs) == segs && TypedOp(Walk(row, segs), e)
    requires e.key == Dollar(Not) && CompileNot(segs, e.val).Done?
    ensures Agrees(EvalConj(CompileNot(segs, e.val).value, row),
                   MatchOp(Walk(row, segs), e, LO), MatchOp(Walk(row, segs), e, HI))
    decreases e, 0
  {
    var ops := e.val.entries;
    assert CompileField(segs, e.val).Done?;
    FieldOpsMeaning(segs, ops, ops, row);
    EvalGroup(true, CompileOps(segs, ops, ops).value, row);
  }

  lemma InOpMeaning(c: Value, r: Ref, x: Option<Value>, row: Value, negate: bool)
    requires Extract(r, row) == x && NotNullValue(x) && (c.List? ==> TypedList(x, c.items))
    requires CompileIn(c, r, negate).Done?
    ensures var t := EvalConj(CompileIn(c, r, negate).value, row);
            if negate then t == Truly(!MatchIn(x, c.items, Plain))
            else Agrees(t, MatchIn(x, c.items, LO), MatchIn(x, c.items, HI))
  {
    if c.items == [] {
      EvalOne(Factor(false, Test(Constant(negate))), row);
    } else {
      InMeaning(c.items, r, x, row);
      EvalNullOrNot(r, InTest(c.items, r), row);
      EvalOne(Factor(false, Test(InTest(c.items, r))), row);
    }
  }

  lemma {:induction false} FieldOpsMeaning(segs: seq<string>, all: seq<Entry>, ops: seq<Entry>, row: Value)
    requires SafeFieldPath(segs) && Trimmed(segs) == segs && TypedOps(Walk(row, segs), ops)
    requires CompileOps(segs, all, ops).Done?
    ensures Agrees(EvalConj(CompileOps(segs, all, ops).value, row),
                   MatchOps(Walk(row, segs), ops, LO), MatchOps(Walk(row, segs), ops, HI))
    decreases ops, 2
  {
    if ops != [] {
      OpMeaning(segs, all, ops[0], row);
      FieldOpsMeaning(segs, all, ops[1..], row);
      EvalConcat(CompileOp(segs, all, ops[0]).value, CompileOps(segs, all, ops[1..]).value, row);
    }
  }

  lemma FieldMeaning(segs: seq<string>, cond: Value, row: Value)
    requires TypedName(segs, Walk(row, segs)) && TypedValue(Walk(row, segs), cond)
    requires CompileField(segs, cond).Done?
    ensures Agrees(EvalConj(CompileField(segs, cond).value, row),
                   MatchValue(Walk(row, segs), cond, LO), MatchValue(Walk(row, segs), cond, HI))
  {
    var r := FieldRef(segs);
    FieldRefReads(segs, row);
    if cond.Dict? {
      FieldOpsMeaning(segs, cond.entries, cond.entries, row);
    } else {
      EvalOne(Factor(false, Test(IsNull(r))), row);
      EvalOne(Factor(false, Test(EqTest(r, cond))), row);
    }
  }

  // ---------- queries ----------

  lemma {:induction false} QueryMeaning(entries: seq<Entry>, row: Value)
    requires TypedQuery(row, entries) && CompileQuery(entries).Done?
    ensures Agrees(EvalConj(CompileQuery(entries).value, row),
                   MatchQuery(row, entries, LO), MatchQuery(row, entries, HI))
    decreases entries
  {
    if entries != [] {
      EntryMeaning(entries[0], row);
      QueryMeaning(entries[1..], row);
      EvalConcat(CompileEntry(entries[0]).value, CompileQuery(entries[1..]).value, row);
    }
  }

  lemma EntryMeaning(e: Entry, row: Value)
    requires TypedEntry(row, e) && CompileEntry(e).Done?
    ensures Agrees(EvalConj(CompileEntry(e).value, row), MatchEntry(row, e, LO), MatchEntry(row, e, HI))
    decreases e
  {
    if e.key.Path? {
      FieldMeaning(e.key.segs, e.val, row);
    } else if !Ignored(e.key) {
      if e.key.op.Not? {
        QueryMeaning(e.val.entries, row);
        EvalGroup(true, CompileQuery(e.val.entries).value, row);
      } else {
        var ws := CompileSubs(e.val.items).value;
        SubsMeaning(e.val.items, row);
        CombineMeaning(e.key.op, ws, row);
      }
    }
  }

  lemma CombineMeaning(op: Op, ws: seq<Factor>, row: Value)
    requires op.And? || op.Or? || op.Nor?
    ensures EvalConj(Combine(op, ws), row) ==
            if op.And? then EvalConj(ws, row)
            else if op.Or? then EvalAlts(Alternatives(ws), row)
            else Not3(EvalAlts(Alternatives(ws), row))
  {
    var alts := Alternatives(ws);
    EvalGroup(false, ws, row);
    EvalOne(Factor(false, Paren(alts)), row);
    EvalOne(Factor(true, Paren(alts)), row);
    EvalGroup(false, [Factor(true, Paren(alts))], row);
  }

  /** One more sub-query, its group first. */
  lemma SubMeaning(sub: Value, rest: seq<Factor>, row: Value)
    requires sub.Dict? && CompileQuery(sub.entries).Done?
    ensures var t := EvalConj(CompileQuery(sub.entries).value, row);
            var ws := [Factor(false, Paren([Conj(CompileQuery(sub.entries).value)]))] + rest;
            && EvalConj(ws, row) == And3(t, EvalConj(rest, row))
            && EvalAlts(Alternatives(ws), row) == Or3(t, EvalAlts(Alternatives(rest), row))
  {
    var fs := CompileQuery(sub.entries).value;
    var w := Factor(false, Paren([Conj(fs)]));
    EvalGroup(false, fs, row);
    EvalOne(w, row);
    assert ([w] + rest)[1..] == rest;
    assert Alternatives([w] + rest)[1..] == Alternatives(rest);
  }

  lemma {:induction false} SubsMeaning(subs: seq<Value>, row: Value)
    requires TypedSubs(row, subs) && CompileSubs(subs).Done?
    ensures Agrees(EvalConj(CompileSubs(subs).value, row), MatchAll(row, subs, LO), MatchAll(row, subs, HI))
    ensures Agrees(EvalAlts(Alternatives(CompileSubs(subs).value), row), MatchAny(row, subs, LO), MatchAny(row, subs, HI))
    decreases subs
  {
    if subs != [] {
      QueryMeaning(subs[0].entries, row);
      SubsMeaning(subs[1..], row);
      SubMeaning(subs[0], CompileSubs(subs[1..]).value, row);
    }
  }
}
