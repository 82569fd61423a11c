/** The translator of jvspatial/db/_postgres_translate.py: the tree a query denotes (`Compile...`,
    pure recursion over the query) and the methods that emit its text piece by piece while appending
    to a shared list of bound values (`Translate...`). */
module Translator {
  import opened MongoQuery
  import opened SqlText

  /** A translation, the signal to evaluate in memory instead, or the exception of a failed
      dictionary lookup. */
  datatype Outcome<+T> = Done(value: T) | FallBack | KeyError

  // ---------- field names ----------

  predicate IdentStart(c: char) {
    'A' <= c <= 'Z' || 'a' <= c <= 'z' || c == '_'
  }

  predicate IdentChar(c: char) {
    IdentStart(c) || '0' <= c <= '9'
  }

  /** A final line break is invisible to the pattern's `$` and to the reader of a path literal. */
  function TrimNewline(s: string): string {
    if s != "" && s[|s| - 1] == '\n' then s[..|s| - 1] else s
  }

  predicate SafeSegment(s: string) {
    var t := TrimNewline(s);
    t != "" && IdentStart(t[0]) && forall k | 0 <= k < |t| :: IdentChar(t[k])
  }

  predicate SafeFieldPath(segs: seq<string>) {
    segs != [] && forall k | 0 <= k < |segs| :: SafeSegment(segs[k])
  }

  const TOP_LEVEL_TEXT_COLUMNS: set<string> := {"entity", "id", "tenant_id"}

  function FieldRef(segs: seq<string>): Ref {
    if |segs| == 1 && segs[0] in TOP_LEVEL_TEXT_COLUMNS then Column(segs[0]) else Data(segs)
  }

  // ---------- the tree of one operator ----------

  function Plainly(p: Pred<Param>): seq<Factor> {
    [Factor(false, Test(p))]
  }

  /** `(r IS NULL OR NOT (p))` */
  function NullOrNot(r: Ref, p: Pred<Param>): seq<Factor> {
    [Factor(false, Paren([Conj(Plainly(IsNull(r))), Conj([Factor(true, Paren([Conj(Plainly(p))]))])]))]
  }

  function KindOf(c: Value): Kind {
    if c.Bool? then BoolKind else if IsNumber(c) then NumberKind else TextKind
  }

  function EqTest(r: Ref, c: Value): Pred<Param> {
    Compare(REq, KindOf(c), r, Bound(c))
  }

  function RelOf(op: Op): Option<Rel> {
    match op
    case Gt => Some(RGt)
    case Gte => Some(RGte)
    case Lt => Some(RLt)
    case Lte => Some(RLte)
    case _ => None
  }

  predicate IsComparator(op: Op) {
    op.Eq? || op.Ne? || RelOf(op).Some?
  }

  function CompileComparator(op: Op, c: Value, r: Ref): (o: Outcome<seq<Factor>>)
    ensures o.Done? ==> o.value != []
  {
    if !IsScalar(c) then FallBack
    else if !IsComparator(op) then KeyError
    else if c.Null? then
      if op.Eq? then Done(Plainly(IsNull(r)))
      else if op.Ne? then Done(Plainly(NotNull(r)))
      else FallBack
    else if op.Eq? then Done(Plainly(EqTest(r, c)))
    else if op.Ne? then Done(NullOrNot(r, EqTest(r, c)))
    else if c.Bool? then FallBack
    else Done(Plainly(Compare(RelOf(op).value, KindOf(c), r, Bound(c))))
  }

  predicate AllScalars(items: seq<Value>) {
    forall k | 0 <= k < |items| :: IsScalar(items[k])
  }

  predicate AllStrings(items: seq<Value>) {
    forall k | 0 <= k < |items| :: items[k].Str?
  }

  predicate AllNumbers(items: seq<Value>) {
    forall k | 0 <= k < |items| :: IsNumber(items[k])
  }

  function Floats(items: seq<Value>): seq<Value>
    requires AllNumbers(items)
  {
    seq(|items|, k requires 0 <= k < |items| => Float(NumberOf(items[k])))
  }

  function InTest(items: seq<Value>, r: Ref): Pred<Param> {
    if AllStrings(items) then AnyOf(TextArray, r, Bound(List(items)))
    else if AllNumbers(items) then
      AnyOf(NumberArray, r, Bound(List(Floats(items))))
    else AnyOf(JsonArray, r, JsonTexts(items))
  }

  function CompileIn(c: Value, r: Ref, negate: bool): (o: Outcome<seq<Factor>>)
    ensures o.Done? ==> o.value != []
  {
    if !c.List? || !AllScalars(c.items) then FallBack
    else if c.items == [] then Done(Plainly(Constant(negate)))
    else if negate then Done(NullOrNot(r, InTest(c.items, r)))
    else Done(Plainly(InTest(c.items, r)))
  }

  function RegexFlags(options: Option<Value>): string {
    if options.Some? && options.value.Str? then options.value.s else ""
  }

  /** Only the case-insensitivity flag has an SQL operator. */
  predicate OnlyIgnoreCase(flags: string) {
    forall k | 0 <= k < |flags| :: flags[k] == 'i'
  }

  function CompileRegex(pattern: Value, options: Option<Value>, r: Ref): (o: Outcome<seq<Factor>>)
    ensures o.Done? ==> o.value != []
  {
    var flags := RegexFlags(options);
    if !pattern.Str? || !OnlyIgnoreCase(flags) then FallBack
    else Done(Plainly(RegexMatch(r, flags != "", Bound(pattern))))
  }

  function CompileMod(c: Value, r: Ref): (o: Outcome<seq<Factor>>)
    ensures o.Done? ==> o.value != []
  {
    if c.List? && |c.items| == 2 && IsNumber(c.items[0]) && IsNumber(c.items[1]) then
      Done(Plainly(Modulo(r, Bound(Float(NumberOf(c.items[0]))), Bound(Float(NumberOf(c.items[1]))))))
    else FallBack
  }

  /** The jsonb_typeof name of an accepted `$type` operand. */
  function PgTypeName(name: string): Option<string> {
    if name == "string" then Some("string")
    else if name in {"number", "int", "double", "long"} then Some("number")
    else if name in {"bool", "boolean"} then Some("boolean")
    else if name == "object" then Some("object")
    else if name == "array" then Some("array")
    else if name == "null" then Some("null")
    else None
  }

  function CompileType(c: Value, r: Ref): (o: Outcome<seq<Factor>>)
    ensures o.Done? ==> o.value != []
  {
    if c.Str? && PgTypeName(c.s).Some? then Done(Plainly(TypeOf(r, Bound(Str(PgTypeName(c.s).value)))))
    else FallBack
  }

  function CompileSize(c: Value, r: Ref): (o: Outcome<seq<Factor>>)
    ensures o.Done? ==> o.value != []
  {
    if c.Int? || c.Bool? then Done(Plainly(ArrayLength(r, Bound(c)))) else FallBack
  }

  function ContainsTests(items: seq<Value>, r: Ref): (fs: seq<Factor>)
    ensures |fs| == |items|
  {
    if items == [] then []
    else Plainly(ContainsTest(items[0], r)) + ContainsTests(items[1..], r)
  }

  function CompileAll(c: Value, r: Ref): (o: Outcome<seq<Factor>>)
    ensures o.Done? ==> o.value != []
  {
    if !c.List? || c.items == [] || !AllScalars(c.items) then FallBack
    else Done([Factor(false, Paren([Conj(ContainsTests(c.items, r))]))])
  }

  // ---------- sequencing ----------

  /** Left to right, stopping at the first part that does not translate. */
  function Then(a: Outcome<seq<Factor>>, b: Outcome<seq<Factor>>): Outcome<seq<Factor>> {
    if !a.Done? then a else if !b.Done? then b else Done(a.value + b.value)
  }

  lemma ThenUnit(o: Outcome<seq<Factor>>)
    ensures Then(Done([]), o) == o
  {
    if o.Done? { assert [] + o.value == o.value; }
  }

  lemma ThenAssoc(a: seq<Factor>, b: seq<Factor>, o: Outcome<seq<Factor>>)
    ensures Then(Done(a), Then(Done(b), o)) == Then(Done(a + b), o)
  {
    if o.Done? { assert a + (b + o.value) == (a + b) + o.value; }
  }

  // ---------- the tree of $elemMatch ----------

  function CompileElemMatch(c: Value, r: Ref): (o: Outcome<seq<Factor>>)
    ensures o.Done? ==> o.value != []
  {
    if !c.Dict? then FallBack
    else
      match CompileElemFields(c.entries)
      case Done(fs) => if fs == [] then FallBack else Done([Factor(false, ExistsElem(r, Conj(fs)))])
      case other => other
  }

  function CompileElemFields(entries: seq<Entry>): Outcome<seq<Factor>> {
    if entries == [] then Done([])
    else Then(CompileElemField(entries[0]), CompileElemFields(entries[1..]))
  }

  function CompileElemField(e: Entry): (o: Outcome<seq<Factor>>)
    ensures o.Done? ==> o.value != []
  {
    match e.key
    case Dollar(op) => CompileComparator(op, e.val, Elem)
    case Path(segs) =>
      if !SafeFieldPath(segs) then FallBack
      else if e.val.Dict? then
        match CompileElemOps(e.val.entries, ElemField(segs))
        case Done(fs) => if fs == [] then FallBack else Done(fs)
        case other => other
      else if IsScalar(e.val) then Done(Plainly(EqTest(ElemField(segs), e.val)))
      else FallBack
  }

  function CompileElemOps(ops: seq<Entry>, r: Ref): Outcome<seq<Factor>> {
    if ops == [] then Done([])
    else Then(CompileElemOp(ops[0], r), CompileElemOps(ops[1..], r))
  }

  function CompileElemOp(e: Entry, r: Ref): (o: Outcome<seq<Factor>>)
    ensures o.Done? ==> o.value != []
  {
    if e.key.Dollar? && IsComparator(e.key.op) then CompileComparator(e.key.op, e.val, r) else FallBack
  }

  // ---------- the tree of a field clause ----------

  function CompileField(segs: seq<string>, cond: Value): (o: Outcome<seq<Factor>>)
    ensures o.Done? ==> o.value != []
    decreases cond, 0
  {
    if !SafeFieldPath(segs) then FallBack
    else if !cond.Dict? then
      if !IsScalar(cond) then FallBack
      else if cond.Null? then Done(Plainly(IsNull(FieldRef(segs))))
      else Done(Plainly(EqTest(FieldRef(segs), cond)))
    else
      match CompileOps(segs, cond.entries, cond.entries)
      case Done(fs) => if fs == [] then FallBack else Done(fs)
      case other => other
  }

  function CompileOps(segs: seq<string>, all: seq<Entry>, ops: seq<Entry>): Outcome<seq<Factor>>
    requires SafeFieldPath(segs)
    decreases ops
  {
    if ops == [] then Done([])
    else Then(CompileOp(segs, all, ops[0]), CompileOps(segs, all, ops[1..]))
  }

  /** One operator of a field's operator dictionary `all`. */
  function CompileOp(segs: seq<string>, all: seq<Entry>, e: Entry): (o: Outcome<seq<Factor>>)
    requires SafeFieldPath(segs)
    ensures o.Done? && e.key != Dollar(Options) ==> o.value != []
    decreases e
  {
    var r := FieldRef(segs);
    var c := e.val;
    if e.key.Path? then FallBack
    else if IsComparator(e.key.op) then CompileComparator(e.key.op, c, r)
    else
      match e.key.op
      case In => CompileIn(c, r, false)
      case Nin => CompileIn(c, r, true)
      case Exists => Done(Plainly(if Truthy(c) then NotNull(r) else IsNull(r)))
      case Regex => CompileRegex(c, Get(all, Dollar(Options)), r)
      case Options => if Get(all, Dollar(Regex)).Some? then Done([]) else FallBack
      case Mod => CompileMod(c, r)
      case Size => CompileSize(c, r)
      case Type => CompileType(c, r)
      case ElemMatch => CompileElemMatch(c, r)
      case All => CompileAll(c, r)
      case Not => CompileNot(segs, c)
      case _ => FallBack
  }

  function CompileNot(segs: seq<string>, c: Value): (o: Outcome<seq<Factor>>)
    requires SafeFieldPath(segs)
    ensures o.Done? ==> o.value != []
    decreases c, 1
  {
    if !c.Dict? then FallBack
    else
      match CompileField(segs, c)
      case Done(fs) => Done([Factor(true, Paren([Conj(fs)]))])
      case other => other
  }

  // ---------- the tree of a query ----------

  function CompileQuery(entries: seq<Entry>): Outcome<seq<Factor>>
    decreases entries
  {
    if entries == [] then Done([])
    else Then(CompileEntry(entries[0]), CompileQuery(entries[1..]))
  }

  predicate Ignored(k: Key) {
    k == Dollar(Hint) || k == Dollar(Select)
  }

  function CompileEntry(e: Entry): (o: Outcome<seq<Factor>>)
    ensures o.Done? && !Ignored(e.key) ==> o.value != []
    decreases e
  {
    match e.key
    case Path(segs) => CompileField(segs, e.val)
    case Dollar(op) =>
      if Ignored(e.key) then Done([])
      else if op.And? || op.Or? || op.Nor? then
        if !e.val.List? || e.val.items == [] then FallBack
        else
          match CompileSubs(e.val.items)
          case Done(ws) => Done(Combine(op, ws))
          case other => other
      else if op.Not? then
        if !e.val.Dict? then FallBack
        else
          match CompileQuery(e.val.entries)
          case Done(fs) => Done([Factor(true, Paren([Conj(fs)]))])
          case other => other
      else FallBack
  }

  /** One parenthesised factor for each sub-query. */
  function CompileSubs(subs: seq<Value>): (o: Outcome<seq<Factor>>)
    ensures o.Done? ==> |o.value| == |subs|
    decreases subs
  {
    if subs == [] then Done([])
    else Then(CompileSub(subs[0]), CompileSubs(subs[1..]))
  }

  function CompileSub(sub: Value): (o: Outcome<seq<Factor>>)
    ensures o.Done? ==> |o.value| == 1
    decreases sub
  {
    if !sub.Dict? then FallBack
    else
      match CompileQuery(sub.entries)
      case Done(fs) => Done([Factor(false, Paren([Conj(fs)]))])
      case other => other
  }

  function Alternatives(ws: seq<Factor>): (alts: seq<Conj>)
    ensures |alts| == |ws|
  {
    if ws == [] then [] else [Conj([ws[0]])] + Alternatives(ws[1..])
  }

  function Combine(op: Op, ws: seq<Factor>): seq<Factor> {
    if op.And? then [Factor(false, Paren([Conj(ws)]))]
    else if op.Or? then [Factor(false, Paren(Alternatives(ws)))]
    else [Factor(false, Paren([Conj([Factor(true, Paren(Alternatives(ws)))])]))]
  }

  // ---------- emitting text ----------

  /** The bound values, appended in place; `Add` hands out the number of the next placeholder. */
  class ParamBuilder {
    var params: seq<Param>

    constructor ()
      ensures params == []
    {
      params := [];
    }

    method Add(value: Param) returns (placeholder: nat)
      modifies this
      ensures params == old(params) + [value]
      ensures placeholder == |old(params)| + 1 && params[placeholder - 1] == value
    {
      params := params + [value];
      placeholder := |params|;
    }
  }

  /** Python's `sep.join(parts)`. */
  function Join(sep: Token, parts: seq<seq<Token>>): seq<Token> {
    if parts == [] then []
    else if |parts| == 1 then parts[0]
    else Join(sep, parts[..|parts| - 1]) + [sep] + parts[|parts| - 1]
  }

  /** The emitted text prints the specified tree and exactly its values were appended; when there is
      no translation nothing already bound was disturbed. */
  ghost predicate Emits(r: Outcome<seq<Token>>, spec: Outcome<seq<Factor>>, before: seq<Param>, after: seq<Param>) {
    match spec
    case Done(fs) => r == Done(Print(fs, |before|)) && after == before + Values(fs)
    case FallBack => r == FallBack && before <= after
    case KeyError => r == KeyError && before <= after
  }

  lemma JoinSnoc(sep: Token, parts: seq<seq<Token>>, part: seq<Token>)
    ensures Join(sep, parts + [part]) == if parts == [] then part else Join(sep, parts) + [sep] + part
  {
    assert (parts + [part])[..|parts|] == parts;
  }

  /** The fragments joined with AND are the text of a conjunction. */
  ghost predicate Joined(parts: seq<seq<Token>>, fs: seq<Factor>, n: nat) {
    Join(AndTok, parts) == Print(fs, n) && (parts == [] <==> fs == [])
  }

  /** One more fragment. */
  lemma JoinAnd(parts: seq<seq<Token>>, part: seq<Token>, done: seq<Factor>, fs: seq<Factor>, start: seq<Param>)
    requires Joined(parts, done, |start|) && fs != [] && part == Print(fs, |start + Values(done)|)
    ensures Joined(parts + [part], done + fs, |start|)
    ensures start + Values(done) + Values(fs) == start + Values(done + fs)
  {
    JoinedMore(parts, part, done, fs, |start|, |Values(done)|);
    ValuesMore(start, done, fs);
  }

  lemma ValuesMore(start: seq<Param>, done: seq<Factor>, fs: seq<Factor>)
    ensures start + Values(done) + Values(fs) == start + Values(done + fs)
  {
    ValuesConcat(done, fs);
  }

  lemma JoinedMore(parts: seq<seq<Token>>, part: seq<Token>, done: seq<Factor>, fs: seq<Factor>, n: nat, k: nat)
    requires Joined(parts, done, n) && fs != [] && k == |Values(done)| && part == Print(fs, n + k)
    ensures Joined(parts + [part], done + fs, n)
  {
    JoinSnoc(AndTok, parts, part);
    JoinedText(parts, part, done, fs, n, k);
  }

  lemma JoinedText(parts: seq<seq<Token>>, part: seq<Token>, done: seq<Factor>, fs: seq<Factor>, n: nat, k: nat)
    requires Joined(parts, done, n) && fs != [] && k == |Values(done)| && part == Print(fs, n + k)
    ensures (if parts == [] then part else Join(AndTok, parts) + [AndTok] + part) == Print(done + fs, n)
  {
    if done == [] {
      assert done + fs == fs;
    } else {
      PrintConcat(done, fs, n);
    }
  }

  /** One more part of a query translated, where the parts are taken from left to right. */
  lemma OneMore(parts: seq<seq<Token>>, part: seq<Token>, done: seq<Factor>, fs: seq<Factor>, start: seq<Param>, rest: Outcome<seq<Factor>>)
    requires Joined(parts, done, |start|) && fs != [] && part == Print(fs, |start + Values(done)|)
    ensures Joined(parts + [part], done + fs, |start|)
    ensures start + Values(done) + Values(fs) == start + Values(done + fs)
    ensures Then(Done(done), Then(Done(fs), rest)) == Then(Done(done + fs), rest)
  {
    JoinAnd(parts, part, done, fs, start);
    ThenAssoc(done, fs, rest);
  }

  lemma OneFactor(f: Factor, n: nat)
    ensures Print([f], n) == PrintFactor(f, n) && Values([f]) == FactorValues(f)
  {
    assert Values([f][1..]) == [];
  }

  lemma OneTest(p: Pred<Param>, n: nat)
    ensures Print(Plainly(p), n) == [PredTok(Number(p, n))] && Values(Plainly(p)) == PredValues(p)
  {
    OneFactor(Factor(false, Test(p)), n);
  }

  /** A conjunction in parentheses. */
  lemma OneGroup(negated: bool, fs: seq<Factor>, n: nat)
    ensures Print([Factor(negated, Paren([Conj(fs)]))], n)
            == (if negated then [NotTok, Open] else [Open]) + Print(fs, n) + [Close]
    ensures Values([Factor(negated, Paren([Conj(fs)]))]) == Values(fs)
  {
    var f := Factor(negated, Paren([Conj(fs)]));
    OneFactor(f, n);
    assert PrintAlts([Conj(fs)], n) == Print(fs, n);
    var inner := [Open] + Print(fs, n) + [Close];
    assert PrintFactor(f, n) == (if negated then [NotTok] else []) + inner;
    assert [NotTok] + inner == [NotTok, Open] + Print(fs, n) + [Close];
    assert AltValues([Conj(fs)]) == Values(fs) + AltValues([Conj(fs)][1..]);
  }

  method EmitEq(r: Ref, c: Value, pb: ParamBuilder) returns (t: Pred<nat>)
    modifies pb
    ensures t == Number(EqTest(r, c), |old(pb.params)|)
    ensures pb.params == old(pb.params) + [Bound(c)]
  {
    var ph := pb.Add(Bound(c));
    if c.Bool? {
      t := Compare(REq, BoolKind, r, ph);
    } else if IsNumber(c) {
      t := Compare(REq, NumberKind, r, ph);
    } else {
      t := Compare(REq, TextKind, r, ph);
    }
  }

  /** `(r IS NULL OR NOT (inner))` */
  function NullOrNotText(r: Ref, inner: Pred<nat>): seq<Token> {
    [Open, PredTok(IsNull(r)), OrTok, NotTok, Open, PredTok(inner), Close, Close]
  }

  lemma OneExists(r: Ref, fs: seq<Factor>, n: nat)
    ensures Print([Factor(false, ExistsElem(r, Conj(fs)))], n) == [ExistsWhere(r)] + Print(fs, n) + [Close]
    ensures Values([Factor(false, ExistsElem(r, Conj(fs)))]) == Values(fs)
  {
    OneFactor(Factor(false, ExistsElem(r, Conj(fs))), n);
  }

  lemma NullOrNotPrints(r: Ref, p: Pred<Param>, n: nat)
    ensures Print(NullOrNot(r, p), n) == NullOrNotText(r, Number(p, n))
    ensures Values(NullOrNot(r, p)) == PredValues(p)
  {
    var negated := Factor(true, Paren([Conj(Plainly(p))]));
    var alts := [Conj(Plainly(IsNull(r))), Conj([negated])];
    OneTest(p, n);
    OneTest(IsNull(r), n);
    OneGroup(true, Plainly(p), n);
    OneFactor(Factor(false, Paren(alts)), n);
    TwoAlternatives(Plainly(IsNull(r)), [negated], n);
  }

  lemma TwoAlternatives(a: seq<Factor>, b: seq<Factor>, n: nat)
    ensures PrintAlts([Conj(a), Conj(b)], n) == Print(a, n) + [OrTok] + Print(b, n + |Values(a)|)
    ensures AltValues([Conj(a), Conj(b)]) == Values(a) + Values(b)
  {
    var alts := [Conj(a), Conj(b)];
    assert alts[1..] == [Conj(b)] && alts[1..][1..] == [];
    assert AltValues(alts) == Values(a) + AltValues(alts[1..]);
  }

  method TranslateComparator(op: Op, c: Value, r: Ref, pb: ParamBuilder) returns (out: Outcome<seq<Token>>)
    modifies pb
    ensures Emits(out, CompileComparator(op, c, r), old(pb.params), pb.params)
  {
    if !IsScalar(c) {
      return FallBack;
    }
    if !IsComparator(op) {
      return KeyError;
    }
    ghost var n := |pb.params|;
    if c.Null? {
      OneTest(IsNull(r), n);
      OneTest(NotNull(r), n);
      return if op.Eq? then Done([PredTok(IsNull(r))])
             else if op.Ne? then Done([PredTok(NotNull(r))])
             else FallBack;
    }
    if op.Eq? {
      OneTest(EqTest(r, c), n);
      var eq := EmitEq(r, c, pb);
      return Done([PredTok(eq)]);
    }
    if op.Ne? {
      NullOrNotPrints(r, EqTest(r, c), n);
      var eq := EmitEq(r, c, pb);
      return Done(NullOrNotText(r, eq));
    }
    var ph := pb.Add(Bound(c));
    if c.Bool? {
      return FallBack;
    }
    OneTest(Compare(RelOf(op).value, KindOf(c), r, Bound(c)), n);
    if IsNumber(c) {
      return Done([PredTok(Compare(RelOf(op).value, NumberKind, r, ph))]);
    }
    return Done([PredTok(Compare(RelOf(op).value, TextKind, r, ph))]);
  }

  method EmitIn(items: seq<Value>, r: Ref, pb: ParamBuilder) returns (t: Pred<nat>)
    requires AllScalars(items)
    modifies pb
    ensures t == Number(InTest(items, r), |old(pb.params)|)
    ensures pb.params == old(pb.params) + PredValues(InTest(items, r))
  {
    if AllStrings(items) {
      var ph := pb.Add(Bound(List(items)));
      t := AnyOf(TextArray, r, ph);
    } else if AllNumbers(items) {
      var ph := pb.Add(Bound(List(Floats(items))));
      t := AnyOf(NumberArray, r, ph);
    } else {
      var ph := pb.Add(JsonTexts(items));
      t := AnyOf(JsonArray, r, ph);
    }
  }

  method TranslateIn(c: Value, r: Ref, negate: bool, pb: ParamBuilder) returns (out: Outcome<seq<Token>>)
    modifies pb
    ensures Emits(out, CompileIn(c, r, negate), old(pb.params), pb.params)
  {
    if !c.List? || !AllScalars(c.items) {
      return FallBack;
    }
    if c.items == [] {
      OneTest(Constant(negate), |pb.params|);
      return Done([PredTok(Constant(negate))]);
    }
    NullOrNotPrints(r, InTest(c.items, r), |pb.params|);
    OneTest(InTest(c.items, r), |pb.params|);
    var inner := EmitIn(c.items, r, pb);
    return Done(if negate then NullOrNotText(r, inner) else [PredTok(inner)]);
  }

  method TranslateRegex(pattern: Value, options: Option<Value>, r: Ref, pb: ParamBuilder)
    returns (out: Outcome<seq<Token>>)
    modifies pb
    ensures Emits(out, CompileRegex(pattern, options, r), old(pb.params), pb.params)
  {
    var flags := RegexFlags(options);
    if !pattern.Str? || !OnlyIgnoreCase(flags) {
      return FallBack;
    }
    OneTest(RegexMatch(r, flags != "", Bound(pattern)), |pb.params|);
    var ph := pb.Add(Bound(pattern));
    return Done([PredTok(RegexMatch(r, flags != "", ph))]);
  }

  lemma ModText(r: Ref, d: Param, m: Param, start: seq<Param>)
    ensures Print(Plainly(Modulo(r, d, m)), |start|) == [PredTok(Modulo(r, |start| + 1, |start| + 2))]
    ensures start + Values(Plainly(Modulo(r, d, m))) == start + [d] + [m]
  {
    OneTest(Modulo(r, d, m), |start|);
    assert start + [d, m] == start + [d] + [m];
  }

  method TranslateMod(c: Value, r: Ref, pb: ParamBuilder) returns (out: Outcome<seq<Token>>)
    modifies pb
    ensures Emits(out, CompileMod(c, r), old(pb.params), pb.params)
  {
    if !c.List? || |c.items| != 2 || !IsNumber(c.items[0]) || !IsNumber(c.items[1]) {
      return FallBack;
    }
    ModText(r, Bound(Float(NumberOf(c.items[0]))), Bound(Float(NumberOf(c.items[1]))), pb.params);
    var divisor := pb.Add(Bound(Float(NumberOf(c.items[0]))));
    var remainder := pb.Add(Bound(Float(NumberOf(c.items[1]))));
    return Done([PredTok(Modulo(r, divisor, remainder))]);
  }

  function ContainsTest(v: Value, r: Ref): Pred<Param> {
    Contains(r, JsonText(List([v])))
  }

  lemma {:induction false} ContainsTestsSnoc(items: seq<Value>, v: Value, r: Ref)
    ensures ContainsTests(items + [v], r) == ContainsTests(items, r) + Plainly(ContainsTest(v, r))
  {
    if items == [] {
      assert items + [v] == [v];
    } else {
      assert (items + [v])[1..] == items[1..] + [v];
      ContainsTestsSnoc(items[1..], v, r);
    }
  }

  /** One more single-predicate piece joined with AND. */
  lemma JoinTest(parts: seq<seq<Token>>, p: Pred<Param>, done: seq<Factor>, start: seq<Param>, now: seq<Param>)
    requires Joined(parts, done, |start|) && now == start + Values(done)
    ensures Joined(parts + [[PredTok(Number(p, |now|))]], done + Plainly(p), |start|)
    ensures now + PredValues(p) == start + Values(done + Plainly(p))
  {
    OneTest(p, |now|);
    JoinAnd(parts, [PredTok(Number(p, |now|))], done, Plainly(p), start);
  }

  /** The pieces for the first `n` items and what they bind. */
  ghost predicate ContainsSoFar(items: seq<Value>, n: nat, r: Ref, pieces: seq<seq<Token>>, start: seq<Param>, now: seq<Param>)
    requires n <= |items|
  {
    && Joined(pieces, ContainsTests(items[..n], r), |start|)
    && now == start + Values(ContainsTests(items[..n], r))
  }

  lemma ContainsOneMore(items: seq<Value>, n: nat, r: Ref, pieces: seq<seq<Token>>, start: seq<Param>, now: seq<Param>)
    requires n < |items| && ContainsSoFar(items, n, r, pieces, start, now)
    ensures var test := ContainsTest(items[n], r);
            ContainsSoFar(items, n + 1, r, pieces + [[PredTok(Number(test, |now|))]], start, now + PredValues(test))
  {
    var test := ContainsTest(items[n], r);
    JoinTest(pieces, test, ContainsTests(items[..n], r), start, now);
    ContainsTestsSnoc(items[..n], items[n], r);
    assert items[..n + 1] == items[..n] + [items[n]];
  }

  /** All items are taken. */
  lemma ContainsDone(items: seq<Value>, r: Ref, pieces: seq<seq<Token>>, start: seq<Param>, now: seq<Param>)
    requires ContainsSoFar(items, |items|, r, pieces, start, now)
    ensures Join(AndTok, pieces) == Print(ContainsTests(items, r), |start|) && now == start + Values(ContainsTests(items, r))
  {
    assert items[..|items|] == items;
  }

  method EmitContainment(v: Value, r: Ref, pb: ParamBuilder) returns (piece: seq<Token>)
    modifies pb
    ensures piece == [PredTok(Number(ContainsTest(v, r), |old(pb.params)|))]
    ensures pb.params == old(pb.params) + PredValues(ContainsTest(v, r))
  {
    var ph := pb.Add(JsonText(List([v])));
    piece := [PredTok(Contains(r, ph))];
  }

  method EmitContains(items: seq<Value>, r: Ref, pb: ParamBuilder) returns (out: Outcome<seq<Token>>)
    modifies pb
    ensures old(pb.params) <= pb.params
    ensures !AllScalars(items) ==> out == FallBack
    ensures AllScalars(items) ==> out == Done(Print(ContainsTests(items, r), |old(pb.params)|))
    ensures AllScalars(items) ==> pb.params == old(pb.params) + Values(ContainsTests(items, r))
  {
    var pieces: seq<seq<Token>> := [];
    for i := 0 to |items|
      invariant AllScalars(items[..i])
      invariant ContainsSoFar(items, i, r, pieces, old(pb.params), pb.params)
    {
      if !IsScalar(items[i]) {
        return FallBack;
      }
      ContainsOneMore(items, i, r, pieces, old(pb.params), pb.params);
      var piece := EmitContainment(items[i], r, pb);
      pieces := pieces + [piece];
    }
    ContainsDone(items, r, pieces, old(pb.params), pb.params);
    assert items[..|items|] == items;
    return Done(Join(AndTok, pieces));
  }

  method TranslateAll(c: Value, r: Ref, pb: ParamBuilder) returns (out: Outcome<seq<Token>>)
    modifies pb
    ensures Emits(out, CompileAll(c, r), old(pb.params), pb.params)
  {
    if !c.List? || c.items == [] {
      return FallBack;
    }
    OneGroup(false, ContainsTests(c.items, r), |pb.params|);
    var pieces := EmitContains(c.items, r, pb);
    if !pieces.Done? {
      return FallBack;
    }
    return Done([Open] + pieces.value + [Close]);
  }

  method TranslateElemMatch(c: Value, r: Ref, pb: ParamBuilder) returns (out: Outcome<seq<Token>>)
    modifies pb
    ensures Emits(out, CompileElemMatch(c, r), old(pb.params), pb.params)
  {
    if !c.Dict? {
      return FallBack;
    }
    ghost var start := pb.params;
    ghost var done: seq<Factor> := [];
    var pieces: seq<seq<Token>> := [];
    assert c.entries[0..] == c.entries;
    ThenUnit(CompileElemFields(c.entries));
    for i := 0 to |c.entries|
      invariant CompileElemFields(c.entries) == Then(Done(done), CompileElemFields(c.entries[i..]))
      invariant pb.params == start + Values(done)
      invariant Joined(pieces, done, |start|)
    {
      ghost var spec := CompileElemField(c.entries[i]);
      assert c.entries[i..][1..] == c.entries[i + 1..];
      var piece := TranslateElemField(c.entries[i], pb);
      if !piece.Done? {
        return piece;
      }
      OneMore(pieces, piece.value, done, spec.value, start, CompileElemFields(c.entries[i + 1..]));
      pieces, done := pieces + [piece.value], done + spec.value;
    }
    assert done + [] == done;
    if pieces == [] {
      return FallBack;
    }
    OneExists(r, done, |start|);
    return Done([ExistsWhere(r)] + Join(AndTok, pieces) + [Close]);
  }

  method TranslateElemField(e: Entry, pb: ParamBuilder) returns (out: Outcome<seq<Token>>)
    modifies pb
    ensures Emits(out, CompileElemField(e), old(pb.params), pb.params)
  {
    if e.key.Dollar? {
      out := TranslateComparator(e.key.op, e.val, Elem, pb);
      return;
    }
    var segs := e.key.segs;
    if !SafeFieldPath(segs) {
      return FallBack;
    }
    var r := ElemField(segs);
    if !e.val.Dict? {
      if !IsScalar(e.val) {
        return FallBack;
      }
      OneTest(EqTest(r, e.val), |pb.params|);
      var eq := EmitEq(r, e.val, pb);
      return Done([PredTok(eq)]);
    }
    var ops := e.val.entries;
    ghost var start := pb.params;
    ghost var done: seq<Factor> := [];
    var pieces: seq<seq<Token>> := [];
    assert ops[0..] == ops;
    ThenUnit(CompileElemOps(ops, r));
    for i := 0 to |ops|
      invariant CompileElemOps(ops, r) == Then(Done(done), CompileElemOps(ops[i..], r))
      invariant pb.params == start + Values(done)
      invariant Joined(pieces, done, |start|)
    {
      ghost var spec := CompileElemOp(ops[i], r);
      assert ops[i..][1..] == ops[i + 1..];
      if !ops[i].key.Dollar? || !IsComparator(ops[i].key.op) {
        return FallBack;
      }
      var piece := TranslateComparator(ops[i].key.op, ops[i].val, r, pb);
      if !piece.Done? {
        return piece;
      }
      OneMore(pieces, piece.value, done, spec.value, start, CompileElemOps(ops[i + 1..], r));
      pieces, done := pieces + [piece.value], done + spec.value;
    }
    assert done + [] == done;
    if pieces == [] {
      return FallBack;
    }
    return Done(Join(AndTok, pieces));
  }

  /** A field compared with a value that is no operator dictionary. */
  method TranslatePlainField(segs: seq<string>, cond: Value, pb: ParamBuilder) returns (out: Outcome<seq<Token>>)
    requires SafeFieldPath(segs) && !cond.Dict?
    modifies pb
    ensures Emits(out, CompileField(segs, cond), old(pb.params), pb.params)
  {
    if !IsScalar(cond) {
      return FallBack;
    }
    var r := FieldRef(segs);
    OneTest(IsNull(r), |pb.params|);
    if cond.Null? {
      return Done([PredTok(IsNull(r))]);
    }
    OneTest(EqTest(r, cond), |pb.params|);
    var eq := EmitEq(r, cond, pb);
    return Done([PredTok(eq)]);
  }

  method TranslateFieldClause(segs: seq<string>, cond: Value, pb: ParamBuilder) returns (out: Outcome<seq<Token>>)
    modifies pb
    ensures Emits(out, CompileField(segs, cond), old(pb.params), pb.params)
    decreases cond, 0
  {
    if !SafeFieldPath(segs) {
      return FallBack;
    }
    if !cond.Dict? {
      out := TranslatePlainField(segs, cond, pb);
      return;
    }
    var fragments := TranslateOps(segs, cond.entries, pb);
    if fragments.FallBack? {
      return FallBack;
    }
    if fragments.KeyError? {
      return KeyError;
    }
    if fragments.value == [] {
      return FallBack;
    }
    return Done(Join(AndTok, fragments.value));
  }

  /** An operator dictionary, operator by operator; `$options` belongs to `$regex`. */
  method TranslateOps(segs: seq<string>, ops: seq<Entry>, pb: ParamBuilder) returns (out: Outcome<seq<seq<Token>>>)
    requires SafeFieldPath(segs)
    modifies pb
    ensures
      match CompileOps(segs, ops, ops)
      case Done(fs) => out.Done? && Joined(out.value, fs, |old(pb.params)|) && pb.params == old(pb.params) + Values(fs)
      case FallBack => out == FallBack && old(pb.params) <= pb.params
      case KeyError => out == KeyError && old(pb.params) <= pb.params
    decreases ops
  {
    ghost var start := pb.params;
    ghost var done: seq<Factor> := [];
    var fragments: seq<seq<Token>> := [];
    assert ops[0..] == ops;
    ThenUnit(CompileOps(segs, ops, ops));
    for i := 0 to |ops|
      invariant CompileOps(segs, ops, ops) == Then(Done(done), CompileOps(segs, ops, ops[i..]))
      invariant pb.params == start + Values(done) && Joined(fragments, done, |start|)
    {
      assert ops[i..][1..] == ops[i + 1..];
      if ops[i].key == Dollar(Options) {
        if Get(ops, Dollar(Regex)).None? {
          return FallBack;
        }
        ThenUnit(CompileOps(segs, ops, ops[i + 1..]));
        continue;
      }
      var piece := TranslateOp(segs, ops, ops[i], pb);
      if piece.FallBack? {
        return FallBack;
      }
      if piece.KeyError? {
        return KeyError;
      }
      ghost var fs := CompileOp(segs, ops, ops[i]).value;
      OneMore(fragments, piece.value, done, fs, start, CompileOps(segs, ops, ops[i + 1..]));
      fragments, done := fragments + [piece.value], done + fs;
    }
    assert done + [] == done;
    return Done(fragments);
  }

  method TranslateOp(segs: seq<string>, all: seq<Entry>, e: Entry, pb: ParamBuilder)
    returns (out: Outcome<seq<Token>>)
    requires SafeFieldPath(segs) && e.key != Dollar(Options)
    modifies pb
    ensures Emits(out, CompileOp(segs, all, e), old(pb.params), pb.params)
    decreases e
  {
    var r := FieldRef(segs);
    var c := e.val;
    if e.key.Path? {
      return FallBack;
    }
    if IsComparator(e.key.op) {
      out := TranslateComparator(e.key.op, c, r, pb);
      return;
    }
    match e.key.op {
      case In => out := TranslateIn(c, r, false, pb);
      case Nin => out := TranslateIn(c, r, true, pb);
      case Exists =>
        var test := if Truthy(c) then NotNull(r) else IsNull(r);
        OneTest(if Truthy(c) then NotNull(r) else IsNull(r), |pb.params|);
        out := Done([PredTok(test)]);
      case Regex => out := TranslateRegex(c, Get(all, Dollar(Options)), r, pb);
      case Mod => out := TranslateMod(c, r, pb);
      case Size => out := TranslateSize(c, r, pb);
      case Type => out := TranslateType(c, r, pb);
      case ElemMatch => out := TranslateElemMatch(c, r, pb);
      case All => out := TranslateAll(c, r, pb);
      case Not => out := TranslateNot(segs, c, pb);
      case _ => out := FallBack;
    }
  }

  method TranslateNot(segs: seq<string>, c: Value, pb: ParamBuilder) returns (out: Outcome<seq<Token>>)
    requires SafeFieldPath(segs)
    modifies pb
    ensures Emits(out, CompileNot(segs, c), old(pb.params), pb.params)
    decreases c, 1
  {
    if !c.Dict? {
      return FallBack;
    }
    ghost var n := |pb.params|;
    var inner := TranslateFieldClause(segs, c, pb);
    if !inner.Done? {
      return inner;
    }
    OneGroup(true, CompileField(segs, c).value, n);
    return Done([NotTok, Open] + inner.value + [Close]);
  }

  method TranslateSize(c: Value, r: Ref, pb: ParamBuilder) returns (out: Outcome<seq<Token>>)
    modifies pb
    ensures Emits(out, CompileSize(c, r), old(pb.params), pb.params)
  {
    if !c.Int? && !c.Bool? {
      return FallBack;
    }
    OneTest(ArrayLength(r, Bound(c)), |pb.params|);
    var ph := pb.Add(Bound(c));
    return Done([PredTok(ArrayLength(r, ph))]);
  }

  method TranslateType(c: Value, r: Ref, pb: ParamBuilder) returns (out: Outcome<seq<Token>>)
    modifies pb
    ensures Emits(out, CompileType(c, r), old(pb.params), pb.params)
  {
    if !c.Str? || PgTypeName(c.s).None? {
      return FallBack;
    }
    var name := Bound(Str(PgTypeName(c.s).value));
    OneTest(TypeOf(r, name), |pb.params|);
    var ph := pb.Add(name);
    return Done([PredTok(TypeOf(r, ph))]);
  }

  /** The text before its enclosing parentheses are added. */
  function LogicalText(op: Op, ws: seq<Factor>, n: nat): seq<Token> {
    if op.And? then Print(ws, n)
    else if op.Or? then PrintAlts(Alternatives(ws), n)
    else [NotTok, Open] + PrintAlts(Alternatives(ws), n) + [Close]
  }

  lemma {:induction false} AlternativesSnoc(ws: seq<Factor>, w: Factor)
    ensures Alternatives(ws + [w]) == Alternatives(ws) + [Conj([w])]
  {
    if ws == [] {
      assert ws + [w] == [w];
    } else {
      assert (ws + [w])[1..] == ws[1..] + [w];
      AlternativesSnoc(ws[1..], w);
    }
  }

  lemma {:induction false} AlternativesValues(ws: seq<Factor>)
    ensures AltValues(Alternatives(ws)) == Values(ws)
  {
    if ws != [] {
      AlternativesValues(ws[1..]);
      assert Alternatives(ws)[1..] == Alternatives(ws[1..]);
      assert Values([ws[0]]) == FactorValues(ws[0]) + [];
    }
  }

  /** One more sub-query joined with OR. */
  lemma JoinOr(parts: seq<seq<Token>>, part: seq<Token>, ws: seq<Factor>, w: Factor, n: nat)
    requires |parts| == |ws| && Join(OrTok, parts) == PrintAlts(Alternatives(ws), n)
    requires part == Print([w], n + |Values(ws)|)
    ensures Join(OrTok, parts + [part]) == PrintAlts(Alternatives(ws + [w]), n)
  {
    JoinSnoc(OrTok, parts, part);
    AlternativesSnoc(ws, w);
    AlternativesValues(ws);
    PrintAltsSnoc(Alternatives(ws), Conj([w]), n);
  }

  /** The texts of some sub-queries, by which connective they are joined. */
  ghost predicate JoinsTo(parts: seq<seq<Token>>, ws: seq<Factor>, n: nat) {
    && |parts| == |ws|
    && Join(AndTok, parts) == Print(ws, n)
    && Join(OrTok, parts) == PrintAlts(Alternatives(ws), n)
  }

  /** One more sub-query translated. */
  lemma OneSubMore(parts: seq<seq<Token>>, part: seq<Token>, ws: seq<Factor>, w: Factor, start: seq<Param>, rest: Outcome<seq<Factor>>)
    requires JoinsTo(parts, ws, |start|) && part == Print([w], |start + Values(ws)|)
    ensures JoinsTo(parts + [part], ws + [w], |start|)
    ensures start + Values(ws) + Values([w]) == start + Values(ws + [w])
    ensures Then(Done(ws), Then(Done([w]), rest)) == Then(Done(ws + [w]), rest)
  {
    ThenAssoc(ws, [w], rest);
    JoinAnd(parts, part, ws, [w], start);
    JoinOr(parts, part, ws, w, |start|);
  }

  /** The texts of all sub-queries, or the first that has none. */
  method TranslateSubs(subs: seq<Value>, pb: ParamBuilder) returns (out: Outcome<seq<seq<Token>>>)
    modifies pb
    ensures
      match CompileSubs(subs)
      case Done(ws) => out.Done? && JoinsTo(out.value, ws, |old(pb.params)|) && pb.params == old(pb.params) + Values(ws)
      case FallBack => out == FallBack && old(pb.params) <= pb.params
      case KeyError => out == KeyError && old(pb.params) <= pb.params
    decreases subs
  {
    ghost var start := pb.params;
    ghost var ws: seq<Factor> := [];
    var parts: seq<seq<Token>> := [];
    assert subs[0..] == subs;
    ThenUnit(CompileSubs(subs));
    for i := 0 to |subs|
      invariant CompileSubs(subs) == Then(Done(ws), CompileSubs(subs[i..]))
      invariant pb.params == start + Values(ws) && JoinsTo(parts, ws, |start|)
    {
      assert subs[i..][1..] == subs[i + 1..];
      var part := TranslateSub(subs[i], pb);
      if part.FallBack? {
        return FallBack;
      }
      if part.KeyError? {
        return KeyError;
      }
      ghost var w := CompileSub(subs[i]).value[0];
      assert CompileSub(subs[i]).value == [w];
      OneSubMore(parts, part.value, ws, w, start, CompileSubs(subs[i + 1..]));
      parts, ws := parts + [part.value], ws + [w];
    }
    assert ws + [] == ws;
    return Done(parts);
  }

  method TranslateLogical(op: Op, conditions: Value, pb: ParamBuilder) returns (out: Outcome<seq<Token>>)
    requires op.And? || op.Or? || op.Nor?
    modifies pb
    ensures
      if !conditions.List? || conditions.items == [] then out == FallBack && pb.params == old(pb.params)
      else match CompileSubs(conditions.items)
        case Done(ws) =>
          out == Done(LogicalText(op, ws, |old(pb.params)|)) && pb.params == old(pb.params) + Values(ws)
        case FallBack => out == FallBack && old(pb.params) <= pb.params
        case KeyError => out == KeyError && old(pb.params) <= pb.params
    decreases conditions
  {
    if !conditions.List? || conditions.items == [] {
      return FallBack;
    }
    var parts := TranslateSubs(conditions.items, pb);
    if parts.FallBack? {
      return FallBack;
    }
    if parts.KeyError? {
      return KeyError;
    }
    if op.And? {
      return Done(Join(AndTok, parts.value));
    }
    if op.Or? {
      return Done(Join(OrTok, parts.value));
    }
    return Done([NotTok, Open] + Join(OrTok, parts.value) + [Close]);
  }

  /** One sub-query in brackets. */
  method TranslateSub(sub: Value, pb: ParamBuilder) returns (out: Outcome<seq<Token>>)
    modifies pb
    ensures Emits(out, CompileSub(sub), old(pb.params), pb.params)
    decreases sub
  {
    if !sub.Dict? {
      return FallBack;
    }
    out := TranslateQueryInto(sub.entries, pb);
    if out.Done? {
      OneGroup(false, CompileQuery(sub.entries).value, |old(pb.params)|);
      out := Done([Open] + out.value + [Close]);
    }
  }

  method TranslateQueryInto(query: seq<Entry>, pb: ParamBuilder) returns (out: Outcome<seq<Token>>)
    modifies pb
    ensures Emits(out, CompileQuery(query), old(pb.params), pb.params)
    decreases query
  {
    ghost var start := pb.params;
    ghost var done: seq<Factor> := [];
    var fragments: seq<seq<Token>> := [];
    assert query[0..] == query;
    ThenUnit(CompileQuery(query));
    for i := 0 to |query|
      invariant CompileQuery(query) == Then(Done(done), CompileQuery(query[i..]))
      invariant pb.params == start + Values(done)
      invariant Joined(fragments, done, |start|)
    {
      ghost var spec := CompileEntry(query[i]);
      assert query[i..][1..] == query[i + 1..];
      if Ignored(query[i].key) {
        ThenUnit(CompileQuery(query[i + 1..]));
        continue;
      }
      var piece := TranslateEntry(query[i], pb);
      if !piece.Done? {
        return piece;
      }
      OneMore(fragments, piece.value, done, spec.value, start, CompileQuery(query[i + 1..]));
      fragments, done := fragments + [piece.value], done + spec.value;
    }
    assert done + [] == done;
    return Done(Join(AndTok, fragments));
  }

  method TranslateEntry(e: Entry, pb: ParamBuilder) returns (out: Outcome<seq<Token>>)
    requires !Ignored(e.key)
    modifies pb
    ensures Emits(out, CompileEntry(e), old(pb.params), pb.params)
    decreases e
  {
    if e.key.Path? {
      out := TranslateFieldClause(e.key.segs, e.val, pb);
      return;
    }
    var op := e.key.op;
    if op.And? || op.Or? || op.Nor? {
      ghost var n := |pb.params|;
      var piece := TranslateLogical(op, e.val, pb);
      if !piece.Done? {
        return piece;
      }
      CombinePrints(op, CompileSubs(e.val.items).value, n);
      return Done([Open] + piece.value + [Close]);
    }
    if op.Not? {
      if !e.val.Dict? {
        return FallBack;
      }
      var inner := TranslateQueryInto(e.val.entries, pb);
      if !inner.Done? {
        return inner;
      }
      OneGroup(true, CompileQuery(e.val.entries).value, |old(pb.params)|);
      return Done([NotTok, Open] + inner.value + [Close]);
    }
    return FallBack;
  }

  lemma CombinePrints(op: Op, ws: seq<Factor>, n: nat)
    requires op.And? || op.Or? || op.Nor?
    ensures Print(Combine(op, ws), n) == [Open] + LogicalText(op, ws, n) + [Close]
    ensures Values(Combine(op, ws)) == Values(ws)
  {
    AlternativesValues(ws);
    OneFactor(Factor(false, Paren(Alternatives(ws))), n);
    OneFactor(Factor(true, Paren(Alternatives(ws))), n);
    OneGroup(false, ws, n);
    OneGroup(false, [Factor(true, Paren(Alternatives(ws)))], n);
  }

  /** The text of a query and the values bound to it, in the order of their placeholders. */
  function Emitted(query: seq<Entry>): Outcome<(seq<Token>, seq<Param>)> {
    match CompileQuery(query)
    case Done(fs) => Done((Print(fs, 0), Values(fs)))
    case FallBack => FallBack
    case KeyError => KeyError
  }

  /** `translate_query`. */
  method TranslateQuery(query: seq<Entry>) returns (out: Outcome<(seq<Token>, seq<Param>)>)
    ensures out == Emitted(query)
  {
    var pb := new ParamBuilder();
    var text := TranslateQueryInto(query, pb);
    match text {
      case Done(ts) =>
        assert pb.params == Values(CompileQuery(query).value);
        out := Done((ts, pb.params));
      case FallBack => out := FallBack;
      case KeyError => out := KeyError;
    }
  }
}
