/** Query values, the in-memory matcher and the typing condition under which the SQL translation
    is compared with it. The matcher follows `QueryEngine.match` of jvspatial/db/query.py. */
module MongoQuery {
  import opened LexOrder

  /** The `$`-prefixed keys the translator tells apart; anything else is `Other`. */
  datatype Op =
    | Eq | Ne | Gt | Gte | Lt | Lte | In | Nin | Exists | Regex | Options | Mod | Size | Type
    | ElemMatch | All | Not | And | Or | Nor | Where | Text | Hint | Select | Other(name: string)

  /** A dictionary key: an operator, or a field name already split at its dots. */
  datatype Key = Dollar(op: Op) | Path(segs: seq<string>)

  /** A Python value as it occurs in a query or in a stored record. */
  datatype Value =
    | Null
    | Bool(b: bool)
    | Int(i: int)
    | Float(r: real)
    | Str(s: string)
    | List(items: seq<Value>)
    | Dict(entries: seq<Entry>)

  datatype Entry = Entry(key: Key, val: Value)

  datatype Option<+T> = None | Some(value: T)

  // ---------- values ----------

  predicate IsNumber(v: Value) {
    v.Int? || v.Float?
  }

  predicate IsScalar(v: Value) {
    !v.List? && !v.Dict?
  }

  function NumberOf(v: Value): real
    requires IsNumber(v)
  {
    if v.Int? then v.i as real else v.r
  }

  /** Python's `bool(v)`. */
  predicate Truthy(v: Value) {
    match v
    case Null => false
    case Bool(b) => b
    case Int(i) => i != 0
    case Float(r) => r != 0.0
    case Str(s) => s != ""
    case List(items) => items != []
    case Dict(entries) => entries != []
  }

  /** Python's `v == c` for a scalar `c`; a Python bool is the number 0 or 1. */
  predicate PyEq(v: Value, c: Value) {
    if AsNumber(v).Some? && AsNumber(c).Some? then AsNumber(v) == AsNumber(c) else v == c
  }

  function AsNumber(v: Value): Option<real> {
    match v
    case Bool(b) => Some(if b then 1.0 else 0.0)
    case Int(i) => Some(i as real)
    case Float(r) => Some(r)
    case _ => None
  }

  /** Lexicographic order by code point. */
  predicate StrLess(a: string, b: string) {
    if b == "" then false
    else if a == "" then true
    else a[0] < b[0] || (a[0] == b[0] && StrLess(a[1..], b[1..]))
  }

  lemma {:induction false} StrLessIsLex(a: string, b: string)
    ensures StrLess(a, b) <==> LexLess(a, b)
    decreases |a|
  {
    if a != "" && b != "" {
      LexNext(a, b);
      StrLessIsLex(a[1..], b[1..]);
    }
  }

  datatype Rel = REq | RGt | RGte | RLt | RLte

  predicate CompareReal(rel: Rel, a: real, b: real) {
    match rel
    case REq => a == b
    case RGt => a > b
    case RGte => a >= b
    case RLt => a < b
    case RLte => a <= b
  }

  predicate CompareStr(rel: Rel, a: string, b: string) {
    match rel
    case REq => a == b
    case RGt => StrLess(b, a)
    case RGte => a == b || StrLess(b, a)
    case RLt => StrLess(a, b)
    case RLte => a == b || StrLess(a, b)
  }

  /** The ordering comparison of two numbers or two strings; Python raises on most other pairs. */
  predicate Ordered(rel: Rel, v: Value, c: Value) {
    if AsNumber(v).Some? && AsNumber(c).Some? then CompareReal(rel, AsNumber(v).value, AsNumber(c).value)
    else if v.Str? && c.Str? then CompareStr(rel, v.s, c.s)
    else false
  }

  /** Python's `x % d`, the remainder with the sign of `d`. */
  function FloorMod(x: real, d: real): real
    requires d != 0.0
  {
    x - d * ((x / d).Floor as real)
  }

  /** PostgreSQL's `x % d` on numeric, the remainder of the division truncated towards zero. */
  function TruncMod(x: real, d: real): real
    requires d != 0.0
  {
    x - d * (Truncate(x / d) as real)
  }

  function Truncate(q: real): int {
    if q >= 0.0 then q.Floor else -((-q).Floor)
  }

  /** The two remainders agree exactly when the quotient is non-negative or whole. */
  lemma RemaindersAgree(x: real, d: real)
    requires d != 0.0
    ensures FloorMod(x, d) == TruncMod(x, d) <==> x / d >= 0.0 || x / d == (x / d).Floor as real
  {
    var q := x / d;
    var f, t := q.Floor as real, Truncate(q) as real;
    if f != t { ProductsDiffer(d, f, t); }
  }

  lemma ProductsDiffer(d: real, a: real, b: real)
    requires d != 0.0 && a != b
    ensures d * a != d * b
  {
  }

  // ---------- reading a field ----------

  function Get(entries: seq<Entry>, key: Key): Option<Value> {
    if entries == [] then None
    else if entries[0].key == key then Some(entries[0].val)
    else Get(entries[1..], key)
  }

  /** The value at a dotted path. A list on the way ends the walk: a safe segment is never an index. */
  function Walk(v: Value, segs: seq<string>): Option<Value>
    decreases segs
  {
    if segs == [] then Some(v)
    else if !v.Dict? then None
    else match Get(v.entries, Path([segs[0]]))
      case None => None
      case Some(w) => Walk(w, segs[1..])
  }

  /** The record has the field, with this value; of entries with the same key the first counts. */
  predicate HasField(doc: Value, name: string, v: Value) {
    doc.Dict? && exists k | 0 <= k < |doc.entries| ::
      doc.entries[k] == Entry(Path([name]), v) && forall j | 0 <= j < k :: doc.entries[j].key != Path([name])
  }

  /** Each value of the chain has the next one under the next name. */
  predicate Chain(segs: seq<string>, chain: seq<Value>) {
    |chain| == |segs| + 1 && forall i | 0 <= i < |segs| :: HasField(chain[i], segs[i], chain[i + 1])
  }

  /** `v` is what the dotted path leads to. */
  ghost predicate LeadsTo(doc: Value, segs: seq<string>, v: Value) {
    exists chain :: Chain(segs, chain) && chain[0] == doc && chain[|segs|] == v
  }

  lemma {:induction false} GetIsFirst(entries: seq<Entry>, key: Key, v: Value)
    ensures Get(entries, key) == Some(v) <==>
            exists k | 0 <= k < |entries| :: entries[k] == Entry(key, v) && forall j | 0 <= j < k :: entries[j].key != key
  {
    if entries != [] {
      var rest := entries[1..];
      GetIsFirst(rest, key, v);
      if k :| 0 <= k < |rest| && rest[k] == Entry(key, v) && forall j | 0 <= j < k :: rest[j].key != key {
        if entries[0].key != key {
          assert entries[k + 1] == Entry(key, v);
          forall j | 0 <= j < k + 1 ensures entries[j].key != key { if j > 0 { assert rest[j - 1] == entries[j]; } }
        }
      }
      if k :| 0 <= k < |entries| && entries[k] == Entry(key, v) && forall j | 0 <= j < k :: entries[j].key != key {
        if k > 0 {
          assert rest[k - 1] == Entry(key, v);
          assert forall j | 0 <= j < k - 1 :: rest[j] == entries[j + 1];
        }
      }
    }
  }

  lemma WalkOne(doc: Value, name: string, v: Value)
    ensures Walk(doc, [name]) == Some(v) <==> HasField(doc, name, v)
  {
    if doc.Dict? {
      GetIsFirst(doc.entries, Path([name]), v);
      assert [name][1..] == [];
    }
  }

  lemma LeadsFurther(doc: Value, segs: seq<string>, v: Value)
    requires segs != []
    ensures LeadsTo(doc, segs, v) <==> exists w :: HasField(doc, segs[0], w) && LeadsTo(w, segs[1..], v)
  {
    var rest := segs[1..];
    if w :| HasField(doc, segs[0], w) && LeadsTo(w, rest, v) {
      var chain :| Chain(rest, chain) && chain[0] == w && chain[|rest|] == v;
      ChainCons(doc, segs, chain);
      assert ([doc] + chain)[|segs|] == v;
    }
    if chain :| Chain(segs, chain) && chain[0] == doc && chain[|segs|] == v {
      assert HasField(chain[0], segs[0], chain[1]);
      assert Chain(rest, chain[1..]) && chain[1..][|rest|] == v;
    }
  }

  lemma LeadsNowhere(doc: Value, v: Value)
    ensures LeadsTo(doc, [], v) <==> doc == v
  {
    if doc == v { assert Chain([], [doc]); }
  }

  /** Reading a dotted path ends at the value it leads to, or finds nothing. */
  lemma {:induction false} WalkLeads(doc: Value, segs: seq<string>, v: Value)
    ensures Walk(doc, segs) == Some(v) <==> LeadsTo(doc, segs, v)
    decreases |segs|
  {
    if segs == [] {
      LeadsNowhere(doc, v);
    } else {
      LeadsFurther(doc, segs, v);
      WalkFirst(doc, segs);
      if x :| HasField(doc, segs[0], x) { WalkLeads(x, segs[1..], v); }
    }
  }

  /** The first step of a walk: the one field of this name, if there is one. */
  lemma WalkFirst(doc: Value, segs: seq<string>)
    requires segs != []
    ensures forall w | HasField(doc, segs[0], w) :: Walk(doc, segs) == Walk(w, segs[1..])
    ensures forall w, x | HasField(doc, segs[0], w) && HasField(doc, segs[0], x) :: w == x
    ensures (forall w :: !HasField(doc, segs[0], w)) ==> Walk(doc, segs) == None
  {
    if doc.Dict? {
      forall w { GetIsFirst(doc.entries, Path([segs[0]]), w); }
      if Get(doc.entries, Path([segs[0]])).Some? { assert HasField(doc, segs[0], Get(doc.entries, Path([segs[0]])).value); }
    }
  }

  lemma ChainCons(doc: Value, segs: seq<string>, chain: seq<Value>)
    requires segs != [] && Chain(segs[1..], chain) && HasField(doc, segs[0], chain[0])
    ensures Chain(segs, [doc] + chain)
  {
    var longer := [doc] + chain;
    forall i | 0 <= i < |segs| ensures HasField(longer[i], segs[i], longer[i + 1]) {
      if i > 0 { assert HasField(chain[i - 1], segs[1..][i - 1], chain[i]); }
    }
  }

  // ---------- the matcher ----------

  /** `Plain` is the Python matcher. `Sql(u)` is the same matcher except that a comparison whose
      field is missing answers `u`, and `u` flips below each negation. */
  datatype Mode = Plain | Sql(u: bool)

  function Flip(m: Mode): Mode {
    match m
    case Plain => Plain
    case Sql(u) => Sql(!u)
  }

  /** What a comparison on a missing field answers. */
  predicate Missing(m: Mode) {
    m.Sql? && m.u
  }

  predicate IsAbsent(x: Option<Value>) {
    x.None? || x.value.Null?
  }

  /** `QueryEngine.match(doc, query)`, the query given by its entries. Operators the comparison
      leaves out (`WellTyped` is false for them) answer false. */
  predicate MatchQuery(doc: Value, entries: seq<Entry>, m: Mode)
    decreases entries
  {
    if entries == [] then true
    else MatchEntry(doc, entries[0], m) && MatchQuery(doc, entries[1..], m)
  }

  predicate MatchEntry(doc: Value, e: Entry, m: Mode)
    decreases e
  {
    match e.key
    case Path(segs) => MatchValue(Walk(doc, segs), e.val, m)
    case Dollar(op) =>
      match op
      case Hint => true
      case Select => true
      case And => e.val.List? && MatchAll(doc, e.val.items, m)
      case Or => e.val.List? && MatchAny(doc, e.val.items, m)
      case Nor => e.val.List? && !MatchAny(doc, e.val.items, Flip(m))
      case Not => e.val.Dict? && !MatchQuery(doc, e.val.entries, Flip(m))
      case _ => false
  }

  predicate MatchAll(doc: Value, subs: seq<Value>, m: Mode)
    decreases subs
  {
    if subs == [] then true
    else subs[0].Dict? && MatchQuery(doc, subs[0].entries, m) && MatchAll(doc, subs[1..], m)
  }

  predicate MatchAny(doc: Value, subs: seq<Value>, m: Mode)
    decreases subs
  {
    if subs == [] then false
    else (subs[0].Dict? && MatchQuery(doc, subs[0].entries, m)) || MatchAny(doc, subs[1..], m)
  }

  /** `QueryEngine._match_value`. */
  predicate MatchValue(x: Option<Value>, cond: Value, m: Mode)
    decreases cond
  {
    if cond.Dict? then MatchOps(x, cond.entries, m) else MatchEq(x, cond, m)
  }

  predicate MatchEq(x: Option<Value>, c: Value, m: Mode) {
    if c.Null? then IsAbsent(x)
    else if IsAbsent(x) then Missing(m)
    else PyEq(x.value, c)
  }

  predicate MatchOps(x: Option<Value>, ops: seq<Entry>, m: Mode)
    decreases ops
  {
    if ops == [] then true
    else MatchOp(x, ops[0], m) && MatchOps(x, ops[1..], m)
  }

  predicate MatchOp(x: Option<Value>, e: Entry, m: Mode)
    decreases e
  {
    var c := e.val;
    if e.key.Path? then false else
    match e.key.op
    case Eq => MatchEq(x, c, m)
    case Ne => !MatchEq(x, c, Plain)
    case Gt => if IsAbsent(x) then Missing(m) else Ordered(RGt, x.value, c)
    case Gte => if IsAbsent(x) then Missing(m) else Ordered(RGte, x.value, c)
    case Lt => if IsAbsent(x) then Missing(m) else Ordered(RLt, x.value, c)
    case Lte => if IsAbsent(x) then Missing(m) else Ordered(RLte, x.value, c)
    case In => c.List? && MatchIn(x, c.items, m)
    case Nin => c.List? && !MatchIn(x, c.items, Plain)
    case Exists => Truthy(c) == !IsAbsent(x)
    case Mod =>
      if IsAbsent(x) then Missing(m)
      else c.List? && |c.items| == 2 && AsNumber(c.items[0]).Some? && AsNumber(c.items[1]).Some? && AsNumber(x.value).Some?
           && AsNumber(c.items[0]).value != 0.0
           && FloorMod(AsNumber(x.value).value, AsNumber(c.items[0]).value) == AsNumber(c.items[1]).value
    case Size =>
      if IsAbsent(x) then Missing(m)
      else LengthOf(x.value).Some? && AsNumber(c).Some? && Truncate(AsNumber(c).value) == LengthOf(x.value).value
    case Type => if IsAbsent(x) then (if m.Plain? then PyTypeIs(Value.Null, c) else m.u) else PyTypeIs(x.value, c)
    case All =>
      if IsAbsent(x) then Missing(m)
      else c.List? && x.value.List? && forall k | 0 <= k < |c.items| :: Member(c.items[k], x.value.items)
    case ElemMatch => x.Some? && x.value.List? && exists k | 0 <= k < |x.value.items| :: MatchElem(x.value.items[k], c)
    case Options => true
    case Not => if c.Dict? then !MatchOps(x, c.entries, Flip(m)) else !MatchEq(x, c, Flip(m))
    case _ => false
  }

  /** `value in operand`: an empty list is decided even for a missing field, which counts as `None`. */
  predicate MatchIn(x: Option<Value>, items: seq<Value>, m: Mode) {
    if items == [] then false
    else if IsAbsent(x) then if m.Plain? then Null in items else Missing(m)
    else exists k | 0 <= k < |items| :: PyEq(x.value, items[k])
  }

  predicate Member(c: Value, items: seq<Value>) {
    exists k | 0 <= k < |items| :: PyEq(items[k], c)
  }

  /** `isinstance(value, _TYPE_NAME_MAP[operand])`; a Python bool is an int. Only lower-case names
      reach SQL, so the matcher's case folding is left out. */
  predicate PyTypeIs(v: Value, c: Value) {
    c.Str? &&
    match v
    case Str(_) => c.s in {"string", "str"}
    case Bool(_) => c.s in {"bool", "boolean", "int", "long"}
    case Int(_) => c.s in {"int", "long"}
    case Float(_) => c.s in {"double", "float"}
    case List(_) => c.s in {"list", "array"}
    case Dict(_) => c.s in {"dict", "object"}
    case Null => c.s in {"null", "none"}
  }

  /** `len(value)`, where Python has it. */
  function LengthOf(v: Value): Option<nat> {
    match v
    case Str(t) => Some(|t|)
    case List(items) => Some(|items|)
    case Dict(entries) => Some(|entries|)
    case _ => None
  }

  /** One array element against the operand of `$elemMatch`: a query on the element, or a value. */
  predicate MatchElem(elem: Value, c: Value)
    decreases c
  {
    if c.Dict? then MatchQuery(AsRecord(elem), c.entries, Plain) else MatchEq(Some(elem), c, Plain)
  }

  /** An element that is no record is matched as the only field of one. */
  function AsRecord(elem: Value): Value {
    if elem.Dict? then elem else Dict([Entry(Path(["_"]), elem)])
  }

  /** A document matches a query, as the in-memory engine decides it. */
  predicate Match(doc: Value, query: seq<Entry>) {
    MatchQuery(doc, query, Plain)
  }

  /** A query with one more clause in front. */
  lemma MatchCons(doc: Value, e: Entry, rest: seq<Entry>)
    ensures Match(doc, [e] + rest) <==> MatchEntry(doc, e, Plain) && Match(doc, rest)
  {
    var es := [e] + rest;
    assert MatchQuery(doc, es, Plain) == (MatchEntry(doc, es[0], Plain) && MatchQuery(doc, es[1..], Plain));
    assert es[1..] == rest;
  }

  // ---------- order of the three readings ----------

  /** Counting a missing comparison as false (or true) under an even number of negations can only
      lose (or gain) documents. */
  lemma {:induction false} PlainBetween(doc: Value, entries: seq<Entry>)
    ensures MatchQuery(doc, entries, Sql(false)) ==> MatchQuery(doc, entries, Plain)
    ensures MatchQuery(doc, entries, Plain) ==> MatchQuery(doc, entries, Sql(true))
    decreases entries
  {
    if entries != [] {
      PlainBetweenEntry(doc, entries[0]);
      PlainBetween(doc, entries[1..]);
    }
  }

  lemma {:induction false} PlainBetweenEntry(doc: Value, e: Entry)
    ensures MatchEntry(doc, e, Sql(false)) ==> MatchEntry(doc, e, Plain)
    ensures MatchEntry(doc, e, Plain) ==> MatchEntry(doc, e, Sql(true))
    decreases e
  {
    if e.key.Path? {
      PlainBetweenValue(Walk(doc, e.key.segs), e.val);
    } else if e.val.List? {
      PlainBetweenSubs(doc, e.val.items);
    } else if e.val.Dict? {
      PlainBetween(doc, e.val.entries);
    }
  }

  lemma {:induction false} PlainBetweenSubs(doc: Value, subs: seq<Value>)
    ensures MatchAll(doc, subs, Sql(false)) ==> MatchAll(doc, subs, Plain)
    ensures MatchAll(doc, subs, Plain) ==> MatchAll(doc, subs, Sql(true))
    ensures MatchAny(doc, subs, Sql(false)) ==> MatchAny(doc, subs, Plain)
    ensures MatchAny(doc, subs, Plain) ==> MatchAny(doc, subs, Sql(true))
    decreases subs
  {
    if subs != [] {
      if subs[0].Dict? { PlainBetween(doc, subs[0].entries); }
      PlainBetweenSubs(doc, subs[1..]);
    }
  }

  lemma {:induction false} PlainBetweenValue(x: Option<Value>, cond: Value)
    ensures MatchValue(x, cond, Sql(false)) ==> MatchValue(x, cond, Plain)
    ensures MatchValue(x, cond, Plain) ==> MatchValue(x, cond, Sql(true))
    decreases cond
  {
    if cond.Dict? { PlainBetweenOps(x, cond.entries); }
  }

  lemma {:induction false} PlainBetweenOps(x: Option<Value>, ops: seq<Entry>)
    ensures MatchOps(x, ops, Sql(false)) ==> MatchOps(x, ops, Plain)
    ensures MatchOps(x, ops, Plain) ==> MatchOps(x, ops, Sql(true))
    decreases ops
  {
    if ops != [] {
      PlainBetweenOp(x, ops[0]);
      PlainBetweenOps(x, ops[1..]);
    }
  }

  lemma {:induction false} PlainBetweenOp(x: Option<Value>, e: Entry)
    ensures MatchOp(x, e, Sql(false)) ==> MatchOp(x, e, Plain)
    ensures MatchOp(x, e, Plain) ==> MatchOp(x, e, Sql(true))
    decreases e
  {
    if e.key == Dollar(Not) && e.val.Dict? { PlainBetweenOps(x, e.val.entries); }
  }
}
