/** What a query asks of a record, stated by what its fields lead to: a second definition, which shares no
    function with the matcher, and their equivalence. */
module QueryReference {
  import opened LexOrder
  import opened MongoQuery

  // ---------- values ----------

  /** The number a value stands for; a Python bool is 0 or 1. */
  predicate HasNumber(v: Value, x: real) {
    || (v == Bool(false) && x == 0.0)
    || (v == Bool(true) && x == 1.0)
    || (v.Int? && x == v.i as real)
    || (v.Float? && x == v.r)
  }

  /** Python's equality. */
  ghost predicate Same(v: Value, c: Value) {
    v == c || exists x :: HasNumber(v, x) && HasNumber(c, x)
  }

  /** One number, or one string, is less than another. */
  ghost predicate Less(v: Value, w: Value) {
    || (exists x, y :: HasNumber(v, x) && HasNumber(w, y) && x < y)
    || (v.Str? && w.Str? && LexLess(v.s, w.s))
  }

  /** Both are numbers, or both strings, and equal. */
  ghost predicate Level(v: Value, w: Value) {
    || (exists x :: HasNumber(v, x) && HasNumber(w, x))
    || (v.Str? && v == w)
  }

  /** What Python counts as false. */
  predicate Falsy(c: Value) {
    || c == Null || c == Bool(false) || c == Int(0) || c == Float(0.0)
    || c == Str("") || c == List([]) || c == Dict([])
  }

  predicate IsQuotient(v: real, d: real, r: real, q: int) {
    v == d * (q as real) + r
  }

  /** Divided by `d`, rounding down, `v` leaves `r`: the remainder has the sign of the divisor. */
  ghost predicate Leaves(v: real, d: real, r: real) {
    && d != 0.0
    && (if d > 0.0 then 0.0 <= r < d else d < r <= 0.0)
    && exists q :: IsQuotient(v, d, r, q)
  }

  /** The number with its fraction cut off is `n`. */
  predicate CutOff(x: real, n: int) {
    if x >= 0.0 then n as real <= x < n as real + 1.0 else n as real - 1.0 < x <= n as real
  }

  predicate HasLength(v: Value, n: nat) {
    (v.Str? && |v.s| == n) || (v.List? && |v.items| == n) || (v.Dict? && |v.entries| == n)
  }

  predicate IsOfType(v: Value, name: string) {
    match name
    case "string" => v.Str?
    case "str" => v.Str?
    case "int" => v.Int? || v.Bool?
    case "long" => v.Int? || v.Bool?
    case "double" => v.Float?
    case "float" => v.Float?
    case "bool" => v.Bool?
    case "boolean" => v.Bool?
    case "list" => v.List?
    case "array" => v.List?
    case "dict" => v.Dict?
    case "object" => v.Dict?
    case "null" => v == Null
    case "none" => v == Null
    case _ => false
  }

  ghost predicate Contains(items: seq<Value>, c: Value) {
    exists j | 0 <= j < |items| :: Same(items[j], c)
  }

  // ---------- queries ----------

  /** What a path reads: the value it leads to, or nothing. */
  ghost predicate Reads(doc: Value, segs: seq<string>, x: Option<Value>) {
    match x
    case Some(v) => LeadsTo(doc, segs, v)
    case None => forall v :: !LeadsTo(doc, segs, v)
  }

  ghost predicate Satisfies(doc: Value, query: seq<Entry>)
    decreases query
  {
    forall k | 0 <= k < |query| :: SatisfiesEntry(doc, query[k])
  }

  ghost predicate SatisfiesEntry(doc: Value, e: Entry)
    decreases e
  {
    match e.key
    case Path(segs) => exists x :: Reads(doc, segs, x) && Fits(x, e.val)
    case Dollar(op) =>
      match op
      case And => e.val.List? && forall k | 0 <= k < |e.val.items| :: SatisfiesSub(doc, e.val.items[k])
      case Or => e.val.List? && exists k | 0 <= k < |e.val.items| :: SatisfiesSub(doc, e.val.items[k])
      case Nor => e.val.List? && forall k | 0 <= k < |e.val.items| :: !SatisfiesSub(doc, e.val.items[k])
      case Not => e.val.Dict? && !Satisfies(doc, e.val.entries)
      case Hint => true
      case Select => true
      case _ => false
  }

  ghost predicate SatisfiesSub(doc: Value, sub: Value)
    decreases sub
  {
    sub.Dict? && Satisfies(doc, sub.entries)
  }

  /** A field that is missing or null counts as `None`. */
  predicate Nothing(x: Option<Value>) {
    x == None || x == Some(Null)
  }

  ghost predicate Fits(x: Option<Value>, cond: Value)
    decreases cond
  {
    if cond.Dict? then forall k | 0 <= k < |cond.entries| :: FitsOp(x, cond.entries[k]) else Equals(x, cond)
  }

  ghost predicate Equals(x: Option<Value>, c: Value) {
    if c == Null then Nothing(x) else !Nothing(x) && Same(x.value, c)
  }

  ghost predicate FitsOp(x: Option<Value>, e: Entry)
    decreases e
  {
    var c := e.val;
    e.key.Dollar? &&
    match e.key.op
    case Eq => Equals(x, c)
    case Ne => !Equals(x, c)
    case Gt => !Nothing(x) && Less(c, x.value)
    case Gte => !Nothing(x) && (Less(c, x.value) || Level(c, x.value))
    case Lt => !Nothing(x) && Less(x.value, c)
    case Lte => !Nothing(x) && (Less(x.value, c) || Level(x.value, c))
    case In => c.List? && exists k | 0 <= k < |c.items| :: Equals(x, c.items[k])
    case Nin => c.List? && forall k | 0 <= k < |c.items| :: !Equals(x, c.items[k])
    case Exists => Falsy(c) <==> Nothing(x)
    case Mod =>
      && !Nothing(x) && c.List? && |c.items| == 2
      && exists v, d, r :: HasNumber(x.value, v) && HasNumber(c.items[0], d) && HasNumber(c.items[1], r) && Leaves(v, d, r)
    case Size => !Nothing(x) && exists y, n: nat :: HasNumber(c, y) && HasLength(x.value, n) && CutOff(y, n)
    case Type => c.Str? && IsOfType(if x == None then Null else x.value, c.s)
    case All =>
      && !Nothing(x) && c.List? && x.value.List?
      && forall k | 0 <= k < |c.items| :: Contains(x.value.items, c.items[k])
    case ElemMatch => x.Some? && x.value.List? && exists k | 0 <= k < |x.value.items| :: ElemFits(x.value.items[k], c)
    case Options => true
    case Not => !Fits(x, c)
    case _ => false
  }

  /** An element that is no record counts as a record with the one field `_`. */
  ghost predicate ElemFits(elem: Value, c: Value)
    decreases c
  {
    if !c.Dict? then Equals(Some(elem), c)
    else if elem.Dict? then Satisfies(elem, c.entries)
    else Satisfies(Dict([Entry(Path(["_"]), elem)]), c.entries)
  }

  // ---------- the matcher decides it ----------

  lemma NumberIs(v: Value, x: real)
    ensures AsNumber(v) == Some(x) <==> HasNumber(v, x)
  {
  }

  lemma Numbers(v: Value)
    ensures AsNumber(v).Some? ==> HasNumber(v, AsNumber(v).value)
    ensures forall x | HasNumber(v, x) :: AsNumber(v) == Some(x)
  {
  }

  lemma EqualIs(v: Value, c: Value)
    ensures PyEq(v, c) <==> Same(v, c)
  {
    Numbers(v);
    Numbers(c);
  }

  lemma EqIs(x: Option<Value>, c: Value)
    ensures MatchEq(x, c, Plain) <==> Equals(x, c)
  {
    if x.Some? { EqualIs(x.value, c); }
  }

  lemma OrderIs(v: Value, c: Value)
    ensures Ordered(RGt, v, c) <==> Less(c, v)
    ensures Ordered(RGte, v, c) <==> Less(c, v) || Level(c, v)
    ensures Ordered(RLt, v, c) <==> Less(v, c)
    ensures Ordered(RLte, v, c) <==> Less(v, c) || Level(v, c)
  {
    Numbers(v);
    Numbers(c);
    if v.Str? && c.Str? {
      StrLessIsLex(v.s, c.s);
      StrLessIsLex(c.s, v.s);
    }
  }

  lemma InIs(x: Option<Value>, items: seq<Value>)
    ensures MatchIn(x, items, Plain) <==> exists k | 0 <= k < |items| :: Equals(x, items[k])
  {
    if x.Some? {
      forall k | 0 <= k < |items| { EqualIs(x.value, items[k]); }
    }
  }

  lemma ExistsIs(x: Option<Value>, c: Value)
    ensures MatchOp(x, Entry(Dollar(Exists), c), Plain) <==> (Falsy(c) <==> Nothing(x))
  {
  }

  /** The products keep the order of the factors, or turn it round. */
  lemma Products(d: real, a: real, b: real) returns (x: real, y: real)
    ensures x == d * a && y == d * b
    ensures d > 0.0 && a < b ==> x < y
    ensures d > 0.0 && a <= b ==> x <= y
    ensures d < 0.0 && a < b ==> x > y
    ensures d < 0.0 && a <= b ==> x >= y
  {
    x, y := d * a, d * b;
    ScaledOrder(d, a, b);
  }

  lemma ScaledOrder(d: real, a: real, b: real)
    ensures d > 0.0 && a < b ==> d * a < d * b
    ensures d > 0.0 && a <= b ==> d * a <= d * b
    ensures d < 0.0 && a < b ==> d * a > d * b
    ensures d < 0.0 && a <= b ==> d * a >= d * b
  {
  }

  lemma NextMultiple(d: real, f: real, x: real, y: real)
    requires x == d * f && y == d * (f + 1.0)
    ensures y == x + d
  {
  }

  /** The remainder by rounding down is the one of the divisor's sign. */
  lemma RemainderIs(v: real, d: real, r: real)
    requires d != 0.0
    ensures FloorMod(v, d) == r <==> Leaves(v, d, r)
  {
    var f := (v / d).Floor;
    assert d * (v / d) == v;
    if FloorMod(v, d) == r {
      RemainderInRange(v, d);
      assert IsQuotient(v, d, r, f);
    }
    if Leaves(v, d, r) {
      var q :| IsQuotient(v, d, r, q);
      QuotientIs(v, d, r, q);
    }
  }

  lemma RemainderInRange(v: real, d: real)
    requires d != 0.0
    ensures if d > 0.0 then 0.0 <= FloorMod(v, d) < d else d < FloorMod(v, d) <= 0.0
  {
    RangeOf(v, d, v / d, (v / d).Floor as real);
  }

  lemma RangeOf(v: real, d: real, q: real, f: real)
    requires d * q == v && f <= q < f + 1.0
    ensures d > 0.0 ==> 0.0 <= v - d * f < d
    ensures d < 0.0 ==> d < v - d * f <= 0.0
  {
    var x, y := Products(d, f, q);
    var y', z := Products(d, q, f + 1.0);
    NextMultiple(d, f, x, z);
    assert y == v == y';
    if d > 0.0 {
      assert x <= v < z;
    } else if d < 0.0 {
      assert x >= v > z;
    }
  }

  lemma QuotientIs(v: real, d: real, r: real, q: int)
    requires d != 0.0 && v == d * (q as real) + r && (if d > 0.0 then 0.0 <= r < d else d < r <= 0.0)
    ensures (v / d).Floor == q
  {
    Between(v, d, r, v / d, q as real);
  }

  lemma Between(v: real, d: real, r: real, x: real, y: real)
    requires d * x == v && v == d * y + r && d != 0.0 && (if d > 0.0 then 0.0 <= r < d else d < r <= 0.0)
    ensures y <= x < y + 1.0
  {
    var dx, dy := Products(d, x, y);
    var dz, dx' := Products(d, y + 1.0, x);
    NextMultiple(d, y, dy, dz);
    assert dx == v == dx' && v == dy + r;
  }

  lemma ModIs(x: Option<Value>, c: Value)
    ensures MatchOp(x, Entry(Dollar(Mod), c), Plain) <==> FitsOp(x, Entry(Dollar(Mod), c))
  {
    if !Nothing(x) && c.List? && |c.items| == 2 {
      Numbers(x.value);
      Numbers(c.items[0]);
      Numbers(c.items[1]);
      if AsNumber(x.value).Some? && AsNumber(c.items[0]).Some? && AsNumber(c.items[1]).Some? {
        var v, d, r := AsNumber(x.value).value, AsNumber(c.items[0]).value, AsNumber(c.items[1]).value;
        if d != 0.0 { RemainderIs(v, d, r); }
      }
    }
  }

  lemma CutOffIs(x: real, n: int)
    ensures Truncate(x) == n <==> CutOff(x, n)
  {
  }

  lemma SizeIs(x: Option<Value>, c: Value)
    ensures MatchOp(x, Entry(Dollar(Size), c), Plain) <==> FitsOp(x, Entry(Dollar(Size), c))
  {
    if !Nothing(x) {
      Numbers(c);
      if AsNumber(c).Some? && LengthOf(x.value).Some? { CutOffIs(AsNumber(c).value, LengthOf(x.value).value); }
      forall y, n: nat | HasNumber(c, y) && HasLength(x.value, n) && CutOff(y, n)
        ensures AsNumber(c) == Some(y) && LengthOf(x.value) == Some(n) && Truncate(y) == n
      {
        CutOffIs(y, n);
      }
    }
  }

  lemma TypeIs(x: Option<Value>, c: Value)
    ensures MatchOp(x, Entry(Dollar(Type), c), Plain) <==> FitsOp(x, Entry(Dollar(Type), c))
  {
  }

  lemma AllIs(x: Option<Value>, c: Value)
    ensures MatchOp(x, Entry(Dollar(All), c), Plain) <==> FitsOp(x, Entry(Dollar(All), c))
  {
    if !Nothing(x) && c.List? && x.value.List? {
      forall k | 0 <= k < |c.items| { MemberIs(c.items[k], x.value.items); }
    }
  }

  lemma MemberIs(c: Value, items: seq<Value>)
    ensures Member(c, items) <==> Contains(items, c)
  {
    forall j | 0 <= j < |items| { EqualIs(items[j], c); }
  }

  lemma ReadsIs(doc: Value, segs: seq<string>, x: Option<Value>)
    ensures Reads(doc, segs, x) <==> Walk(doc, segs) == x
  {
    forall v { WalkLeads(doc, segs, v); }
  }

  lemma {:induction false} QueryIs(doc: Value, query: seq<Entry>)
    ensures MatchQuery(doc, query, Plain) <==> Satisfies(doc, query)
    decreases query
  {
    if query != [] {
      EntryIs(doc, query[0]);
      QueryIs(doc, query[1..]);
      assert forall k | 0 <= k < |query[1..]| :: query[1..][k] == query[k + 1];
      assert forall k | 0 < k < |query| :: query[k] == query[1..][k - 1];
    }
  }

  lemma EntryIs(doc: Value, e: Entry)
    ensures MatchEntry(doc, e, Plain) <==> SatisfiesEntry(doc, e)
    decreases e
  {
    match e.key {
      case Path(segs) =>
        FitsIs(Walk(doc, segs), e.val);
        forall x { ReadsIs(doc, segs, x); }
      case Dollar(op) =>
        if e.val.List? {
          AllSubsIs(doc, e.val.items);
          AnySubIs(doc, e.val.items);
        }
        if e.val.Dict? { QueryIs(doc, e.val.entries); }
    }
  }

  lemma {:induction false} AllSubsIs(doc: Value, subs: seq<Value>)
    ensures MatchAll(doc, subs, Plain) <==> forall k | 0 <= k < |subs| :: SatisfiesSub(doc, subs[k])
    decreases subs, 0
  {
    if subs != [] {
      if subs[0].Dict? { QueryIs(doc, subs[0].entries); }
      AllSubsIs(doc, subs[1..]);
      assert forall k | 0 <= k < |subs[1..]| :: subs[1..][k] == subs[k + 1];
      assert forall k | 0 < k < |subs| :: subs[k] == subs[1..][k - 1];
    }
  }

  lemma {:induction false} AnySubIs(doc: Value, subs: seq<Value>)
    ensures MatchAny(doc, subs, Plain) <==> exists k | 0 <= k < |subs| :: SatisfiesSub(doc, subs[k])
    decreases subs, 0
  {
    if subs != [] {
      if subs[0].Dict? { QueryIs(doc, subs[0].entries); }
      AnySubIs(doc, subs[1..]);
      assert forall k | 0 <= k < |subs[1..]| :: subs[1..][k] == subs[k + 1];
      assert forall k | 0 < k < |subs| :: subs[k] == subs[1..][k - 1];
    }
  }

  lemma FitsIs(x: Option<Value>, cond: Value)
    ensures MatchValue(x, cond, Plain) <==> Fits(x, cond)
    decreases cond
  {
    if cond.Dict? { OpsIs(x, cond.entries); } else { EqIs(x, cond); }
  }

  lemma {:induction false} OpsIs(x: Option<Value>, ops: seq<Entry>)
    ensures MatchOps(x, ops, Plain) <==> forall k | 0 <= k < |ops| :: FitsOp(x, ops[k])
    decreases ops
  {
    if ops != [] {
      OpIs(x, ops[0]);
      OpsIs(x, ops[1..]);
      assert forall k | 0 <= k < |ops[1..]| :: ops[1..][k] == ops[k + 1];
      assert forall k | 0 < k < |ops| :: ops[k] == ops[1..][k - 1];
    }
  }

  lemma OpIs(x: Option<Value>, e: Entry)
    ensures MatchOp(x, e, Plain) <==> FitsOp(x, e)
    decreases e
  {
    if e.key.Dollar? {
      match e.key.op {
        case In => if e.val.List? { InIs(x, e.val.items); }
        case Nin => if e.val.List? { InIs(x, e.val.items); }
        case Exists => ExistsIs(x, e.val);
        case Mod => ModIs(x, e.val);
        case Size => SizeIs(x, e.val);
        case Type => TypeIs(x, e.val);
        case All => AllIs(x, e.val);
        case ElemMatch =>
          if x.Some? && x.value.List? {
            forall k | 0 <= k < |x.value.items| { ElemIs(x.value.items[k], e.val); }
          }
        case Not => FitsIs(x, e.val);
        case _ => CompareIs(x, e);
      }
    }
  }

  lemma CompareIs(x: Option<Value>, e: Entry)
    requires e.key.Dollar? && e.key.op !in {In, Nin, Exists, Mod, Size, Type, All, ElemMatch, Not}
    ensures MatchOp(x, e, Plain) <==> FitsOp(x, e)
  {
    EqIs(x, e.val);
    if x.Some? { OrderIs(x.value, e.val); }
  }

  lemma ElemIs(elem: Value, c: Value)
    ensures MatchElem(elem, c) <==> ElemFits(elem, c)
    decreases c
  {
    if c.Dict? { QueryIs(AsRecord(elem), c.entries); } else { EqIs(Some(elem), c); }
  }

  /** The matcher accepts exactly the records that satisfy the query. */
  lemma MatchIsSatisfies(doc: Value, query: seq<Entry>)
    ensures Match(doc, query) <==> Satisfies(doc, query)
  {
    QueryIs(doc, query);
  }
}
