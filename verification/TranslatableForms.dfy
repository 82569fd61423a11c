/** Which queries the translator accepts, told by their shape alone, and which make it raise. */
module TranslatableForms {
  import opened MongoQuery
  import opened SqlText
  import opened Translator

  // ---------- which queries are translated ----------

  /** Null, a truth value, a number or a string. */
  predicate Simple(c: Value) {
    c == Null || c.Bool? || c.Int? || c.Float? || c.Str?
  }

  predicate Numeric(c: Value) {
    c.Int? || c.Float?
  }

  predicate Compares(op: Op) {
    op == Eq || op == Ne || op == Gt || op == Gte || op == Lt || op == Lte
  }

  /** By its code an ASCII letter or the underscore. */
  predicate LetterCode(c: char) {
    var n := c as int;
    65 <= n <= 90 || 97 <= n <= 122 || n == 95
  }

  predicate DigitCode(c: char) {
    48 <= c as int <= 57
  }

  /** The first `n` characters are a letter or underscore and then letters, digits and underscores. */
  predicate NameUpTo(s: string, n: nat) {
    && 1 <= n <= |s| && LetterCode(s[0])
    && forall i | 1 <= i < n :: LetterCode(s[i]) || DigitCode(s[i])
  }

  /** A segment that the pattern accepts: a name, after which one line break may stand. */
  predicate NameSegment(s: string) {
    NameUpTo(s, |s|) || (s != "" && s[|s| - 1] == '\n' && NameUpTo(s, |s| - 1))
  }

  predicate NamePath(segs: seq<string>) {
    segs != [] && forall k | 0 <= k < |segs| :: NameSegment(segs[k])
  }

  lemma SegmentIs(s: string)
    ensures SafeSegment(s) <==> NameSegment(s)
  {
    var t := TrimNewline(s);
    assert '\n' as int == 10 && 'A' as int == 65 && 'Z' as int == 90 && 'a' as int == 97 && 'z' as int == 122 && '_' as int == 95;
    assert '0' as int == 48 && '9' as int == 57;
    assert forall k | 0 <= k < |t| :: t[k] == s[k];
    assert forall c :: (IdentStart(c) <==> LetterCode(c)) && (IdentChar(c) <==> LetterCode(c) || DigitCode(c));
    if s != "" && s[|s| - 1] == '\n' {
      assert !NameUpTo(s, |s|) by {
        assert !LetterCode('\n') && !DigitCode('\n');
      }
    }
  }

  lemma PathIs(segs: seq<string>)
    ensures SafeFieldPath(segs) <==> NamePath(segs)
  {
    forall k | 0 <= k < |segs| { SegmentIs(segs[k]); }
  }

  predicate AllSimple(items: seq<Value>) {
    forall k | 0 <= k < |items| :: Simple(items[k])
  }

  /** A comparison with a simple value; null and truth values are compared for equality only. */
  predicate TranslatableComparator(op: Op, c: Value) {
    Simple(c) && Compares(op) && (c == Null || c.Bool? ==> op == Eq || op == Ne)
  }

  predicate TranslatableElemOp(e: Entry) {
    e.key.Dollar? && TranslatableComparator(e.key.op, e.val)
  }

  predicate TranslatableElemField(e: Entry) {
    match e.key
    case Dollar(op) => TranslatableComparator(op, e.val)
    case Path(segs) =>
      NamePath(segs)
      && if e.val.Dict? then e.val.entries != [] && forall k | 0 <= k < |e.val.entries| :: TranslatableElemOp(e.val.entries[k])
         else Simple(e.val)
  }

  /** The dictionary has the key, or its value there. */
  predicate HasKey(all: seq<Entry>, key: Key) {
    exists k | 0 <= k < |all| :: all[k].key == key
  }

  /** The options given as text, if any, are nothing but `i`s. */
  predicate NoOtherFlags(all: seq<Entry>) {
    forall k | 0 <= k < |all| && all[k].key == Dollar(Options) && all[k].val.Str? && (forall j | 0 <= j < k :: all[j].key != Dollar(Options)) ::
      forall i | 0 <= i < |all[k].val.s| :: all[k].val.s[i] == 'i'
  }

  /** One operator of the operator dictionary `all`. */
  predicate TranslatableOp(all: seq<Entry>, e: Entry)
    decreases e
  {
    e.key.Dollar? &&
    if Compares(e.key.op) then TranslatableComparator(e.key.op, e.val)
    else
      match e.key.op
      case In => e.val.List? && AllSimple(e.val.items)
      case Nin => e.val.List? && AllSimple(e.val.items)
      case Exists => true
      case Regex => e.val.Str? && NoOtherFlags(all)
      case Options => HasKey(all, Dollar(Regex))
      case Mod => e.val.List? && |e.val.items| == 2 && Numeric(e.val.items[0]) && Numeric(e.val.items[1])
      case Size => e.val.Int? || e.val.Bool?
      case Type =>
        e.val.Str? && e.val.s in {"string", "number", "int", "double", "long", "bool", "boolean", "object", "array", "null"}
      case ElemMatch =>
        e.val.Dict? && e.val.entries != [] && forall k | 0 <= k < |e.val.entries| :: TranslatableElemField(e.val.entries[k])
      case All => e.val.List? && e.val.items != [] && AllSimple(e.val.items)
      case Not => e.val.Dict? && TranslatableOps(e.val.entries)
      case _ => false
  }

  predicate TranslatableOps(ops: seq<Entry>)
    decreases ops
  {
    ops != [] && forall k | 0 <= k < |ops| :: TranslatableOp(ops, ops[k])
  }

  predicate TranslatableEntry(e: Entry)
    decreases e
  {
    match e.key
    case Path(segs) => NamePath(segs) && if e.val.Dict? then TranslatableOps(e.val.entries) else Simple(e.val)
    case Dollar(op) =>
      if op == And || op == Or || op == Nor then
        e.val.List? && e.val.items != [] && forall k | 0 <= k < |e.val.items| :: TranslatableSub(e.val.items[k])
      else op == Hint || op == Select || (op == Not && e.val.Dict? && TranslatableQuery(e.val.entries))
  }

  predicate TranslatableSub(sub: Value)
    decreases sub
  {
    sub.Dict? && TranslatableQuery(sub.entries)
  }

  predicate TranslatableQuery(entries: seq<Entry>)
    decreases entries
  {
    forall k | 0 <= k < |entries| :: TranslatableEntry(entries[k])
  }

  lemma ForallCons<T(!new)>(items: seq<T>, good: T -> bool)
    requires items != []
    ensures (forall k | 0 <= k < |items| :: good(items[k])) <==> good(items[0]) && forall k | 0 <= k < |items[1..]| :: good(items[1..][k])
  {
    var rest := items[1..];
    assert forall k | 0 <= k < |rest| :: rest[k] == items[k + 1];
    assert forall k | 0 < k < |items| :: items[k] == rest[k - 1];
  }

  lemma {:induction false} ElemOpsDoneIff(ops: seq<Entry>, r: Ref)
    ensures CompileElemOps(ops, r).Done? <==> forall k | 0 <= k < |ops| :: TranslatableElemOp(ops[k])
    ensures CompileElemOps(ops, r).Done? ==> (CompileElemOps(ops, r).value == [] <==> ops == [])
  {
    if ops != [] {
      ElemOpsDoneIff(ops[1..], r);
      ForallCons(ops, e => TranslatableElemOp(e));
    }
  }

  lemma ElemFieldDoneIff(e: Entry)
    ensures CompileElemField(e).Done? <==> TranslatableElemField(e)
  {
    if e.key.Path? && e.val.Dict? { ElemOpsDoneIff(e.val.entries, ElemField(e.key.segs)); }
  }

  lemma {:induction false} ElemFieldsDoneIff(entries: seq<Entry>)
    ensures CompileElemFields(entries).Done? <==> forall k | 0 <= k < |entries| :: TranslatableElemField(entries[k])
    ensures CompileElemFields(entries).Done? ==> (CompileElemFields(entries).value == [] <==> entries == [])
  {
    if entries != [] {
      ElemFieldDoneIff(entries[0]);
      ElemFieldsDoneIff(entries[1..]);
      ForallCons(entries, e => TranslatableElemField(e));
    }
  }

  lemma {:induction false} OpsDoneIff(segs: seq<string>, all: seq<Entry>, ops: seq<Entry>)
    requires SafeFieldPath(segs)
    ensures CompileOps(segs, all, ops).Done? <==> forall k | 0 <= k < |ops| :: TranslatableOp(all, ops[k])
    decreases ops
  {
    if ops != [] {
      OpDoneIff(segs, all, ops[0]);
      OpsDoneIff(segs, all, ops[1..]);
      ForallCons(ops, e => TranslatableOp(all, e));
    }
  }

  lemma OpDoneIff(segs: seq<string>, all: seq<Entry>, e: Entry)
    requires SafeFieldPath(segs)
    ensures CompileOp(segs, all, e).Done? <==> TranslatableOp(all, e)
    decreases e
  {
    if e.key == Dollar(ElemMatch) {
      if e.val.Dict? { ElemFieldsDoneIff(e.val.entries); }
    } else if e.key == Dollar(Not) {
      if e.val.Dict? {
        OpsDoneIff(segs, e.val.entries, e.val.entries);
        AllOpsDoneIff(segs, e.val.entries);
      }
      NotDoneIff(segs, all, e);
    } else {
      PlainOpDoneIff(segs, all, e);
    }
  }

  lemma NotDoneIff(segs: seq<string>, all: seq<Entry>, e: Entry)
    requires SafeFieldPath(segs) && e.key == Dollar(Not)
    requires e.val.Dict? ==> (CompileField(segs, e.val).Done? <==> TranslatableOps(e.val.entries))
    ensures CompileOp(segs, all, e).Done? <==> TranslatableOp(all, e)
  {
  }

  lemma KeyIs(all: seq<Entry>, key: Key)
    ensures Get(all, key).Some? <==> HasKey(all, key)
  {
    if Get(all, key).Some? { GetIsFirst(all, key, Get(all, key).value); }
    if HasKey(all, key) { KeyFound(all, key); }
  }

  lemma {:induction false} KeyFound(all: seq<Entry>, key: Key)
    requires HasKey(all, key)
    ensures Get(all, key).Some?
  {
    if all[0].key != key {
      var k :| 0 <= k < |all| && all[k].key == key;
      assert all[1..][k - 1].key == key;
      KeyFound(all[1..], key);
    }
  }

  lemma FlagsAre(all: seq<Entry>)
    ensures OnlyIgnoreCase(RegexFlags(Get(all, Dollar(Options)))) <==> NoOtherFlags(all)
  {
    forall v { GetIsFirst(all, Dollar(Options), v); }
    var x := Get(all, Dollar(Options));
    if x.Some? && x.value.Str? {
      var k :| 0 <= k < |all| && all[k] == Entry(Dollar(Options), x.value) && forall j | 0 <= j < k :: all[j].key != Dollar(Options);
      assert all[k].val.s == RegexFlags(x);
    }
  }

  lemma PlainOpDoneIff(segs: seq<string>, all: seq<Entry>, e: Entry)
    requires SafeFieldPath(segs) && e.key != Dollar(ElemMatch) && e.key != Dollar(Not)
    ensures CompileOp(segs, all, e).Done? <==> TranslatableOp(all, e)
  {
    KeyIs(all, Dollar(Regex));
    FlagsAre(all);
  }

  lemma {:induction false} NoFactors(segs: seq<string>, all: seq<Entry>, ops: seq<Entry>, k: nat)
    requires SafeFieldPath(segs) && CompileOps(segs, all, ops) == Done([]) && k < |ops|
    ensures ops[k].key == Dollar(Options)
    decreases |ops|
  {
    if k > 0 { NoFactors(segs, all, ops[1..], k - 1); }
  }

  /** `$options` does not stand alone, so an operator dictionary that translates has a test. */
  lemma AllOpsDoneIff(segs: seq<string>, ops: seq<Entry>)
    requires SafeFieldPath(segs)
    requires CompileOps(segs, ops, ops).Done? <==> forall k | 0 <= k < |ops| :: TranslatableOp(ops, ops[k])
    ensures CompileField(segs, Dict(ops)).Done? <==> TranslatableOps(ops)
  {
    if ops != [] && CompileOps(segs, ops, ops) == Done([]) {
      NoFactors(segs, ops, ops, 0);
      assert TranslatableOp(ops, ops[0]);
      var k :| 0 <= k < |ops| && ops[k].key == Dollar(Regex);
      NoFactors(segs, ops, ops, k);
    }
  }

  /** A query is translated if and only if all its parts are among the forms listed above. */
  lemma {:induction false} TranslatedIff(entries: seq<Entry>)
    ensures CompileQuery(entries).Done? <==> TranslatableQuery(entries)
    decreases entries
  {
    if entries != [] {
      EntryDoneIff(entries[0]);
      TranslatedIff(entries[1..]);
      ForallCons(entries, e => TranslatableEntry(e));
    }
  }

  lemma EntryDoneIff(e: Entry)
    ensures CompileEntry(e).Done? <==> TranslatableEntry(e)
    decreases e
  {
    match e.key {
      case Path(segs) =>
        PathIs(segs);
        if SafeFieldPath(segs) && e.val.Dict? {
          OpsDoneIff(segs, e.val.entries, e.val.entries);
          AllOpsDoneIff(segs, e.val.entries);
          assert Dict(e.val.entries) == e.val;
        }
      case Dollar(op) =>
        if e.val.List? { SubsDoneIff(e.val.items); }
        if e.val.Dict? { TranslatedIff(e.val.entries); }
    }
  }

  lemma {:induction false} SubsDoneIff(subs: seq<Value>)
    ensures CompileSubs(subs).Done? <==> forall k | 0 <= k < |subs| :: TranslatableSub(subs[k])
    decreases subs
  {
    if subs != [] {
      if subs[0].Dict? { TranslatedIff(subs[0].entries); }
      SubsDoneIff(subs[1..]);
      ForallCons(subs, (sub: Value) => TranslatableSub(sub));
    }
  }

  // ---------- the exception ----------

  /** An operator on the element itself that is no comparator, with a scalar operand. */
  predicate BareOperator(e: Entry) {
    e.key.Dollar? && !Compares(e.key.op) && Simple(e.val)
  }

  /** Behind sub-conditions that all translate. */
  predicate BareReached(entries: seq<Entry>) {
    exists k | 0 <= k < |entries| :: BareOperator(entries[k]) && forall j | 0 <= j < k :: TranslatableElemField(entries[j])
  }

  /** In an `$elemMatch`, below any number of `$not`, behind operators that all translate. */
  predicate ReachedInOps(segs: seq<string>, all: seq<Entry>, ops: seq<Entry>)
    requires NamePath(segs)
    decreases ops
  {
    exists k | 0 <= k < |ops| :: ReachedInOp(segs, ops[k]) && forall j | 0 <= j < k :: TranslatableOp(all, ops[j])
  }

  predicate ReachedInOp(segs: seq<string>, e: Entry)
    requires NamePath(segs)
    decreases e
  {
    && e.val.Dict?
    && ((e.key == Dollar(ElemMatch) && BareReached(e.val.entries))
        || (e.key == Dollar(Not) && ReachedInOps(segs, e.val.entries, e.val.entries)))
  }

  /** In a query, behind entries and sub-queries that all translate. */
  predicate ReachedInQuery(entries: seq<Entry>)
    decreases entries
  {
    exists k | 0 <= k < |entries| :: ReachedInEntry(entries[k]) && forall j | 0 <= j < k :: TranslatableEntry(entries[j])
  }

  predicate ReachedInEntry(e: Entry)
    decreases e
  {
    match e.key
    case Path(segs) => NamePath(segs) && e.val.Dict? && ReachedInOps(segs, e.val.entries, e.val.entries)
    case Dollar(op) =>
      if op.And? || op.Or? || op.Nor? then e.val.List? && ReachedInSubs(e.val.items)
      else op.Not? && e.val.Dict? && ReachedInQuery(e.val.entries)
  }

  predicate ReachedInSubs(subs: seq<Value>)
    decreases subs
  {
    exists k | 0 <= k < |subs| :: subs[k].Dict? && ReachedInQuery(subs[k].entries) && forall j | 0 <= j < k :: TranslatableSub(subs[j])
  }

  /** The first of the items that is not good is bad. */
  predicate FirstBad<T(!new)>(items: seq<T>, bad: T -> bool, good: T -> bool) {
    exists k | 0 <= k < |items| :: bad(items[k]) && forall j | 0 <= j < k :: good(items[j])
  }

  lemma HeadOrRest<T(!new)>(items: seq<T>, bad: T -> bool, good: T -> bool)
    requires items != []
    ensures FirstBad(items, bad, good) <==> bad(items[0]) || (good(items[0]) && FirstBad(items[1..], bad, good))
  {
    var rest := items[1..];
    if k :| 0 <= k < |rest| && bad(rest[k]) && forall j | 0 <= j < k :: good(rest[j]) {
      assert rest[k] == items[k + 1];
      assert good(items[0]) ==> forall j | 0 <= j < k + 1 :: good(items[j]) by {
        forall j | 0 < j < k + 1 ensures good(items[j]) { assert items[j] == rest[j - 1]; }
      }
    }
    if k :| 0 < k < |items| && bad(items[k]) && forall j | 0 <= j < k :: good(items[j]) {
      assert rest[k - 1] == items[k] && forall j | 0 <= j < k - 1 :: rest[j] == items[j + 1];
    }
  }

  lemma {:induction false} ElemOpsDoNotRaise(ops: seq<Entry>, r: Ref)
    ensures !CompileElemOps(ops, r).KeyError?
  {
    if ops != [] { ElemOpsDoNotRaise(ops[1..], r); }
  }

  lemma ElemFieldRaisesIff(e: Entry)
    ensures CompileElemField(e).KeyError? <==> BareOperator(e)
  {
    if e.key.Path? && e.val.Dict? { ElemOpsDoNotRaise(e.val.entries, ElemField(e.key.segs)); }
  }

  lemma {:induction false} ElemFieldsRaiseIff(entries: seq<Entry>)
    ensures CompileElemFields(entries).KeyError? <==> BareReached(entries)
  {
    if entries != [] {
      ElemFieldRaisesIff(entries[0]);
      ElemFieldsRaiseIff(entries[1..]);
      ElemFieldDoneIff(entries[0]);
      HeadOrRest(entries, e => BareOperator(e), e => TranslatableElemField(e));
    }
  }

  lemma {:induction false} OpsRaiseIff(segs: seq<string>, all: seq<Entry>, ops: seq<Entry>)
    requires SafeFieldPath(segs) && NamePath(segs)
    ensures CompileOps(segs, all, ops).KeyError? <==> ReachedInOps(segs, all, ops)
    decreases ops
  {
    if ops != [] {
      OpRaisesIff(segs, all, ops[0]);
      OpsRaiseIff(segs, all, ops[1..]);
      OpDoneIff(segs, all, ops[0]);
      HeadOrRest(ops, e => ReachedInOp(segs, e), e => TranslatableOp(all, e));
    }
  }

  lemma OpRaisesIff(segs: seq<string>, all: seq<Entry>, e: Entry)
    requires SafeFieldPath(segs) && NamePath(segs)
    ensures CompileOp(segs, all, e).KeyError? <==> ReachedInOp(segs, e)
    decreases e
  {
    if e.key == Dollar(ElemMatch) {
      ElemMatchRaisesIff(segs, all, e);
    } else if e.key == Dollar(Not) {
      if e.val.Dict? { OpsRaiseIff(segs, e.val.entries, e.val.entries); }
      NotRaisesIff(segs, all, e);
    } else {
      OthersDoNotRaise(segs, all, e);
    }
  }

  lemma ElemMatchRaisesIff(segs: seq<string>, all: seq<Entry>, e: Entry)
    requires SafeFieldPath(segs) && NamePath(segs) && e.key == Dollar(ElemMatch)
    ensures CompileOp(segs, all, e).KeyError? <==> ReachedInOp(segs, e)
  {
    if e.val.Dict? { ElemFieldsRaiseIff(e.val.entries); }
  }

  lemma NotRaisesIff(segs: seq<string>, all: seq<Entry>, e: Entry)
    requires SafeFieldPath(segs) && NamePath(segs) && e.key == Dollar(Not)
    requires e.val.Dict? ==> (CompileOps(segs, e.val.entries, e.val.entries).KeyError? <==> ReachedInOps(segs, e.val.entries, e.val.entries))
    ensures CompileOp(segs, all, e).KeyError? <==> ReachedInOp(segs, e)
  {
    if e.val.Dict? { assert CompileNot(segs, e.val).KeyError? <==> CompileOps(segs, e.val.entries, e.val.entries).KeyError?; }
  }

  lemma OthersDoNotRaise(segs: seq<string>, all: seq<Entry>, e: Entry)
    requires SafeFieldPath(segs) && NamePath(segs) && e.key != Dollar(ElemMatch) && e.key != Dollar(Not)
    ensures !CompileOp(segs, all, e).KeyError? && !ReachedInOp(segs, e)
  {
  }

  /** The translator raises instead of falling back exactly if it comes to an operator of an
      `$elemMatch` that applies to the element itself, is no comparator and has a scalar operand, before
      it comes to anything else that it cannot translate. */
  lemma {:induction false} RaisesIff(entries: seq<Entry>)
    ensures CompileQuery(entries).KeyError? <==> ReachedInQuery(entries)
    decreases entries
  {
    if entries != [] {
      EntryRaisesIff(entries[0]);
      RaisesIff(entries[1..]);
      EntryDoneIff(entries[0]);
      HeadOrRest(entries, e => ReachedInEntry(e), e => TranslatableEntry(e));
    }
  }

  lemma EntryRaisesIff(e: Entry)
    ensures CompileEntry(e).KeyError? <==> ReachedInEntry(e)
    decreases e
  {
    match e.key {
      case Path(segs) =>
        PathIs(segs);
        if SafeFieldPath(segs) && e.val.Dict? { OpsRaiseIff(segs, e.val.entries, e.val.entries); }
      case Dollar(op) =>
        if e.val.List? { SubsRaiseIff(e.val.items); }
        if e.val.Dict? { RaisesIff(e.val.entries); }
    }
  }

  lemma {:induction false} SubsRaiseIff(subs: seq<Value>)
    ensures CompileSubs(subs).KeyError? <==> ReachedInSubs(subs)
    decreases subs
  {
    if subs != [] {
      if subs[0].Dict? {
        RaisesIff(subs[0].entries);
        TranslatedIff(subs[0].entries);
      }
      SubsRaiseIff(subs[1..]);
      HeadOrRest(subs, (sub: Value) => sub.Dict? && ReachedInQuery(sub.entries), (sub: Value) => TranslatableSub(sub));
    }
  }

  // ---------- a concrete input ----------

  /** `{items: {$elemMatch: {$exists: true}}}` raises. */
  lemma BareElemOperatorRaises()
    ensures Emitted([Entry(Path(["items"]), Dict([Entry(Dollar(ElemMatch), Dict([Entry(Dollar(Exists), Bool(true))]))]))]) == KeyError
  {
    var elem := [Entry(Dollar(Exists), Bool(true))];
    var ops := [Entry(Dollar(ElemMatch), Dict(elem))];
    var query := [Entry(Path(["items"]), Dict(ops))];
    assert CompileElemField(elem[0]) == KeyError;
    assert CompileElemFields(elem) == KeyError;
    assert SafeSegment("items");
    assert SafeFieldPath(["items"]);
    assert CompileOp(["items"], ops, ops[0]) == KeyError;
    assert CompileOps(["items"], ops, ops) == KeyError;
    assert CompileField(["items"], query[0].val) == KeyError;
    assert CompileEntry(query[0]) == KeyError;
  }
}
