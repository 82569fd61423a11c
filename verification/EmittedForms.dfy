/** The text and the bound values emitted for single clauses, and the answers they give, in terms of the
    clause alone. */
module EmittedForms {
  import opened MongoQuery
  import opened QueryReference
  import opened SqlText
  import opened Translator
  import opened SqlMeaning
  import opened TranslationTheorems
  import opened TranslatableForms

  // ---------- whole queries ----------

  /** Where every field below a negation is present, SQL returns exactly the records that satisfy the query. */
  lemma AnswersAsAsked(query: seq<Entry>, row: Value)
    requires Comparable(query, row)
    ensures Answer(query, row) == Yes ==> Satisfies(row, query)
    ensures Answer(query, row) == No ==> !Satisfies(row, query)
    ensures Settled(row, query) ==> (Answer(query, row) == Yes <==> Satisfies(row, query))
  {
    AnswerSound(query, row);
    if Settled(row, query) { AnswerExact(query, row); }
    MatchIsSatisfies(row, query);
  }

  // ---------- one test ----------

  /** A field is read from the column of its name if there is one, and else from its path in the data. */
  function ReadsFrom(segs: seq<string>): Ref {
    if segs == ["entity"] then Column("entity")
    else if segs == ["id"] then Column("id")
    else if segs == ["tenant_id"] then Column("tenant_id")
    else Data(segs)
  }

  lemma FieldRefIs(segs: seq<string>)
    ensures FieldRef(segs) == ReadsFrom(segs)
  {
    if |segs| == 1 { assert segs == [segs[0]]; }
  }

  /** The text of one test, its placeholders numbered from 1. */
  lemma OneTestText(segs: seq<string>, cond: Value, p: Pred<Param>)
    requires CompileField(segs, cond) == Done(Plainly(p))
    ensures Emitted([Entry(Path(segs), cond)]) == Done(([PredTok(Number(p, 0))], PredValues(p)))
    ensures CompileQuery([Entry(Path(segs), cond)]) == Done(Plainly(p))
  {
    var query := [Entry(Path(segs), cond)];
    assert query[1..] == [];
    assert CompileQuery(query) == Then(CompileEntry(query[0]), CompileQuery(query[1..]));
    assert Plainly(p) + [] == Plainly(p);
    OneTest(p, 0);
  }

  lemma OneOpText(segs: seq<string>, e: Entry, p: Pred<Param>)
    requires SafeFieldPath(segs) && CompileOp(segs, [e], e) == Done(Plainly(p))
    ensures Emitted([Entry(Path(segs), Dict([e]))]) == Done(([PredTok(Number(p, 0))], PredValues(p)))
    ensures CompileQuery([Entry(Path(segs), Dict([e]))]) == Done(Plainly(p))
  {
    var ops := [e];
    assert ops[1..] == [] && CompileOps(segs, ops, ops[1..]) == Done([]);
    assert CompileOps(segs, ops, ops) == Then(CompileOp(segs, ops, ops[0]), CompileOps(segs, ops, ops[1..]));
    assert Plainly(p) + [] == Plainly(p);
    OneTestText(segs, Dict(ops), p);
  }

  /** `{f: c}`: null by IS NULL, anything else by an equality of its own kind. */
  lemma EqualityText(segs: seq<string>, c: Value)
    requires NamePath(segs) && Simple(c)
    ensures Emitted([Entry(Path(segs), c)]) ==
            if c == Null then Done(([PredTok(IsNull(ReadsFrom(segs)))], []))
            else Done(([PredTok(Compare(REq, if c.Bool? then BoolKind else if c.Str? then TextKind else NumberKind, ReadsFrom(segs), 1))], [Bound(c)]))
  {
    PathIs(segs);
    FieldRefIs(segs);
    if c == Null {
      OneTestText(segs, c, IsNull(ReadsFrom(segs)));
    } else {
      OneTestText(segs, c, EqTest(ReadsFrom(segs), c));
    }
  }

  /** `{f: {$exists: v}}`: IS NULL for what Python counts as false, IS NOT NULL for everything else. */
  lemma ExistsText(segs: seq<string>, v: Value)
    requires NamePath(segs)
    ensures Emitted([Entry(Path(segs), Dict([Entry(Dollar(Exists), v)]))]) ==
            Done(([PredTok(if Falsy(v) then IsNull(ReadsFrom(segs)) else NotNull(ReadsFrom(segs)))], []))
    ensures CompileQuery([Entry(Path(segs), Dict([Entry(Dollar(Exists), v)]))]) ==
            Done(Plainly(if Falsy(v) then IsNull(ReadsFrom(segs)) else NotNull(ReadsFrom(segs))))
  {
    PathIs(segs);
    FieldRefIs(segs);
    OneOpText(segs, Entry(Dollar(Exists), v), if Falsy(v) then IsNull(ReadsFrom(segs)) else NotNull(ReadsFrom(segs)));
  }

  /** Its answer, for every record: true if and only if the field is present where `v` counts as true, and if
      and only if it is absent where `v` counts as false. */
  lemma ExistsAnswer(segs: seq<string>, v: Value, row: Value)
    requires NamePath(segs) && Trimmed(segs) == segs
    ensures Answer([Entry(Path(segs), Dict([Entry(Dollar(Exists), v)]))], row) == Yes <==>
            if Falsy(v) then forall w :: !LeadsTo(row, segs, w) else exists w :: LeadsTo(row, segs, w)
  {
    var query := [Entry(Path(segs), Dict([Entry(Dollar(Exists), v)]))];
    var p: Pred<Param> := if Falsy(v) then IsNull(ReadsFrom(segs)) else NotNull(ReadsFrom(segs));
    ExistsText(segs, v);
    AnswerOfTest(query, p, row);
    FieldRefIs(segs);
    FieldRefReads(segs, row);
    forall w { WalkLeads(row, segs, w); }
  }

  lemma AnswerOfTest(query: seq<Entry>, p: Pred<Param>, row: Value)
    requires CompileQuery(query) == Done(Plainly(p)) && HasText(query) && NoEmptySubquery(query)
    ensures Answer(query, row) == EvalPred(p, row)
  {
    var fs := Plainly(p);
    TextReadsBack(query);
    EvalOne(fs[0], row);
    assert EvalAlts([Conj(fs)], row) == Or3(EvalConj(fs, row), EvalAlts([Conj(fs)][1..], row));
  }

  /** The matcher's: a null counts as missing there. */
  lemma ExistsMatch(segs: seq<string>, v: Value, doc: Value)
    ensures Match(doc, [Entry(Path(segs), Dict([Entry(Dollar(Exists), v)]))]) <==>
            if Falsy(v) then forall w :: LeadsTo(doc, segs, w) ==> w == Null else exists w :: LeadsTo(doc, segs, w) && w != Null
  {
    var ops := [Entry(Dollar(Exists), v)];
    var query := [Entry(Path(segs), Dict(ops))];
    var x := Walk(doc, segs);
    assert ops[1..] == [];
    OneEntry(doc, query[0], Plain);
    assert MatchOps(x, ops, Plain) == (MatchOp(x, ops[0], Plain) && MatchOps(x, ops[1..], Plain));
    assert Match(doc, query) <==> (Falsy(v) <==> Nothing(x)) by { ExistsIs(x, v); }
    NothingLeads(doc, segs);
  }

  lemma NothingLeads(doc: Value, segs: seq<string>)
    ensures Nothing(Walk(doc, segs)) <==> forall w :: LeadsTo(doc, segs, w) ==> w == Null
    ensures !Nothing(Walk(doc, segs)) <==> exists w :: LeadsTo(doc, segs, w) && w != Null
  {
    forall w ensures Walk(doc, segs) == Some(w) <==> LeadsTo(doc, segs, w) { WalkLeads(doc, segs, w); }
    if Walk(doc, segs).Some? { assert LeadsTo(doc, segs, Walk(doc, segs).value); }
  }

  predicate OrderedBy(op: Op, rel: Rel) {
    (op == Gt && rel == RGt) || (op == Gte && rel == RGte) || (op == Lt && rel == RLt) || (op == Lte && rel == RLte)
  }

  /** `$gt`, `$gte`, `$lt` and `$lte` with a number or a string. */
  lemma OrderText(segs: seq<string>, op: Op, rel: Rel, c: Value)
    requires NamePath(segs) && OrderedBy(op, rel) && (Numeric(c) || c.Str?)
    ensures Emitted([Entry(Path(segs), Dict([Entry(Dollar(op), c)]))]) ==
            Done(([PredTok(Compare(rel, if c.Str? then TextKind else NumberKind, ReadsFrom(segs), 1))], [Bound(c)]))
  {
    PathIs(segs);
    FieldRefIs(segs);
    OneOpText(segs, Entry(Dollar(op), c), Compare(rel, if c.Str? then TextKind else NumberKind, ReadsFrom(segs), Bound(c)));
  }

  /** What a list of simple values is compared as: texts, numbers as floats, or JSON texts. */
  function ListTest(items: seq<Value>, r: Ref): Pred<Param> {
    if forall k | 0 <= k < |items| :: items[k].Str? then AnyOf(TextArray, r, Bound(List(items)))
    else if forall k | 0 <= k < |items| :: Numeric(items[k]) then AnyOf(NumberArray, r, Bound(List(AsFloats(items))))
    else AnyOf(JsonArray, r, JsonTexts(items))
  }

  function AsFloats(items: seq<Value>): (floats: seq<Value>)
    ensures |floats| == |items|
    ensures forall k | 0 <= k < |items| :: floats[k] == if items[k].Int? then Float(items[k].i as real) else items[k]
  {
    seq(|items|, k requires 0 <= k < |items| => if items[k].Int? then Float(items[k].i as real) else items[k])
  }

  lemma InTestIs(items: seq<Value>, r: Ref)
    ensures InTest(items, r) == ListTest(items, r)
  {
    if AllNumbers(items) {
      assert forall k | 0 <= k < |items| :: Floats(items)[k] == AsFloats(items)[k];
      assert Floats(items) == AsFloats(items);
    }
  }

  /** `$in` with a list of simple values; an empty one is never true. */
  lemma InText(segs: seq<string>, items: seq<Value>)
    requires NamePath(segs) && AllSimple(items)
    ensures var p: Pred<Param> := if items == [] then Constant(false) else ListTest(items, ReadsFrom(segs));
            Emitted([Entry(Path(segs), Dict([Entry(Dollar(In), List(items))]))]) == Done(([PredTok(Number(p, 0))], PredValues(p)))
  {
    var p: Pred<Param> := if items == [] then Constant(false) else ListTest(items, ReadsFrom(segs));
    PathIs(segs);
    FieldRefIs(segs);
    InTestIs(items, ReadsFrom(segs));
    OneOpText(segs, Entry(Dollar(In), List(items)), p);
  }

  /** `$nin`: the field is missing or not in the list; an empty list is always true. */
  lemma NotInText(segs: seq<string>, items: seq<Value>)
    requires NamePath(segs) && AllSimple(items)
    ensures var p := ListTest(items, ReadsFrom(segs));
            Emitted([Entry(Path(segs), Dict([Entry(Dollar(Nin), List(items))]))]) ==
            if items == [] then Done(([PredTok(Constant(true))], []))
            else Done(([Open, PredTok(IsNull(ReadsFrom(segs))), OrTok, NotTok, Open, PredTok(Number(p, 0)), Close, Close], PredValues(p)))
  {
    PathIs(segs);
    FieldRefIs(segs);
    InTestIs(items, ReadsFrom(segs));
    var e, r, p := Entry(Dollar(Nin), List(items)), ReadsFrom(segs), ListTest(items, ReadsFrom(segs));
    if items == [] {
      OneOpText(segs, e, Constant(true));
    } else {
      OneClauseText(segs, e, NullOrNot(r, p));
      NullOrNotPrints(r, p, 0);
    }
  }

  lemma OneClauseText(segs: seq<string>, e: Entry, fs: seq<Factor>)
    requires SafeFieldPath(segs) && CompileOp(segs, [e], e) == Done(fs) && fs != []
    ensures Emitted([Entry(Path(segs), Dict([e]))]) == Done((Print(fs, 0), Values(fs)))
  {
    var ops := [e];
    var query := [Entry(Path(segs), Dict(ops))];
    assert ops[1..] == [] && CompileOps(segs, ops, ops[1..]) == Done([]);
    assert CompileOps(segs, ops, ops) == Then(CompileOp(segs, ops, ops[0]), CompileOps(segs, ops, ops[1..]));
    assert query[1..] == [];
    assert CompileQuery(query) == Then(CompileEntry(query[0]), CompileQuery(query[1..]));
    assert fs + [] == fs;
  }

  /** `$ne`: null by IS NOT NULL, anything else by a missing or different field. */
  lemma NotEqualText(segs: seq<string>, c: Value)
    requires NamePath(segs) && Simple(c)
    ensures var kind := if c.Bool? then BoolKind else if c.Str? then TextKind else NumberKind;
            Emitted([Entry(Path(segs), Dict([Entry(Dollar(Ne), c)]))]) ==
            if c == Null then Done(([PredTok(NotNull(ReadsFrom(segs)))], []))
            else Done(([Open, PredTok(IsNull(ReadsFrom(segs))), OrTok, NotTok, Open, PredTok(Compare(REq, kind, ReadsFrom(segs), 1)), Close, Close], [Bound(c)]))
  {
    PathIs(segs);
    FieldRefIs(segs);
    var e, r := Entry(Dollar(Ne), c), ReadsFrom(segs);
    if c == Null {
      OneOpText(segs, e, NotNull(r));
    } else {
      OneClauseText(segs, e, NullOrNot(r, EqTest(r, c)));
      NullOrNotPrints(r, EqTest(r, c), 0);
    }
  }

  /** `$regex`: case counts where no flags are given. */
  lemma RegexText(segs: seq<string>, pattern: string)
    requires NamePath(segs)
    ensures Emitted([Entry(Path(segs), Dict([Entry(Dollar(Regex), Str(pattern))]))]) ==
            Done(([PredTok(RegexMatch(ReadsFrom(segs), false, 1))], [Bound(Str(pattern))]))
  {
    PathIs(segs);
    FieldRefIs(segs);
    var e := Entry(Dollar(Regex), Str(pattern));
    var alone := [e];
    assert alone[1..] == [] && Get(alone, Dollar(Options)) == Get(alone[1..], Dollar(Options));
    OneOpText(segs, e, RegexMatch(ReadsFrom(segs), false, Bound(Str(pattern))));
  }

  /** With flags it counts exactly if there is no `i` among them. */
  lemma FlaggedRegexText(segs: seq<string>, pattern: string, flags: string)
    requires NamePath(segs) && forall i | 0 <= i < |flags| :: flags[i] == 'i'
    ensures Emitted([Entry(Path(segs), Dict([Entry(Dollar(Regex), Str(pattern)), Entry(Dollar(Options), Str(flags))]))]) ==
            Done(([PredTok(RegexMatch(ReadsFrom(segs), 'i' in flags, 1))], [Bound(Str(pattern))]))
  {
    PathIs(segs);
    FieldRefIs(segs);
    var ops := [Entry(Dollar(Regex), Str(pattern)), Entry(Dollar(Options), Str(flags))];
    FlaggedCompiles(segs, pattern, flags);
    OneTestText(segs, Dict(ops), RegexMatch(ReadsFrom(segs), 'i' in flags, Bound(Str(pattern))));
  }

  lemma FlaggedCompiles(segs: seq<string>, pattern: string, flags: string)
    requires SafeFieldPath(segs) && forall i | 0 <= i < |flags| :: flags[i] == 'i'
    ensures CompileField(segs, Dict([Entry(Dollar(Regex), Str(pattern)), Entry(Dollar(Options), Str(flags))])) ==
            Done(Plainly(RegexMatch(FieldRef(segs), 'i' in flags, Bound(Str(pattern)))))
  {
    var e, o := Entry(Dollar(Regex), Str(pattern)), Entry(Dollar(Options), Str(flags));
    var p := RegexMatch(FieldRef(segs), 'i' in flags, Bound(Str(pattern)));
    var ops := [e, o];
    assert ops[1..] == [o] && [o][1..] == [];
    assert Get(ops, Dollar(Options)) == Get([o], Dollar(Options)) == Some(Str(flags));
    assert flags != "" <==> 'i' in flags by { if flags != "" { assert flags[0] == 'i'; } }
    assert CompileOp(segs, ops, e) == Done(Plainly(p)) && CompileOp(segs, ops, o) == Done([]);
    TwoOpsCompile(segs, ops, e, o, Plainly(p), []);
    assert Plainly(p) + [] == Plainly(p);
  }

  lemma TwoOpsCompile(segs: seq<string>, all: seq<Entry>, e: Entry, o: Entry, fs: seq<Factor>, gs: seq<Factor>)
    requires SafeFieldPath(segs) && CompileOp(segs, all, e) == Done(fs) && CompileOp(segs, all, o) == Done(gs)
    ensures CompileOps(segs, all, [e, o]) == Done(fs + gs)
  {
    assert [e, o][1..] == [o] && [o][1..] == [];
    assert CompileOps(segs, all, [o]) == Then(Done(gs), CompileOps(segs, all, []));
    assert gs + [] == gs;
  }

  /** `$mod`: divisor and remainder as floats. */
  lemma ModuloText(segs: seq<string>, d: Value, r: Value)
    requires NamePath(segs) && Numeric(d) && Numeric(r)
    ensures Emitted([Entry(Path(segs), Dict([Entry(Dollar(Mod), List([d, r]))]))]) ==
            Done(([PredTok(Modulo(ReadsFrom(segs), 1, 2))],
                  [Bound(if d.Int? then Float(d.i as real) else d), Bound(if r.Int? then Float(r.i as real) else r)]))
  {
    PathIs(segs);
    FieldRefIs(segs);
    OneOpText(segs, Entry(Dollar(Mod), List([d, r])),
      Modulo(ReadsFrom(segs), Bound(if d.Int? then Float(d.i as real) else d), Bound(if r.Int? then Float(r.i as real) else r)));
  }

  /** The name that jsonb_typeof has for an accepted type name. */
  predicate JsonType(name: string, pg: string) {
    || (name in {"string", "object", "array", "null"} && pg == name)
    || (name in {"number", "int", "double", "long"} && pg == "number")
    || (name in {"bool", "boolean"} && pg == "boolean")
  }

  lemma TypeCompiles(segs: seq<string>, name: string, pg: string)
    requires NamePath(segs) && SafeFieldPath(segs) && JsonType(name, pg)
    ensures var e := Entry(Dollar(Type), Str(name)); CompileOp(segs, [e], e) == Done(Plainly(TypeOf(ReadsFrom(segs), Bound(Str(pg)))))
  {
    FieldRefIs(segs);
    assert PgTypeName(name) == Some(pg);
  }

  lemma TypeText(segs: seq<string>, name: string, pg: string)
    requires NamePath(segs) && JsonType(name, pg)
    ensures Emitted([Entry(Path(segs), Dict([Entry(Dollar(Type), Str(name))]))]) ==
            Done(([PredTok(TypeOf(ReadsFrom(segs), 1))], [Bound(Str(pg))]))
    ensures CompileQuery([Entry(Path(segs), Dict([Entry(Dollar(Type), Str(name))]))])
            == Done(Plainly(TypeOf(ReadsFrom(segs), Bound(Str(pg)))))
  {
    PathIs(segs);
    TypeCompiles(segs, name, pg);
    OneOpText(segs, Entry(Dollar(Type), Str(name)), TypeOf(ReadsFrom(segs), Bound(Str(pg))));
  }

  /** SQL takes a name for the JSON type and the matcher for the Python type. They differ on numbers, on
      booleans, which Python counts as whole numbers, and on a missing field, which Python counts as null. */
  predicate NamedAlike(x: Option<Value>, name: string) {
    match x
    case None => name != "null"
    case Some(Int(_)) => name !in {"number", "double"}
    case Some(Float(_)) => name !in {"number", "int", "long"}
    case Some(Bool(_)) => name !in {"int", "long"}
    case Some(_) => true
  }

  lemma TypeAnswer(segs: seq<string>, name: string, pg: string, row: Value)
    requires NamePath(segs) && Trimmed(segs) == segs && JsonType(name, pg)
    ensures Answer([Entry(Path(segs), Dict([Entry(Dollar(Type), Str(name))]))], row) == Yes
            <==> Walk(row, segs).Some? && PgTypeof(Walk(row, segs).value) == pg
  {
    var query := [Entry(Path(segs), Dict([Entry(Dollar(Type), Str(name))]))];
    TypeText(segs, name, pg);
    AnswerOfTest(query, TypeOf(ReadsFrom(segs), Bound(Str(pg))), row);
    FieldRefIs(segs);
    FieldRefReads(segs, row);
  }

  lemma TypeMatch(segs: seq<string>, name: string, doc: Value)
    ensures Match(doc, [Entry(Path(segs), Dict([Entry(Dollar(Type), Str(name))]))])
            <==> PyTypeIs(if Walk(doc, segs).Some? then Walk(doc, segs).value else Null, Str(name))
  {
    var ops := [Entry(Dollar(Type), Str(name))];
    var query := [Entry(Path(segs), Dict(ops))];
    var x := Walk(doc, segs);
    assert ops[1..] == [];
    OneEntry(doc, query[0], Plain);
    assert MatchOps(x, ops, Plain) == (MatchOp(x, ops[0], Plain) && MatchOps(x, ops[1..], Plain));
  }

  lemma NamesCoincide(x: Option<Value>, name: string, pg: string)
    requires JsonType(name, pg)
    ensures ((x.Some? && PgTypeof(x.value) == pg) <==> PyTypeIs(if x.Some? then x.value else Null, Str(name)))
            <==> NamedAlike(x, name)
    ensures TypedTypeName(x, name) <==> NamedAlike(x, name)
  {
  }

  /** SQL answers as the matcher exactly where the two meanings of the name coincide. */
  lemma TypeExactIff(segs: seq<string>, name: string, pg: string, row: Value)
    requires NamePath(segs) && Trimmed(segs) == segs && JsonType(name, pg)
    ensures var query := [Entry(Path(segs), Dict([Entry(Dollar(Type), Str(name))]))];
            (Answer(query, row) == Yes <==> Match(row, query)) <==> NamedAlike(Walk(row, segs), name)
    ensures TypedTypeName(Walk(row, segs), name) <==> NamedAlike(Walk(row, segs), name)
  {
    TypeAnswer(segs, name, pg, row);
    TypeMatch(segs, name, row);
    NamesCoincide(Walk(row, segs), name, pg);
  }
}
