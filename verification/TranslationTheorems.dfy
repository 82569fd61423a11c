/** The main results about the query translator: when its text is readable, what the database
    answers for it, and how that answer relates to the in-memory matcher. */
module TranslationTheorems {
  import opened MongoQuery
  import opened SqlText
  import opened Translator
  import opened SqlMeaning

  // ---------- readable text ----------

  /** Some key of the query produces text. */
  predicate HasText(entries: seq<Entry>) {
    exists k | 0 <= k < |entries| :: entries[k].key != Dollar(Hint) && entries[k].key != Dollar(Select)
  }

  /** No sub-query of `$and`, `$or`, `$nor` or top-level `$not` is without text, at any depth. */
  predicate NoEmptySubquery(entries: seq<Entry>)
    decreases entries
  {
    if entries == [] then true else NoEmptyBelow(entries[0]) && NoEmptySubquery(entries[1..])
  }

  predicate NoEmptyBelow(e: Entry)
    decreases e
  {
    match e.key
    case Path(_) => true
    case Dollar(op) =>
      if op.And? || op.Or? || op.Nor? then e.val.List? ==> NoEmptyAmong(e.val.items)
      else if op.Not? then e.val.Dict? ==> HasText(e.val.entries) && NoEmptySubquery(e.val.entries)
      else true
  }

  predicate NoEmptyAmong(subs: seq<Value>)
    decreases subs
  {
    if subs == [] then true
    else (subs[0].Dict? ==> HasText(subs[0].entries) && NoEmptySubquery(subs[0].entries)) && NoEmptyAmong(subs[1..])
  }

  lemma {:induction false} SolidConcat(a: seq<Factor>, b: seq<Factor>)
    ensures SolidFactors(a + b) == (SolidFactors(a) && SolidFactors(b))
  {
    if a == [] {
      assert a + b == b;
    } else {
      assert (a + b)[1..] == a[1..] + b;
      SolidConcat(a[1..], b);
    }
  }

  lemma SolidOne(f: Factor)
    ensures SolidFactors([f]) == SolidPrimary(f.prim)
  {
  }

  lemma SolidGroup(negated: bool, fs: seq<Factor>)
    ensures SolidFactors([Factor(negated, Paren([Conj(fs)]))]) == Solid(fs)
  {
    SolidOne(Factor(negated, Paren([Conj(fs)])));
    assert SolidAlts([Conj(fs)][1..]);
  }

  lemma SolidNullOrNot(r: Ref, p: Pred<Param>)
    ensures SolidFactors(NullOrNot(r, p))
  {
    var negated := Factor(true, Paren([Conj(Plainly(p))]));
    var alts := [Conj(Plainly(IsNull(r))), Conj([negated])];
    SolidOne(Factor(false, Test(p)));
    SolidOne(Factor(false, Test(IsNull(r))));
    SolidGroup(true, Plainly(p));
    SolidOne(Factor(false, Paren(alts)));
    assert SolidAlts(alts) == (Solid(alts[0].factors) && SolidAlts(alts[1..]));
    assert SolidAlts(alts[1..]) == (Solid(alts[1].factors) && SolidAlts(alts[1..][1..]));
  }

  lemma SolidComparator(op: Op, c: Value, r: Ref)
    requires CompileComparator(op, c, r).Done?
    ensures SolidFactors(CompileComparator(op, c, r).value)
  {
    SolidNullOrNot(r, EqTest(r, c));
    SolidOne(CompileComparator(op, c, r).value[0]);
  }

  lemma {:induction false} SolidContains(items: seq<Value>, r: Ref)
    ensures SolidFactors(ContainsTests(items, r))
  {
    if items != [] {
      SolidContains(items[1..], r);
      SolidOne(Factor(false, Test(ContainsTest(items[0], r))));
      SolidConcat(Plainly(ContainsTest(items[0], r)), ContainsTests(items[1..], r));
    }
  }

  lemma {:induction false} SolidElemOps(ops: seq<Entry>, r: Ref)
    requires CompileElemOps(ops, r).Done?
    ensures SolidFactors(CompileElemOps(ops, r).value)
  {
    if ops != [] {
      SolidComparator(ops[0].key.op, ops[0].val, r);
      SolidElemOps(ops[1..], r);
      SolidConcat(CompileElemOp(ops[0], r).value, CompileElemOps(ops[1..], r).value);
    }
  }

  lemma {:induction false} SolidElemFields(entries: seq<Entry>)
    requires CompileElemFields(entries).Done?
    ensures SolidFactors(CompileElemFields(entries).value)
  {
    if entries != [] {
      var e := entries[0];
      if e.key.Dollar? {
        SolidComparator(e.key.op, e.val, Elem);
      } else if e.val.Dict? {
        SolidElemOps(e.val.entries, ElemField(e.key.segs));
      } else {
        SolidOne(CompileElemField(e).value[0]);
      }
      SolidElemFields(entries[1..]);
      SolidConcat(CompileElemField(e).value, CompileElemFields(entries[1..]).value);
    }
  }

  lemma SolidOp(segs: seq<string>, all: seq<Entry>, e: Entry)
    requires SafeFieldPath(segs) && CompileOp(segs, all, e).Done?
    ensures SolidFactors(CompileOp(segs, all, e).value)
    decreases e
  {
    var r, c := FieldRef(segs), e.val;
    var fs := CompileOp(segs, all, e).value;
    if IsComparator(e.key.op) {
      SolidComparator(e.key.op, c, r);
    } else if e.key.op.Nin? && c.items != [] {
      SolidNullOrNot(r, InTest(c.items, r));
    } else if e.key.op.ElemMatch? {
      SolidElemFields(c.entries);
      SolidOne(fs[0]);
    } else if e.key.op.All? {
      SolidContains(c.items, r);
      SolidGroup(false, ContainsTests(c.items, r));
    } else if e.key.op.Not? {
      assert CompileNot(segs, c).Done? && CompileField(segs, c).Done?;
      SolidOps(segs, c.entries, c.entries);
      SolidGroup(true, CompileOps(segs, c.entries, c.entries).value);
    } else if fs != [] {
      SolidOne(fs[0]);
    }
  }

  lemma {:induction false} SolidOps(segs: seq<string>, all: seq<Entry>, ops: seq<Entry>)
    requires SafeFieldPath(segs) && CompileOps(segs, all, ops).Done?
    ensures SolidFactors(CompileOps(segs, all, ops).value)
    decreases ops
  {
    if ops != [] {
      SolidOp(segs, all, ops[0]);
      SolidOps(segs, all, ops[1..]);
      SolidConcat(CompileOp(segs, all, ops[0]).value, CompileOps(segs, all, ops[1..]).value);
    }
  }

  /** A translated query has a non-empty tree exactly when it has text, and no empty part exactly
      when it has no empty sub-query. */
  lemma {:induction false} SolidQuery(entries: seq<Entry>)
    requires CompileQuery(entries).Done?
    ensures SolidFactors(CompileQuery(entries).value) <==> NoEmptySubquery(entries)
    ensures CompileQuery(entries).value != [] <==> HasText(entries)
    decreases entries
  {
    if entries != [] {
      SolidEntry(entries[0]);
      SolidQuery(entries[1..]);
      SolidConcat(CompileEntry(entries[0]).value, CompileQuery(entries[1..]).value);
      if HasText(entries[1..]) {
        var k :| 0 <= k < |entries[1..]| && !Ignored(entries[1..][k].key);
        assert entries[k + 1] == entries[1..][k];
      }
      if HasText(entries) && Ignored(entries[0].key) {
        var k :| 0 <= k < |entries| && !Ignored(entries[k].key);
        assert entries[1..][k - 1] == entries[k];
      }
    }
  }

  lemma SolidEntry(e: Entry)
    requires CompileEntry(e).Done?
    ensures SolidFactors(CompileEntry(e).value) <==> NoEmptyBelow(e)
    decreases e
  {
    if e.key.Path? {
      if e.val.Dict? {
        SolidOps(e.key.segs, e.val.entries, e.val.entries);
      } else {
        SolidOne(CompileField(e.key.segs, e.val).value[0]);
      }
    } else if !Ignored(e.key) {
      if e.key.op.Not? {
        SolidQuery(e.val.entries);
        SolidGroup(true, CompileQuery(e.val.entries).value);
      } else {
        SolidSubs(e.val.items);
        SolidCombine(e.key.op, CompileSubs(e.val.items).value);
      }
    }
  }

  lemma {:induction false} SolidAlternatives(ws: seq<Factor>)
    ensures SolidAlts(Alternatives(ws)) == SolidFactors(ws)
  {
    if ws != [] {
      SolidAlternatives(ws[1..]);
      SolidOne(ws[0]);
      assert Alternatives(ws)[1..] == Alternatives(ws[1..]);
    }
  }

  lemma SolidCombine(op: Op, ws: seq<Factor>)
    requires ws != [] && (op.And? || op.Or? || op.Nor?)
    ensures SolidFactors(Combine(op, ws)) == SolidFactors(ws)
  {
    var alts := Alternatives(ws);
    SolidAlternatives(ws);
    SolidGroup(false, ws);
    SolidOne(Factor(false, Paren(alts)));
    SolidOne(Factor(true, Paren(alts)));
    SolidGroup(false, [Factor(true, Paren(alts))]);
  }

  lemma {:induction false} SolidSubs(subs: seq<Value>)
    requires CompileSubs(subs).Done?
    ensures SolidFactors(CompileSubs(subs).value) <==> NoEmptyAmong(subs)
    decreases subs
  {
    if subs != [] {
      var fs := CompileQuery(subs[0].entries).value;
      SolidQuery(subs[0].entries);
      SolidSubs(subs[1..]);
      SolidGroup(false, fs);
      SolidConcat([Factor(false, Paren([Conj(fs)]))], CompileSubs(subs[1..]).value);
    }
  }

  /** The emitted text of a translatable query is a readable search condition exactly when the query
      has text and no empty sub-query (`$or: [{}]` leaves `()`), and then it reads back, with NOT over
      AND over OR and each `$k` resolved to the k-th bound value, as the one conjunction intended. */
  lemma TextReadsBack(query: seq<Entry>)
    requires Emitted(query).Done?
    ensures var (ts, ps) := Emitted(query).value;
            ReadWhere(ts, ps) == if HasText(query) && NoEmptySubquery(query)
                                 then Some([Conj(CompileQuery(query).value)]) else None
  {
    var fs := CompileQuery(query).value;
    SolidQuery(query);
    ReadWherePrint(fs, Values(fs));
  }

  /** Appended with AND to any readable conjunction, with its placeholders numbered on, the text joins
      it as further factors; nothing regroups. */
  lemma AndsIntoLargerWhere(query: seq<Entry>, outer: seq<Factor>)
    requires CompileQuery(query).Done? && HasText(query) && NoEmptySubquery(query) && Solid(outer)
    ensures var fs := CompileQuery(query).value;
            var text := Print(outer, 0) + [AndTok] + Print(fs, |Values(outer)|);
            ReadWhere(text, Values(outer) + Values(fs)) == Some([Conj(outer + fs)])
  {
    SolidQuery(query);
    SolidTogether(outer, CompileQuery(query).value);
  }

  lemma SolidTogether(outer: seq<Factor>, fs: seq<Factor>)
    requires Solid(outer) && Solid(fs)
    ensures ReadWhere(Print(outer, 0) + [AndTok] + Print(fs, |Values(outer)|), Values(outer) + Values(fs)) == Some([Conj(outer + fs)])
  {
    SolidConcat(outer, fs);
    PrintConcat(outer, fs, 0);
    ValuesConcat(outer, fs);
    ReadWherePrint(outer + fs, Values(outer + fs));
  }

  /** Read from left to right the placeholders are exactly $1, ..., $n, n being the number of bound
      values. */
  lemma PlaceholdersInOrder(query: seq<Entry>)
    requires Emitted(query).Done?
    ensures var (ts, ps) := Emitted(query).value; Placeholders(ts) == Upto(0, |ps|)
  {
    PlaceholdersOfPrint(CompileQuery(query).value, 0);
  }

  // ---------- what the database answers ----------

  /** The truth value of the emitted text on a row: its reading, evaluated. */
  function Answer(query: seq<Entry>, row: Value): Truth {
    match Emitted(query)
    case Done((ts, ps)) =>
      (match ReadWhere(ts, ps)
       case Some(alts) => EvalAlts(alts, row)
       case None => Undefined)
    case _ => Undefined
  }

  predicate Comparable(query: seq<Entry>, row: Value) {
    Emitted(query).Done? && HasText(query) && NoEmptySubquery(query) && TypedQuery(row, query)
  }

  /** The complete account of the answer: it is never an error, true exactly when the document matches
      with every comparison on a missing field counted as false (as true below an odd number of
      negations), and false exactly when the document does not match with the opposite count. */
  lemma AnswerCharacterized(query: seq<Entry>, row: Value)
    requires Comparable(query, row)
    ensures Answer(query, row) != Undefined
    ensures Answer(query, row) == Yes <==> MatchQuery(row, query, Sql(false))
    ensures Answer(query, row) == No <==> !MatchQuery(row, query, Sql(true))
  {
    var fs := CompileQuery(query).value;
    TextReadsBack(query);
    QueryMeaning(query, row);
    assert EvalAlts([Conj(fs)], row) == Or3(EvalConj(fs, row), EvalAlts([Conj(fs)][1..], row));
  }

  /** SQL true implies a match and SQL false implies none, however deep the negations. */
  lemma AnswerSound(query: seq<Entry>, row: Value)
    requires Comparable(query, row)
    ensures Answer(query, row) == Yes ==> Match(row, query)
    ensures Answer(query, row) == No ==> !Match(row, query)
  {
    AnswerCharacterized(query, row);
    PlainBetween(row, query);
  }

  // ---------- when the database returns every matching document ----------

  /** Every field the query names is present in the record. */
  predicate AllPresent(row: Value, entries: seq<Entry>)
    decreases entries
  {
    if entries == [] then true else PresentEntry(row, entries[0]) && AllPresent(row, entries[1..])
  }

  predicate PresentEntry(row: Value, e: Entry)
    decreases e
  {
    match e.key
    case Path(segs) => !IsAbsent(Walk(row, segs))
    case Dollar(_) => (e.val.List? ==> PresentAmong(row, e.val.items)) && (e.val.Dict? ==> AllPresent(row, e.val.entries))
  }

  predicate PresentAmong(row: Value, subs: seq<Value>)
    decreases subs
  {
    if subs == [] then true
    else (subs[0].Dict? ==> AllPresent(row, subs[0].entries)) && PresentAmong(row, subs[1..])
  }

  /** Every field named below a `$not` or `$nor` is present. Holds of every record when the query uses
      neither (`NegationFreeIsSettled`). */
  predicate Settled(row: Value, entries: seq<Entry>)
    decreases entries
  {
    if entries == [] then true else SettledEntry(row, entries[0]) && Settled(row, entries[1..])
  }

  predicate SettledEntry(row: Value, e: Entry)
    decreases e
  {
    match e.key
    case Path(segs) => UsesNot(e.val) ==> !IsAbsent(Walk(row, segs))
    case Dollar(op) =>
      if op.And? || op.Or? then e.val.List? ==> SettledAmong(row, e.val.items)
      else if op.Nor? then e.val.List? ==> PresentAmong(row, e.val.items)
      else if op.Not? then e.val.Dict? ==> AllPresent(row, e.val.entries)
      else true
  }

  predicate SettledAmong(row: Value, subs: seq<Value>)
    decreases subs
  {
    if subs == [] then true
    else (subs[0].Dict? ==> Settled(row, subs[0].entries)) && SettledAmong(row, subs[1..])
  }

  /** A field's operator dictionary contains `$not`. */
  predicate UsesNot(cond: Value) {
    cond.Dict? && exists k | 0 <= k < |cond.entries| :: cond.entries[k].key == Dollar(Not)
  }

  predicate NegationFree(entries: seq<Entry>)
    decreases entries
  {
    if entries == [] then true else NegationFreeEntry(entries[0]) && NegationFree(entries[1..])
  }

  predicate NegationFreeEntry(e: Entry)
    decreases e
  {
    match e.key
    case Path(_) => !UsesNot(e.val)
    case Dollar(op) => !op.Nor? && !op.Not? && (e.val.List? ==> NegationFreeAmong(e.val.items))
  }

  predicate NegationFreeAmong(subs: seq<Value>)
    decreases subs
  {
    if subs == [] then true
    else (subs[0].Dict? ==> NegationFree(subs[0].entries)) && NegationFreeAmong(subs[1..])
  }

  lemma {:induction false} NegationFreeIsSettled(row: Value, entries: seq<Entry>)
    requires NegationFree(entries)
    ensures Settled(row, entries)
    decreases entries
  {
    if entries != [] {
      NegationFreeEntryIsSettled(row, entries[0]);
      NegationFreeIsSettled(row, entries[1..]);
    }
  }

  lemma NegationFreeEntryIsSettled(row: Value, e: Entry)
    requires NegationFreeEntry(e)
    ensures SettledEntry(row, e)
    decreases e
  {
    if e.key.Dollar? && e.val.List? { NegationFreeAmongIsSettled(row, e.val.items); }
  }

  lemma {:induction false} NegationFreeAmongIsSettled(row: Value, subs: seq<Value>)
    requires NegationFreeAmong(subs)
    ensures SettledAmong(row, subs)
    decreases subs
  {
    if subs != [] {
      if subs[0].Dict? { NegationFreeIsSettled(row, subs[0].entries); }
      NegationFreeAmongIsSettled(row, subs[1..]);
    }
  }

  // On present fields the three readings of a query coincide.

  lemma {:induction false} PresentOps(x: Option<Value>, ops: seq<Entry>, m: Mode)
    requires !IsAbsent(x)
    ensures MatchOps(x, ops, m) == MatchOps(x, ops, Plain)
    decreases ops
  {
    if ops != [] {
      PresentOp(x, ops[0], m);
      PresentOps(x, ops[1..], m);
    }
  }

  lemma PresentOp(x: Option<Value>, e: Entry, m: Mode)
    requires !IsAbsent(x)
    ensures MatchOp(x, e, m) == MatchOp(x, e, Plain)
    decreases e
  {
    if e.key == Dollar(Not) && e.val.Dict? { PresentOps(x, e.val.entries, Flip(m)); }
  }

  lemma {:induction false} PresentQuery(row: Value, entries: seq<Entry>, m: Mode)
    requires AllPresent(row, entries)
    ensures MatchQuery(row, entries, m) == MatchQuery(row, entries, Plain)
    decreases entries
  {
    if entries != [] {
      PresentMatch(row, entries[0], m);
      PresentQuery(row, entries[1..], m);
    }
  }

  lemma PresentMatch(row: Value, e: Entry, m: Mode)
    requires PresentEntry(row, e)
    ensures MatchEntry(row, e, m) == MatchEntry(row, e, Plain)
    decreases e
  {
    if e.key.Path? {
      if e.val.Dict? { PresentOps(Walk(row, e.key.segs), e.val.entries, m); }
    } else {
      if e.val.List? {
        PresentSubs(row, e.val.items, m);
        PresentSubs(row, e.val.items, Flip(m));
      }
      if e.val.Dict? { PresentQuery(row, e.val.entries, Flip(m)); }
    }
  }

  lemma {:induction false} PresentSubs(row: Value, subs: seq<Value>, m: Mode)
    requires PresentAmong(row, subs)
    ensures MatchAll(row, subs, m) == MatchAll(row, subs, Plain)
    ensures MatchAny(row, subs, m) == MatchAny(row, subs, Plain)
    decreases subs
  {
    if subs != [] {
      if subs[0].Dict? { PresentQuery(row, subs[0].entries, m); }
      PresentSubs(row, subs[1..], m);
    }
  }

  lemma {:induction false} WithoutNotOps(x: Option<Value>, ops: seq<Entry>)
    requires forall k | 0 <= k < |ops| :: ops[k].key != Dollar(Not)
    requires TypedOps(x, ops)
    ensures MatchOps(x, ops, Sql(false)) == MatchOps(x, ops, Plain)
    decreases ops
  {
    if ops != [] {
      WithoutNotOps(x, ops[1..]);
    }
  }

  lemma {:induction false} SettledQuery(row: Value, entries: seq<Entry>)
    requires Settled(row, entries) && TypedQuery(row, entries)
    ensures MatchQuery(row, entries, Sql(false)) == MatchQuery(row, entries, Plain)
    decreases entries
  {
    if entries != [] {
      SettledMatch(row, entries[0]);
      SettledQuery(row, entries[1..]);
    }
  }

  lemma SettledMatch(row: Value, e: Entry)
    requires SettledEntry(row, e) && TypedEntry(row, e)
    ensures MatchEntry(row, e, Sql(false)) == MatchEntry(row, e, Plain)
    decreases e
  {
    if e.key.Path? {
      var x := Walk(row, e.key.segs);
      if e.val.Dict? {
        if UsesNot(e.val) { PresentOps(x, e.val.entries, Sql(false)); } else { WithoutNotOps(x, e.val.entries); }
      }
    } else if e.val.List? {
      if e.key.op.And? || e.key.op.Or? { SettledSubs(row, e.val.items); }
      if e.key.op.Nor? { PresentSubs(row, e.val.items, Sql(true)); }
    } else if e.val.Dict? {
      if e.key.op.Not? { PresentQuery(row, e.val.entries, Sql(true)); }
    }
  }

  lemma {:induction false} SettledSubs(row: Value, subs: seq<Value>)
    requires SettledAmong(row, subs) && TypedSubs(row, subs)
    ensures MatchAll(row, subs, Sql(false)) == MatchAll(row, subs, Plain)
    ensures MatchAny(row, subs, Sql(false)) == MatchAny(row, subs, Plain)
    decreases subs
  {
    if subs != [] {
      if subs[0].Dict? { SettledQuery(row, subs[0].entries); }
      SettledSubs(row, subs[1..]);
    }
  }

  /** When every field named below a negation is present, and so for every query without `$not` and
      `$nor`, SQL returns exactly the matching documents. */
  lemma AnswerExact(query: seq<Entry>, row: Value)
    requires Comparable(query, row) && (Settled(row, query) || NegationFree(query))
    ensures Answer(query, row) == Yes <==> Match(row, query)
  {
    if NegationFree(query) { NegationFreeIsSettled(row, query); }
    AnswerCharacterized(query, row);
    SettledQuery(row, query);
  }

  /** The plain comparisons: on a missing field each of them is unknown. */
  predicate OnlyComparisons(ops: seq<Entry>) {
    ops != [] &&
    forall k | 0 <= k < |ops| ::
      && ops[k].key.Dollar? && !ops[k].val.Null?
      && (ops[k].key.op.Eq? || RelOf(ops[k].key.op).Some? || ops[k].key.op.Mod? || ops[k].key.op.Size?
          || (ops[k].key.op.In? && ops[k].val.List? && ops[k].val.items != [] && Null !in ops[k].val.items))
  }

  lemma {:induction false} ComparisonsOnMissing(ops: seq<Entry>, u: bool)
    requires OnlyComparisons(ops)
    ensures MatchOps(None, ops, Sql(u)) == u && !MatchOps(None, ops, Plain)
    decreases ops
  {
    if |ops| > 1 {
      ComparisonsOnMissing(ops[1..], u);
    } else {
      assert MatchOps(None, ops[1..], Sql(u));
    }
  }

  lemma OneEntry(row: Value, e: Entry, m: Mode)
    ensures MatchQuery(row, [e], m) == MatchEntry(row, e, m)
  {
    assert [e][1..] == [] && MatchQuery(row, [], m);
  }

  /** Where the two differ: a negated comparison `{f: {$not: {...}}}` is answered as the matcher
      answers it exactly on the documents that have the field; on the others the matcher accepts and
      SQL does not. */
  lemma NegatedComparisonExactIff(segs: seq<string>, ops: seq<Entry>, row: Value)
    requires OnlyComparisons(ops)
    requires Comparable([Entry(Path(segs), Dict([Entry(Dollar(Not), Dict(ops))]))], row)
    ensures var query := [Entry(Path(segs), Dict([Entry(Dollar(Not), Dict(ops))]))];
            (Answer(query, row) == Yes <==> Match(row, query)) <==> Walk(row, segs).Some?
  {
    var negation := [Entry(Dollar(Not), Dict(ops))];
    var query := [Entry(Path(segs), Dict(negation))];
    var x := Walk(row, segs);
    assert TypedEntry(row, query[0]);
    assert TypedValue(x, query[0].val);
    assert TypedOps(x, negation) && TypedOp(x, negation[0]);
    AnswerCharacterized(query, row);
    OneEntry(row, query[0], Plain);
    OneEntry(row, query[0], Sql(false));
    assert MatchEntry(row, query[0], Plain) == MatchOps(x, negation, Plain);
    assert MatchEntry(row, query[0], Sql(false)) == MatchOps(x, negation, Sql(false));
    assert MatchOps(x, negation[1..], Plain) && MatchOps(x, negation[1..], Sql(false));
    if x.Some? {
      PresentOps(x, negation, Sql(false));
    } else {
      ComparisonsOnMissing(ops, true);
      assert MatchOp(x, negation[0], Plain) && !MatchOp(x, negation[0], Sql(false));
    }
  }

  // ---------- null operands ----------

  /** A null operand on a named sub-field of `$elemMatch`: the bound NULL makes the test true of no element,
      so SQL answers as the matcher does exactly on the elements that have the sub-field. */
  lemma ElemNullExactIff(segs: seq<string>, elem: Value)
    requires SafeFieldPath(segs)
    ensures var e := Entry(Path(segs), Null);
      && CompileElemField(e).Done? && EvalConj(CompileElemField(e).value, elem) != Yes
      && ((EvalConj(CompileElemField(e).value, elem) == Yes <==> MatchEntry(AsRecord(elem), e, Plain)) <==> !IsAbsent(Walk(AsRecord(elem), segs)))
  {
    EvalOne(Factor(false, Test(EqTest(ElemField(segs), Null))), elem);
  }
}
