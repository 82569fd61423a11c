/** Cursor pagination: `find_page` of jvspatial/core/context.py and what following its cursors visits. */
module KeysetPaging {
  import opened LexOrder
  import opened MongoQuery
  import opened SortedFind

  /** The decoded cursor: the id and the primary sort value of the last record of a page. */
  datatype Cursor = Cursor(id: string, sort: Option<Value>)

  // ---------- the query of one page ----------

  /** The sort specification with `id` as its tiebreaker. */
  function SortFields(sort: seq<SortKey>): (keys: seq<SortKey>)
    ensures keys != [] && SortsById(keys)
  {
    var keys := if sort == [] then [SortKey(ID, Ascending)] else sort;
    if SortsById(keys) then keys
    else
      var r := keys + [SortKey(ID, keys[0].dir)];
      assert r[|keys|].field == ID;
      r
  }

  function Strictly(dir: Direction): Op {
    if dir.Descending? then Lt else Gt
  }

  function Clause(field: seq<string>, cond: Value): Value {
    Dict([Entry(Path(field), cond)])
  }

  function Past(key: SortKey, v: Value): Value {
    Clause(key.field, Dict([Entry(Dollar(Strictly(key.dir)), v)]))
  }

  function Both(a: Value, b: Value): Value {
    Dict([Entry(Dollar(And), List([a, b]))])
  }

  /** What selects the records behind a cursor: a larger sort value, or none at all, or the same one
      and a larger id. */
  function KeysetFilter(primary: SortKey, idDir: Direction, c: Cursor): Value {
    var pastId := Past(SortKey(ID, idDir), Str(c.id));
    match c.sort
    case None => Both(Clause(primary.field, Null), pastId)
    case Some(v) =>
      Dict([Entry(Dollar(Or), List([Past(primary, v), Clause(primary.field, Null), Both(Clause(primary.field, v), pastId)]))])
  }

  function PageQuery(query: seq<Entry>, keys: seq<SortKey>, after: Option<Cursor>): seq<Entry>
    requires keys != []
  {
    match after
    case None => query
    case Some(c) =>
      var keyset := KeysetFilter(keys[0], keys[|keys| - 1].dir, c);
      if query == [] then keyset.entries else Both(Dict(query), keyset).entries
  }

  function CursorOf(doc: Value, primary: SortKey): Cursor
    requires HasId(doc)
  {
    Cursor(IdOf(doc), SortValue(doc, primary.field))
  }

  function PageSize(limit: int): (n: nat)
    ensures n >= 1
  {
    if limit < 1 then 1 else limit
  }

  predicate AllHaveIds(rows: seq<Value>) {
    forall i | 0 <= i < |rows| :: HasId(rows[i])
  }

  lemma FoundHaveIds(rows: seq<Value>, query: seq<Entry>, keys: seq<SortKey>)
    requires AllHaveIds(rows)
    ensures AllHaveIds(FindAll(rows, query, keys))
  {
    var all := FindAll(rows, query, keys);
    SortBySame(keys, Matching(rows, query));
    SameMembers(all, Matching(rows, query));
    forall i | 0 <= i < |all| ensures HasId(all[i]) {
      assert all[i] in rows;
    }
  }

  /** The first records of those found and, if there are more, the cursor of the last one taken. */
  function Cut(found: seq<Value>, size: nat, primary: SortKey): (seq<Value>, Option<Cursor>)
    requires size >= 1 && AllHaveIds(found)
  {
    (Take(found, size), if |found| > size then Some(CursorOf(found[size - 1], primary)) else None)
  }

  /** The items of a page and the cursor of the next one. */
  function Page(rows: seq<Value>, query: seq<Entry>, sort: seq<SortKey>, after: Option<Cursor>, limit: int): (seq<Value>, Option<Cursor>)
    requires AllHaveIds(rows)
  {
    var keys := SortFields(sort);
    FoundHaveIds(rows, PageQuery(query, keys, after), keys);
    Cut(Find(rows, PageQuery(query, keys, after), keys, PageSize(limit) + 1), PageSize(limit), keys[0])
  }

  /** `find_page`; a cursor that does not decode counts as none. */
  method FindPage(rows: seq<Value>, query: seq<Entry>, sort: seq<SortKey>, after: Option<Cursor>, limit: int)
    returns (items: seq<Value>, next: Option<Cursor>)
    requires AllHaveIds(rows)
    ensures (items, next) == Page(rows, query, sort, after, limit)
  {
    var pageLimit := if limit > 1 then limit else 1;
    var sortFields := WithId(sort);
    var finalQuery := query;
    if after.Some? {
      var keyset := BuildKeyset(sortFields[0], sortFields[|sortFields| - 1].dir, after.value);
      finalQuery := if finalQuery != [] then Both(Dict(finalQuery), keyset).entries else keyset.entries;
    }
    FoundHaveIds(rows, finalQuery, sortFields);
    var found := Find(rows, finalQuery, sortFields, pageLimit + 1);
    items, next := CutPage(found, pageLimit, sortFields[0]);
  }

  method WithId(sort: seq<SortKey>) returns (keys: seq<SortKey>)
    ensures keys == SortFields(sort)
  {
    keys := if sort == [] then [SortKey(ID, Ascending)] else sort;
    if !SortsById(keys) {
      keys := keys + [SortKey(ID, keys[0].dir)];
    }
  }

  method CutPage(found: seq<Value>, size: nat, primary: SortKey) returns (items: seq<Value>, next: Option<Cursor>)
    requires size >= 1 && AllHaveIds(found)
    ensures (items, next) == Cut(found, size, primary)
  {
    var hasMore := |found| > size;
    items := Take(found, size);
    next := None;
    if hasMore && items != [] {
      next := Some(CursorOf(items[|items| - 1], primary));
    }
  }

  method BuildKeyset(primary: SortKey, idDir: Direction, c: Cursor) returns (keyset: Value)
    ensures keyset == KeysetFilter(primary, idDir, c)
  {
    var pastId := Past(SortKey(ID, idDir), Str(c.id));
    var branches := [Both(Clause(primary.field, Null), pastId)];
    if c.sort.Some? {
      branches := [Past(primary, c.sort.value), Clause(primary.field, Null), Both(Clause(primary.field, c.sort.value), pastId)];
    }
    keyset := if |branches| == 1 then branches[0] else Dict([Entry(Dollar(Or), List(branches))]);
  }

  // ---------- the filter selects what follows ----------

  /** The values at a field are numbers, or they are strings, wherever there are any. */
  predicate Uniform(rows: seq<Value>, field: seq<string>) {
    || (forall i | 0 <= i < |rows| :: SortValue(rows[i], field).Some? ==> IsNumber(SortValue(rows[i], field).value))
    || (forall i | 0 <= i < |rows| :: SortValue(rows[i], field).Some? ==> SortValue(rows[i], field).value.Str?)
  }

  /** A collection that Python can sort by these keys, with the distinct ids of a collection. */
  predicate Sortable(rows: seq<Value>, keys: seq<SortKey>) {
    DistinctIds(rows) && forall i | 0 <= i < |keys| :: Uniform(rows, keys[i].field)
  }

  predicate Comparable(x: Option<Value>, y: Option<Value>) {
    && (x.Some? ==> IsNumber(x.value) || x.value.Str?)
    && (y.Some? ==> IsNumber(y.value) || y.value.Str?)
    && (x.Some? && y.Some? ==> (x.value.Str? <==> y.value.Str?))
  }

  lemma MatchOne(doc: Value, e: Entry)
    ensures Match(doc, [e]) <==> MatchEntry(doc, e, Plain)
  {
    MatchCons(doc, e, []);
    assert [e] + [] == [e];
  }

  lemma MatchClause(doc: Value, field: seq<string>, cond: Value)
    ensures Match(doc, Clause(field, cond).entries) <==> MatchValue(Walk(doc, field), cond, Plain)
  {
    MatchOne(doc, Entry(Path(field), cond));
  }

  lemma MatchPast(doc: Value, key: SortKey, v: Value)
    requires v.Str? || IsNumber(v)
    ensures Match(doc, Past(key, v).entries) <==>
            var x := SortValue(doc, key.field);
            x.Some? && Ordered(if key.dir.Descending? then RLt else RGt, x.value, v)
  {
    var x, ops := Walk(doc, key.field), [Entry(Dollar(Strictly(key.dir)), v)];
    MatchClause(doc, key.field, Dict(ops));
    assert MatchOps(x, ops, Plain) == (MatchOp(x, ops[0], Plain) && MatchOps(x, ops[1..], Plain));
    assert ops[1..] == [] && MatchOps(x, [], Plain);
  }

  lemma MatchBoth(doc: Value, a: Value, b: Value)
    requires a.Dict? && b.Dict?
    ensures Match(doc, Both(a, b).entries) <==> Match(doc, a.entries) && Match(doc, b.entries)
  {
    MatchOne(doc, Entry(Dollar(And), List([a, b])));
    var two := [a, b];
    assert MatchAll(doc, two, Plain) == (Match(doc, two[0].entries) && MatchAll(doc, two[1..], Plain));
    assert two[1..] == [b] && [b][1..] == [];
    assert MatchAll(doc, [b], Plain) == (Match(doc, b.entries) && MatchAll(doc, [], Plain));
  }

  lemma MatchEither(doc: Value, a: Value, b: Value, c: Value)
    requires a.Dict? && b.Dict? && c.Dict?
    ensures Match(doc, [Entry(Dollar(Or), List([a, b, c]))]) <==>
            Match(doc, a.entries) || Match(doc, b.entries) || Match(doc, c.entries)
  {
    MatchOne(doc, Entry(Dollar(Or), List([a, b, c])));
    var three := [a, b, c];
    assert MatchAny(doc, three, Plain) == (Match(doc, three[0].entries) || MatchAny(doc, three[1..], Plain));
    assert three[1..] == [b, c] && [b, c][1..] == [c] && [c][1..] == [];
    assert MatchAny(doc, [b, c], Plain) == (Match(doc, b.entries) || MatchAny(doc, [c], Plain));
    assert MatchAny(doc, [c], Plain) == (Match(doc, c.entries) || MatchAny(doc, [], Plain));
  }

  /** A value past the cursor's, by the operator the filter uses. */
  lemma PastValue(key: SortKey, v: Value, doc: Value)
    requires Comparable(Some(v), SortValue(doc, key.field))
    ensures Match(doc, Past(key, v).entries) <==>
            SortValue(doc, key.field).Some? &&
            if key.dir.Ascending? then Below(v, SortValue(doc, key.field).value) else Below(SortValue(doc, key.field).value, v)
  {
    MatchPast(doc, key, v);
  }

  lemma SameValue(field: seq<string>, v: Value, doc: Value)
    requires Comparable(Some(v), SortValue(doc, field))
    ensures Match(doc, Clause(field, v).entries) <==>
            SortValue(doc, field).Some? && !Below(v, SortValue(doc, field).value) && !Below(SortValue(doc, field).value, v)
  {
    MatchClause(doc, field, v);
    if SortValue(doc, field).Some? && v.Str? { StrOrder(v.s, SortValue(doc, field).value.s, v.s); }
  }

  /** The filter of a cursor matches exactly the records that come after the cursor's record by the
      primary key and then by id. */
  lemma KeysetSelects(primary: SortKey, idDir: Direction, last: Value, doc: Value)
    requires HasId(last) && HasId(doc)
    requires Comparable(SortValue(last, primary.field), SortValue(doc, primary.field))
    ensures Match(doc, KeysetFilter(primary, idDir, CursorOf(last, primary)).entries) <==>
            Earlier([primary, SortKey(ID, idDir)], last, doc)
  {
    var c, byId := CursorOf(last, primary), SortKey(ID, idDir);
    var pastId := Past(byId, Str(c.id));
    PastValue(byId, Str(c.id), doc);
    MatchClause(doc, primary.field, Null);
    TwoKeys(primary, byId, last, doc);
    match c.sort {
      case None => MatchBoth(doc, Clause(primary.field, Null), pastId);
      case Some(v) =>
        PastValue(primary, v, doc);
        SameValue(primary.field, v, doc);
        MatchBoth(doc, Clause(primary.field, v), pastId);
        MatchEither(doc, Past(primary, v), Clause(primary.field, Null), Both(Clause(primary.field, v), pastId));
    }
  }

  lemma TwoKeys(j: SortKey, k: SortKey, a: Value, b: Value)
    ensures Earlier([j, k], a, b) <==> Precedes(j, a, b) || (!Precedes(j, b, a) && Precedes(k, a, b))
  {
    assert [j, k][1..] == [k] && [k][1..] == [];
    assert Earlier([k], a, b) == (Precedes(k, a, b) || (!Precedes(k, b, a) && Earlier([], a, b)));
  }

  // ---------- which sort specifications the filter fits ----------

  /** A key that never separates two records which tie on the first one: it repeats the first, or lies
      below a sorted field, whose values hold nothing. */
  predicate Idle(keys: seq<SortKey>, field: seq<string>)
    requires keys != []
  {
    field == keys[0].field || exists i | 0 <= i < |keys| :: keys[i].field < field
  }

  /** The first key of `rest` that is not idle is the id, in direction `dir`. */
  predicate IdNext(keys: seq<SortKey>, rest: seq<SortKey>, dir: Direction)
    requires keys != []
  {
    rest != [] && if rest[0].field == ID then rest[0].dir == dir
                  else Idle(keys, rest[0].field) && IdNext(keys, rest[1..], dir)
  }

  /** A cursor remembers the first key and the id, and goes by the direction of the last key. */
  predicate KeysetFits(keys: seq<SortKey>)
    requires keys != []
  {
    keys[0].field == ID || IdNext(keys, keys[1..], keys[|keys| - 1].dir)
  }

  lemma {:induction false} WalkFurther(v: Value, f: seq<string>, g: seq<string>)
    ensures Walk(v, f + g) == if Walk(v, f).None? then None else Walk(Walk(v, f).value, g)
    decreases |f|
  {
    if f == [] {
      assert f + g == g;
    } else {
      assert (f + g)[1..] == f[1..] + g;
      if v.Dict? && Get(v.entries, Path([f[0]])).Some? {
        WalkFurther(Get(v.entries, Path([f[0]])).value, f[1..], g);
      }
    }
  }

  /** Nothing lies below a number, a string, a null or a missing value. */
  lemma NothingBelow(doc: Value, f: seq<string>, g: seq<string>)
    requires f < g && (Walk(doc, f).None? || !Walk(doc, f).value.Dict?)
    ensures SortValue(doc, g).None?
  {
    assert g == f + g[|f|..];
    WalkFurther(doc, f, g[|f|..]);
  }

  lemma IdleTies(rows: seq<Value>, keys: seq<SortKey>, k: SortKey, a: Value, b: Value)
    requires keys != [] && Sortable(rows, keys) && a in rows && b in rows && Idle(keys, k.field)
    requires !Precedes(keys[0], a, b) && !Precedes(keys[0], b, a)
    ensures !Precedes(k, a, b) && !Precedes(k, b, a)
  {
    if k.field != keys[0].field {
      var i :| 0 <= i < |keys| && keys[i].field < k.field;
      NothingBelow(a, keys[i].field, k.field);
      NothingBelow(b, keys[i].field, k.field);
    }
  }

  lemma {:induction false} IdNextDecides(rows: seq<Value>, keys: seq<SortKey>, rest: seq<SortKey>, dir: Direction, a: Value, b: Value)
    requires keys != [] && Sortable(rows, keys) && a in rows && b in rows && HasId(a) && HasId(b) && IdOf(a) != IdOf(b)
    requires !Precedes(keys[0], a, b) && !Precedes(keys[0], b, a) && IdNext(keys, rest, dir)
    ensures Earlier(rest, a, b) <==> Precedes(SortKey(ID, dir), a, b)
    decreases |rest|
  {
    if rest[0].field == ID {
      IdSeparates(rest[0], a, b);
      KeyOrder(rest[0], a, b, a);
    } else {
      IdleTies(rows, keys, rest[0], a, b);
      IdNextDecides(rows, keys, rest[1..], dir, a, b);
    }
  }

  /** Then the whole specification orders records as the first key and the id alone do. */
  lemma FitsOrder(rows: seq<Value>, keys: seq<SortKey>, a: Value, b: Value)
    requires keys != [] && Sortable(rows, keys) && KeysetFits(keys)
    requires a in rows && b in rows && HasId(a) && HasId(b) && IdOf(a) != IdOf(b)
    ensures Earlier(keys, a, b) <==> Earlier([keys[0], SortKey(ID, keys[|keys| - 1].dir)], a, b)
  {
    var byId := SortKey(ID, keys[|keys| - 1].dir);
    TwoKeys(keys[0], byId, a, b);
    KeyOrder(keys[0], a, b, a);
    if keys[0].field == ID {
      IdSeparates(keys[0], a, b);
    } else if !Precedes(keys[0], a, b) && !Precedes(keys[0], b, a) {
      IdNextDecides(rows, keys, keys[1..], keys[|keys| - 1].dir, a, b);
    }
  }

  // ---------- following the cursors ----------

  lemma PageQueryMatches(doc: Value, query: seq<Entry>, keys: seq<SortKey>, c: Cursor)
    requires keys != []
    ensures Match(doc, PageQuery(query, keys, Some(c))) <==>
            Match(doc, query) && Match(doc, KeysetFilter(keys[0], keys[|keys| - 1].dir, c).entries)
  {
    var keyset := KeysetFilter(keys[0], keys[|keys| - 1].dir, c);
    MatchBoth(doc, Dict(query), keyset);
  }

  /** The query of a page whose cursor is record `k` finds exactly the records behind it. */
  lemma PageFindsRest(rows: seq<Value>, query: seq<Entry>, keys: seq<SortKey>, k: nat)
    requires keys != [] && SortsById(keys) && Sortable(rows, keys) && KeysetFits(keys)
    requires k < |FindAll(rows, query, keys)| && HasId(FindAll(rows, query, keys)[k])
    ensures FindAll(rows, PageQuery(query, keys, Some(CursorOf(FindAll(rows, query, keys)[k], keys[0]))), keys)
            == FindAll(rows, query, keys)[k + 1..]
  {
    var all := FindAll(rows, query, keys);
    var last, idDir := all[k], keys[|keys| - 1].dir;
    var narrower := PageQuery(query, keys, Some(CursorOf(last, keys[0])));
    FoundAscends(rows, query, keys);
    assert last in rows;
    forall x | x in rows ensures Match(x, narrower) <==> x in all[k + 1..] {
      PageQueryMatches(x, query, keys, CursorOf(last, keys[0]));
      KeysetSelects(keys[0], idDir, last, x);
      SuffixMember(rows, query, keys, k, x);
    }
    FindSuffix(rows, query, narrower, keys, k + 1);
  }

  lemma SuffixMember(rows: seq<Value>, query: seq<Entry>, keys: seq<SortKey>, k: nat, x: Value)
    requires keys != [] && SortsById(keys) && Sortable(rows, keys) && KeysetFits(keys) && x in rows
    requires k < |FindAll(rows, query, keys)|
    ensures x in FindAll(rows, query, keys)[k + 1..] <==>
            Match(x, query) && Earlier([keys[0], SortKey(ID, keys[|keys| - 1].dir)], FindAll(rows, query, keys)[k], x)
  {
    var all := FindAll(rows, query, keys);
    FoundAscends(rows, query, keys);
    assert all[k] in rows;
    if x in all {
      AfterPosition(keys, all, k, x);
      CompoundOrder(keys, all[k], x, all[k]);
      CompoundOrder([keys[0], SortKey(ID, keys[|keys| - 1].dir)], all[k], x, all[k]);
      if all[k] != x {
        FitsOrder(rows, keys, all[k], x);
      }
    } else {
      var rest := all[k + 1..];
      assert forall j | 0 <= j < |rest| :: rest[j] == all[k + 1 + j];
    }
  }

  /** The cursor with which a caller goes on after the first `k` records. */
  function CursorAt(all: seq<Value>, k: nat, primary: SortKey): Option<Cursor>
    requires k <= |all| && AllHaveIds(all)
  {
    if k == 0 then None else Some(CursorOf(all[k - 1], primary))
  }

  /** Each page is the next slice of the full sorted result. */
  lemma PageIsNextSlice(rows: seq<Value>, query: seq<Entry>, sort: seq<SortKey>, limit: int, all: seq<Value>, k: nat)
    requires Sortable(rows, SortFields(sort)) && KeysetFits(SortFields(sort))
    requires all == FindAll(rows, query, SortFields(sort)) && AllHaveIds(all) && k <= |all|
    ensures Page(rows, query, sort, CursorAt(all, k, SortFields(sort)[0]), limit)
            == Cut(all[k..], PageSize(limit), SortFields(sort)[0])
  {
    var keys, after := SortFields(sort), CursorAt(all, k, SortFields(sort)[0]);
    assert FindAll(rows, PageQuery(query, keys, after), keys) == all[k..] by {
      if k > 0 { PageFindsRest(rows, query, keys, k - 1); } else { assert all[0..] == all; }
    }
    CutTaken(all[k..], PageSize(limit), keys[0]);
  }

  lemma CutTaken(found: seq<Value>, size: nat, primary: SortKey)
    requires size >= 1 && AllHaveIds(found)
    ensures Cut(Take(found, size + 1), size, primary) == Cut(found, size, primary)
  {
    assert |found| > size ==> found[..size + 1][..size] == found[..size];
  }

  /** Where a caller stands: with a cursor to pass on (none at first), or told that there are no more. */
  datatype Progress = Next(after: Option<Cursor>) | Finished

  /** The items gathered by following the cursors through at most `n` pages. */
  function Collect(rows: seq<Value>, query: seq<Entry>, sort: seq<SortKey>, limit: int, n: nat): (seq<Value>, Progress)
    requires AllHaveIds(rows)
  {
    if n == 0 then ([], Next(None))
    else OnePageMore(rows, query, sort, limit, Collect(rows, query, sort, limit, n - 1))
  }

  function OnePageMore(rows: seq<Value>, query: seq<Entry>, sort: seq<SortKey>, limit: int, sofar: (seq<Value>, Progress)): (seq<Value>, Progress)
    requires AllHaveIds(rows)
  {
    if sofar.1.Finished? then sofar
    else
      var (page, next) := Page(rows, query, sort, sofar.1.after, limit);
      (sofar.0 + page, if next.None? then Finished else Next(next))
  }

  function Times(n: nat, size: nat): nat {
    if n == 0 then 0 else Times(n - 1, size) + size
  }

  /** Following the cursors yields the full sorted result page by page, every record exactly once, and
      the call that reaches its end says so. */
  lemma {:induction false} FollowingCursors(rows: seq<Value>, query: seq<Entry>, sort: seq<SortKey>, limit: int, n: nat)
    requires Sortable(rows, SortFields(sort)) && KeysetFits(SortFields(sort)) && AllHaveIds(rows)
    ensures var all, size := FindAll(rows, query, SortFields(sort)), PageSize(limit);
            && Collect(rows, query, sort, limit, n).0 == Take(all, Times(n, size))
            && (Collect(rows, query, sort, limit, n).1.Finished? <==> n > 0 && Times(n, size) >= |all|)
  {
    FoundHaveIds(rows, query, SortFields(sort));
    var all := FindAll(rows, query, SortFields(sort));
    var inv := Standing(all, SortFields(sort)[0]);
    PagesMove(rows, query, sort, limit, all, inv);
    assert Take(all, 0) == [];
    CollectKeeps(rows, query, sort, limit, n, inv);
  }

  /** What the caller holds after a number of pages, `k` of the records having been returned. */
  ghost predicate Stands(all: seq<Value>, k: nat, first: bool, primary: SortKey, items: seq<Value>, p: Progress) {
    && items == Take(all, k)
    && if first then p == Next(None)
       else if k >= |all| then p.Finished?
       else k > 0 && HasId(all[k - 1]) && p == Next(Some(CursorOf(all[k - 1], primary)))
  }

  lemma OnePageMoves(rows: seq<Value>, query: seq<Entry>, sort: seq<SortKey>, limit: int, all: seq<Value>, k: nat,
                     first: bool, sofar: (seq<Value>, Progress), after: (seq<Value>, Progress))
    requires Sortable(rows, SortFields(sort)) && KeysetFits(SortFields(sort)) && (first ==> k == 0)
    requires all == FindAll(rows, query, SortFields(sort)) && AllHaveIds(rows) && AllHaveIds(all)
    requires Stands(all, k, first, SortFields(sort)[0], sofar.0, sofar.1)
    requires after == OnePageMore(rows, query, sort, limit, sofar)
    ensures Stands(all, k + PageSize(limit), false, SortFields(sort)[0], after.0, after.1)
  {
    if !sofar.1.Finished? {
      PageIsNextSlice(rows, query, sort, limit, all, k);
      CutMoves(all, k, PageSize(limit), SortFields(sort)[0]);
    }
  }

  type Progressing = (nat, bool, (seq<Value>, Progress)) -> bool

  ghost function Standing(all: seq<Value>, primary: SortKey): Progressing {
    (k: nat, first: bool, p: (seq<Value>, Progress)) => (first ==> k == 0) && Stands(all, k, first, primary, p.0, p.1)
  }

  lemma StandingMoves(rows: seq<Value>, query: seq<Entry>, sort: seq<SortKey>, limit: int, all: seq<Value>, inv: Progressing,
                      k: nat, first: bool, p: (seq<Value>, Progress))
    requires Sortable(rows, SortFields(sort)) && KeysetFits(SortFields(sort))
    requires all == FindAll(rows, query, SortFields(sort)) && AllHaveIds(rows) && AllHaveIds(all)
    requires inv == Standing(all, SortFields(sort)[0]) && inv(k, first, p)
    ensures inv(k + PageSize(limit), false, OnePageMore(rows, query, sort, limit, p))
  {
    OnePageMoves(rows, query, sort, limit, all, k, first, p, OnePageMore(rows, query, sort, limit, p));
  }

  lemma PagesMove(rows: seq<Value>, query: seq<Entry>, sort: seq<SortKey>, limit: int, all: seq<Value>, inv: Progressing)
    requires Sortable(rows, SortFields(sort)) && KeysetFits(SortFields(sort))
    requires all == FindAll(rows, query, SortFields(sort)) && AllHaveIds(rows) && AllHaveIds(all)
    requires inv == Standing(all, SortFields(sort)[0])
    ensures forall k: nat, first, p | inv(k, first, p) :: inv(k + PageSize(limit), false, OnePageMore(rows, query, sort, limit, p))
  {
    forall k: nat, first, p | inv(k, first, p) ensures inv(k + PageSize(limit), false, OnePageMore(rows, query, sort, limit, p)) {
      StandingMoves(rows, query, sort, limit, all, inv, k, first, p);
    }
  }

  lemma {:induction false} CollectKeeps(rows: seq<Value>, query: seq<Entry>, sort: seq<SortKey>, limit: int, n: nat, inv: Progressing)
    requires AllHaveIds(rows) && inv(0, true, ([], Next(None)))
    requires forall k: nat, first, p | inv(k, first, p) :: inv(k + PageSize(limit), false, OnePageMore(rows, query, sort, limit, p))
    ensures inv(Times(n, PageSize(limit)), n == 0, Collect(rows, query, sort, limit, n))
    decreases n
  {
    if n > 0 { CollectKeeps(rows, query, sort, limit, n - 1, inv); }
  }

  lemma CutMoves(all: seq<Value>, k: nat, size: nat, primary: SortKey)
    requires k <= |all| && size >= 1 && AllHaveIds(all)
    ensures var (page, next) := Cut(all[k..], size, primary);
            Stands(all, k + size, false, primary, Take(all, k) + page, if next.None? then Finished else Next(next))
  {
  }

  lemma {:induction false} EnoughPages(n: nat, size: nat)
    requires size >= 1
    ensures Times(n, size) >= n
  {
    if n > 0 { EnoughPages(n - 1, size); }
  }

  // ---------- where the filter does not fit ----------

  /** A record of an id and one number. */
  function Doc(id: string, g: seq<string>, v: int): Value
    requires g != []
  {
    Dict([Entry(Path(ID), Str(id)), Entry(Path([g[0]]), Nest(g[1..], Int(v)))])
  }

  function Nest(segs: seq<string>, v: Value): Value {
    if segs == [] then v else Dict([Entry(Path([segs[0]]), Nest(segs[1..], v))])
  }

  lemma {:induction false} WalkNest(segs: seq<string>, v: int, h: seq<string>)
    requires !(h < segs)
    ensures Walk(Nest(segs, Int(v)), h) == if h == segs then Some(Int(v)) else None
    decreases |segs|
  {
    if segs != [] && h != [] {
      var e := [Entry(Path([segs[0]]), Nest(segs[1..], Int(v)))];
      assert Get(e[1..], Path([h[0]])) == None;
      if h[0] == segs[0] {
        assert h == [h[0]] + h[1..] && segs == [segs[0]] + segs[1..];
        WalkNest(segs[1..], v, h[1..]);
      } else {
        assert [h[0]][0] != [segs[0]][0];
      }
    }
  }

  lemma WalkDoc(id: string, g: seq<string>, v: int, h: seq<string>)
    requires g != [] && g[0] != "id" && h != [] && !(h < g)
    ensures Walk(Doc(id, g, v), h) == if h == ID then Some(Str(id)) else if h == g then Some(Int(v)) else None
  {
    var es := Doc(id, g, v).entries;
    assert es[1..] == [es[1]] && es[1..][1..] == [];
    assert Get(es[1..], Path([h[0]])) == if [g[0]] == [h[0]] then Some(Nest(g[1..], Int(v))) else Get([], Path([h[0]]));
    assert [g[0]] == [h[0]] <==> g[0] == h[0];
    assert ID == [h[0]] <==> h[0] == "id";
    assert h == [h[0]] + h[1..] && g == [g[0]] + g[1..];
    if h[0] == g[0] { WalkNest(g[1..], v, h[1..]); }
  }

  /** A record of an id alone. */
  function Bare(id: string): Value {
    Dict([Entry(Path(ID), Str(id))])
  }

  lemma WalkBare(id: string, h: seq<string>)
    requires h != []
    ensures Walk(Bare(id), h) == if h == ID then Some(Str(id)) else None
  {
    var es := Bare(id).entries;
    assert es[1..] == [];
    assert Get(es, Path([h[0]])) == if ID == [h[0]] then Some(Str(id)) else Get([], Path([h[0]]));
    assert ID == [h[0]] <==> h[0] == "id";
    assert h == [h[0]] + h[1..];
  }

  /** Keys that see neither record decide nothing. */
  lemma {:induction false} TiesThen(keys: seq<SortKey>, j: nat, a: Value, b: Value)
    requires j < |keys| && Precedes(keys[j], a, b)
    requires forall k | 0 <= k < j :: SortValue(a, keys[k].field).None? && SortValue(b, keys[k].field).None?
    ensures Earlier(keys, a, b)
    decreases |keys|
  {
    if j > 0 {
      TiesThen(keys[1..], j - 1, a, b);
    }
  }

  /** The first key from position `i` on that can separate records which tie on the first key. */
  lemma {:induction false} FirstActive(keys: seq<SortKey>, i: nat, dir: Direction) returns (j: nat)
    requires keys != [] && i <= |keys| && SortsById(keys[i..]) && !IdNext(keys, keys[i..], dir)
    ensures i <= j < |keys| && forall k | i <= k < j :: keys[k].field != ID && Idle(keys, keys[k].field)
    ensures if keys[j].field == ID then keys[j].dir != dir else !Idle(keys, keys[j].field)
    decreases |keys| - i
  {
    var m :| 0 <= m < |keys[i..]| && keys[i..][m].field == ID;
    assert keys[i..][0] == keys[i] && keys[i..][m] == keys[i + m];
    assert keys[i..][1..] == keys[i + 1..];
    j := i;
    if keys[i].field != ID && Idle(keys, keys[i].field) {
      assert keys[i + 1..][m - 1] == keys[i + m];
      j := FirstActive(keys, i + 1, dir);
    }
  }

  /** Two records that are found in the order in which a cursor cannot see the second one. */
  predicate Hidden(keys: seq<SortKey>, a: Value, b: Value)
    requires keys != []
  {
    && Sortable([a, b], keys) && HasId(a) && HasId(b) && IdOf(a) != IdOf(b)
    && Earlier(keys, a, b)
    && SortValue(a, keys[0].field).None? && SortValue(b, keys[0].field).None?
    && !Precedes(SortKey(ID, keys[|keys| - 1].dir), a, b)
  }

  predicate RealPaths(keys: seq<SortKey>) {
    forall i | 0 <= i < |keys| :: keys[i].field != []
  }

  lemma PairDistinct(a: Value, b: Value)
    requires HasId(a) && HasId(b) && IdOf(a) != IdOf(b)
    ensures DistinctIds([a, b])
  {
  }

  /** Where the id is compared in the other direction first. */
  lemma HiddenById(keys: seq<SortKey>, j: nat)
    requires keys != [] && RealPaths(keys) && j < |keys| && keys[j].field == ID && keys[j].dir != keys[|keys| - 1].dir
    requires forall k | 0 <= k < j :: keys[k].field != ID
    requires keys[0].field != ID
    ensures Hidden(keys, Bare(if keys[j].dir.Ascending? then "a" else "b"), Bare(if keys[j].dir.Ascending? then "b" else "a"))
  {
    var a, b := Bare(if keys[j].dir.Ascending? then "a" else "b"), Bare(if keys[j].dir.Ascending? then "b" else "a");
    forall h | h != []
      ensures Walk(a, h) == if h == ID then Some(Walk(a, ID).value) else None
      ensures Walk(b, h) == if h == ID then Some(Walk(b, ID).value) else None
    {
      WalkBare(if keys[j].dir.Ascending? then "a" else "b", h);
      WalkBare(if keys[j].dir.Ascending? then "b" else "a", h);
    }
    WalkBare("a", ID);
    WalkBare("b", ID);
    assert StrLess("a", "b") && !StrLess("b", "a");
    PairDistinct(a, b);
    TiesThen(keys, j, a, b);
  }

  /** What a sort key sees of two records that hold a number at `g`. */
  lemma SeenOfDocs(id0: string, id1: string, g: seq<string>, v0: int, v1: int, h: seq<string>)
    requires g != [] && g[0] != "id" && h != [] && !(h < g)
    ensures var a, b := Doc(id0, g, v0), Doc(id1, g, v1);
      && SortValue(a, h) == (if h == ID then Some(Str(id0)) else if h == g then Some(Int(v0)) else None)
      && SortValue(b, h) == (if h == ID then Some(Str(id1)) else if h == g then Some(Int(v1)) else None)
      && Uniform([a, b], h)
  {
    WalkDoc(id0, g, v0, h);
    WalkDoc(id1, g, v1, h);
  }

  lemma DocIds(id: string, g: seq<string>, v: int)
    requires g != [] && g[0] != "id"
    ensures HasId(Doc(id, g, v)) && IdOf(Doc(id, g, v)) == id
  {
  }

  /** Two records whose ids and numbers differ, seen by keys of which number `j` is the first to read the
      numbers. */
  lemma DocsSeen(keys: seq<SortKey>, j: nat, id0: string, id1: string, v0: int, v1: int)
    requires RealPaths(keys) && 0 < j < |keys| && keys[j].field[0] != "id" && id0 != id1
    requires forall k | 0 <= k < |keys| :: !(keys[k].field < keys[j].field)
    requires forall k | 0 <= k < j :: keys[k].field != ID && keys[k].field != keys[j].field
    requires if keys[j].dir.Ascending? then v0 < v1 else v1 < v0
    ensures var a, b := Doc(id0, keys[j].field, v0), Doc(id1, keys[j].field, v1);
      && Sortable([a, b], keys) && HasId(a) && HasId(b) && IdOf(a) == id0 && IdOf(b) == id1
      && SortValue(a, keys[0].field).None? && SortValue(b, keys[0].field).None?
      && Earlier(keys, a, b)
  {
    var g := keys[j].field;
    var a, b := Doc(id0, g, v0), Doc(id1, g, v1);
    DocIds(id0, g, v0);
    DocIds(id1, g, v1);
    PairDistinct(a, b);
    forall k | 0 <= k < |keys|
      ensures Uniform([a, b], keys[k].field)
      ensures k < j ==> SortValue(a, keys[k].field).None? && SortValue(b, keys[k].field).None?
    {
      SeenOfDocs(id0, id1, g, v0, v1, keys[k].field);
    }
    SeenOfDocs(id0, id1, g, v0, v1, g);
    TiesThen(keys, j, a, b);
  }

  /** Where another field is compared before the id. */
  lemma HiddenByField(keys: seq<SortKey>, j: nat) returns (a: Value, b: Value)
    requires keys != [] && RealPaths(keys) && SortsById(keys) && 0 < j < |keys|
    requires keys[j].field != ID && !Idle(keys, keys[j].field) && keys[0].field != ID
    requires forall k | 0 <= k < j :: keys[k].field != ID && (k > 0 ==> Idle(keys, keys[k].field))
    ensures Hidden(keys, a, b)
  {
    var g, up := keys[j].field, keys[|keys| - 1].dir.Ascending?;
    NotBelowId(keys, j);
    // The id order and the order of the field disagree.
    var id0, id1 := if up then "b" else "a", if up then "a" else "b";
    var v0, v1 := if keys[j].dir.Ascending? then 1 else 2, if keys[j].dir.Ascending? then 2 else 1;
    a, b := Doc(id0, g, v0), Doc(id1, g, v1);
    DocsSeen(keys, j, id0, id1, v0, v1);
    assert StrLess("a", "b") && !StrLess("b", "a");
  }

  lemma NotBelowId(keys: seq<SortKey>, j: nat)
    requires keys != [] && RealPaths(keys) && SortsById(keys) && j < |keys|
    requires keys[j].field != ID && !Idle(keys, keys[j].field)
    ensures keys[j].field[0] != "id" && forall k | 0 <= k < |keys| :: !(keys[k].field < keys[j].field)
  {
  }

  lemma HiddenPair(keys: seq<SortKey>) returns (a: Value, b: Value)
    requires keys != [] && RealPaths(keys) && SortsById(keys) && !KeysetFits(keys)
    ensures Hidden(keys, a, b)
  {
    var m :| 0 <= m < |keys| && keys[m].field == ID;
    assert keys[1..][m - 1].field == ID;
    var j := FirstActive(keys, 1, keys[|keys| - 1].dir);
    if keys[j].field == ID {
      HiddenById(keys, j);
      a, b := Bare(if keys[j].dir.Ascending? then "a" else "b"), Bare(if keys[j].dir.Ascending? then "b" else "a");
    } else {
      a, b := HiddenByField(keys, j);
    }
  }

  /** With one record a page, the second record is never returned. */
  lemma HiddenIsLost(sort: seq<SortKey>, a: Value, b: Value)
    requires Hidden(SortFields(sort), a, b)
    ensures AllHaveIds([a, b]) && Collect([a, b], [], sort, 1, 3).0 != FindAll([a, b], [], SortFields(sort))
  {
    var rows, keys := [a, b], SortFields(sort);
    HiddenFound(keys, a, b);
    FirstOfTwo(sort, a, b);
    NothingBehind(sort, a, b);
    var one := Collect(rows, [], sort, 1, 1);
    assert one == OnePageMore(rows, [], sort, 1, Collect(rows, [], sort, 1, 0));
    var two := Collect(rows, [], sort, 1, 2);
    assert two == OnePageMore(rows, [], sort, 1, one);
    assert Collect(rows, [], sort, 1, 3) == OnePageMore(rows, [], sort, 1, two);
    assert [] + [a] == [a] && [a] + [] == [a];
    assert |[a]| != |[a, b]|;
  }

  lemma HiddenFound(keys: seq<SortKey>, a: Value, b: Value)
    requires keys != [] && SortsById(keys) && Hidden(keys, a, b)
    ensures FindAll([a, b], [], keys) == [a, b]
  {
    FoundAscends([a, b], [], keys);
    assert Ascends(keys, [a, b]);
    assert Match(a, []) && Match(b, []);
    OrderDetermines(keys, FindAll([a, b], [], keys), [a, b]);
  }

  lemma FirstOfTwo(sort: seq<SortKey>, a: Value, b: Value)
    requires Hidden(SortFields(sort), a, b)
    ensures AllHaveIds([a, b])
    ensures Page([a, b], [], sort, None, 1) == ([a], Some(Cursor(IdOf(a), None)))
  {
    HiddenFound(SortFields(sort), a, b);
    assert Take([a, b], 2) == [a, b] && Take([a, b], 1) == [a];
  }

  lemma NothingBehind(sort: seq<SortKey>, a: Value, b: Value)
    requires Hidden(SortFields(sort), a, b)
    ensures AllHaveIds([a, b])
    ensures Page([a, b], [], sort, Some(Cursor(IdOf(a), None)), 1) == ([], None)
  {
    var keys := SortFields(sort);
    var byId, c := SortKey(ID, keys[|keys| - 1].dir), Cursor(IdOf(a), None);
    var narrower := PageQuery([], keys, Some(c));
    assert c == CursorOf(a, keys[0]);
    forall x | x in [a, b] ensures !Match(x, narrower) {
      PageQueryMatches(x, [], keys, c);
      KeysetSelects(keys[0], byId.dir, a, x);
      TwoKeys(keys[0], byId, a, x);
      KeyOrder(byId, a, a, a);
    }
    EmptyTogether(Matching([a, b], narrower), []);
    SortByInOrder(keys, []);
    assert |FindAll([a, b], narrower, keys)| == |multiset(FindAll([a, b], narrower, keys))|;
  }

  /** Every collection is visited completely, whatever the query and the page size. */
  ghost predicate VisitsAll(sort: seq<SortKey>) {
    forall rows, query, limit, n: nat | Sortable(rows, SortFields(sort)) && AllHaveIds(rows) && n > |rows| ::
      Collect(rows, query, sort, limit, n).0 == FindAll(rows, query, SortFields(sort))
  }

  lemma {:induction false} MatchingFewer(rows: seq<Value>, query: seq<Entry>)
    ensures |Matching(rows, query)| <= |rows|
  {
    if rows != [] { MatchingFewer(rows[1..], query); }
  }

  lemma VisitsOne(rows: seq<Value>, query: seq<Entry>, sort: seq<SortKey>, limit: int, n: nat)
    requires KeysetFits(SortFields(sort)) && Sortable(rows, SortFields(sort)) && AllHaveIds(rows) && n > |rows|
    ensures Collect(rows, query, sort, limit, n).0 == FindAll(rows, query, SortFields(sort))
  {
    FollowingCursors(rows, query, sort, limit, n);
    MatchingFewer(rows, query);
    SortBySame(SortFields(sort), Matching(rows, query));
    SameMembers(FindAll(rows, query, SortFields(sort)), Matching(rows, query));
    EnoughPages(n, PageSize(limit));
  }

  /** Exactly the specifications that compare nothing between the first field and the id, and the id in
      the direction of the last key, are paged completely. Any other loses records of some collection,
      among them every pair of distinct unrelated fields. */
  lemma VisitsAllIff(sort: seq<SortKey>)
    requires RealPaths(sort)
    ensures VisitsAll(sort) <==> KeysetFits(SortFields(sort))
  {
    var keys := SortFields(sort);
    if KeysetFits(keys) {
      forall rows, query, limit, n: nat | Sortable(rows, keys) && AllHaveIds(rows) && n > |rows|
        ensures Collect(rows, query, sort, limit, n).0 == FindAll(rows, query, keys)
      {
        VisitsOne(rows, query, sort, limit, n);
      }
    } else {
      var a, b := HiddenPair(keys);
      HiddenIsLost(sort, a, b);
    }
  }

  /** One sort field, in either direction, always fits. */
  lemma OneFieldFits(key: SortKey)
    ensures KeysetFits(SortFields([key]))
  {
  }

  // ---------- what a page shows ----------

  /** The ids are strictly in the direction. */
  predicate IdsStand(dir: Direction, a: Value, b: Value) {
    && Walk(a, ["id"]).Some? && Walk(a, ["id"]).value.Str? && Walk(b, ["id"]).Some? && Walk(b, ["id"]).value.Str?
    && if dir == Ascending then LexLess(Walk(a, ["id"]).value.s, Walk(b, ["id"]).value.s)
       else LexLess(Walk(b, ["id"]).value.s, Walk(a, ["id"]).value.s)
  }

  /** `a` stands before `b` under a sort specification: the first field that tells them apart decides, and if
      there is none and the id is not among the fields, the id in the direction of the first field. Without any
      specification the ids ascend. */
  ghost predicate StandsBefore(sort: seq<SortKey>, a: Value, b: Value) {
    if sort == [] then IdsStand(Ascending, a, b)
    else
      || (exists m: nat :: DecidedAt(sort, m, a, b))
      || (&& (forall i | 0 <= i < |sort| :: sort[i].field != ["id"] && !ComesFirst(sort[i], a, b) && !ComesFirst(sort[i], b, a))
          && IdsStand(sort[0].dir, a, b))
  }

  lemma SortableOneKind(rows: seq<Value>, keys: seq<SortKey>, a: Value, b: Value)
    requires Sortable(rows, keys) && a in rows && b in rows
    ensures forall i | 0 <= i < |keys| :: OneKind(a, b, keys[i].field)
  {
    forall i | 0 <= i < |keys| ensures OneKind(a, b, keys[i].field) {
      assert Uniform(rows, keys[i].field);
    }
  }

  lemma IdComesFirst(dir: Direction, a: Value, b: Value)
    requires HasId(a) && HasId(b) && ComesFirst(SortKey(ID, dir), a, b)
    ensures IdsStand(dir, a, b)
  {
  }

  lemma EarlierStands(rows: seq<Value>, sort: seq<SortKey>, a: Value, b: Value)
    requires Sortable(rows, SortFields(sort)) && a in rows && b in rows && HasId(a) && HasId(b)
    requires Earlier(SortFields(sort), a, b)
    ensures StandsBefore(sort, a, b)
  {
    var keys := SortFields(sort);
    SortableOneKind(rows, keys, a, b);
    EarlierMeans(keys, a, b);
    var m: nat :| DecidedAt(keys, m, a, b);
    assert forall i | 0 <= i < |sort| :: sort[i] == keys[i];
    if sort == [] {
      IdComesFirst(Ascending, a, b);
    } else if m < |sort| {
      assert DecidedAt(sort, m, a, b);
    } else {
      IdComesFirst(sort[0].dir, a, b);
    }
  }

  /** Whatever the query, the sort specification, the cursor and the limit: the items of a page are records of
      the collection that match the query, in the order the specification asks for and each once, no more than
      the limit, which counts as 1 below that; where there is a next page the limit is reached. */
  lemma PageShows(rows: seq<Value>, query: seq<Entry>, sort: seq<SortKey>, after: Option<Cursor>, limit: int)
    requires Sortable(rows, SortFields(sort)) && AllHaveIds(rows)
    ensures var (items, next) := Page(rows, query, sort, after, limit);
      && (forall i | 0 <= i < |items| :: items[i] in rows && Match(items[i], query))
      && (forall i, j | 0 <= i < j < |items| :: StandsBefore(sort, items[i], items[j]))
      && |items| <= (if limit >= 1 then limit else 1) && (next.Some? ==> |items| == if limit >= 1 then limit else 1)
  {
    var keys := SortFields(sort);
    var (items, next) := Page(rows, query, sort, after, limit);
    var found := FindAll(rows, PageQuery(query, keys, after), keys);
    FoundAscends(rows, PageQuery(query, keys, after), keys);
    forall i | 0 <= i < |items| ensures items[i] in rows && Match(items[i], query) {
      assert items[i] == found[i] && found[i] in found;
      if after.Some? { PageQueryMatches(found[i], query, keys, after.value); }
    }
    forall i, j | 0 <= i < j < |items| ensures StandsBefore(sort, items[i], items[j]) {
      assert items[i] == found[i] && items[j] == found[j];
      EarlierStands(rows, sort, items[i], items[j]);
    }
  }
}
