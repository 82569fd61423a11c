/** Page-number and id-cursor pagination of objects (jvspatial/core/pager.py). */
module ObjectPagers {
  import opened LexOrder
  import opened MongoQuery
  import opened SortedFind

  // ---------- page arithmetic ----------

  /** `max(1, ceil(total / size))`. */
  function PageCount(total: nat, size: nat): (n: nat)
    requires size >= 1
    ensures n >= 1
  {
    if total == 0 then 1 else (total - 1) / size + 1
  }

  /** Where page `p`, counted from 0, begins: `p * size`. */
  function Offset(p: nat, size: nat): nat {
    if p == 0 then 0 else Offset(p - 1, size) + size
  }

  lemma {:induction false} OffsetIsProduct(p: nat, size: nat)
    ensures Offset(p, size) == p * size
  {
    if p > 0 {
      OffsetIsProduct(p - 1, size);
      assert p * size == (p - 1) * size + size;
    }
  }

  /** The pages before the last one never reach the end, and the last one does. */
  lemma PageCountCovers(total: nat, size: nat)
    requires size >= 1
    ensures Offset(PageCount(total, size), size) >= total
    ensures total > 0 ==> Offset(PageCount(total, size) - 1, size) < total
  {
    if total > 0 {
      var q := (total - 1) / size;
      OffsetIsProduct(q, size);
      assert total - 1 == q * size + (total - 1) % size;
    }
  }

  lemma {:induction false} OffsetGrows(p: nat, q: nat, size: nat)
    requires p <= q
    ensures Offset(p, size) <= Offset(q, size)
    decreases q
  {
    if p < q { OffsetGrows(p, q - 1, size); }
  }

  lemma EarlierPageStarts(p: nat, total: nat, size: nat)
    requires size >= 1 && p < PageCount(total, size)
    ensures p == 0 || size <= Offset(p, size) < total
  {
    PageCountCovers(total, size);
    OffsetGrows(p, PageCount(total, size) - 1, size);
    if p > 0 { OffsetGrows(1, p, size); }
  }

  function SliceAt(all: seq<Value>, offset: nat, size: nat): seq<Value> {
    if offset >= |all| then [] else Take(all[offset..], size)
  }

  /** Page `p`, counted from 0. */
  function Slice(all: seq<Value>, p: nat, size: nat): seq<Value> {
    SliceAt(all, Offset(p, size), size)
  }

  /** The first `n` pages one after the other. */
  function Concatenated(all: seq<Value>, n: nat, size: nat): seq<Value> {
    if n == 0 then [] else Concatenated(all, n - 1, size) + Slice(all, n - 1, size)
  }

  lemma {:induction false} PagesUpTo(all: seq<Value>, n: nat, size: nat)
    ensures Concatenated(all, n, size) == Take(all, Offset(n, size))
  {
    if n > 0 {
      PagesUpTo(all, n - 1, size);
      SliceExtends(all, Offset(n - 1, size), size);
    }
  }

  lemma SliceExtends(all: seq<Value>, k: nat, size: nat)
    ensures Take(all, k) + SliceAt(all, k, size) == Take(all, k + size)
  {
  }

  /** The pages follow one another without overlap and make up the whole result. */
  lemma PagesConcatenate(all: seq<Value>, size: nat)
    requires size >= 1
    ensures Concatenated(all, PageCount(|all|, size), size) == all
    ensures forall p | 0 <= p < PageCount(|all|, size) && all != [] :: Slice(all, p, size) != []
  {
    PagesUpTo(all, PageCount(|all|, size), size);
    PageCountCovers(|all|, size);
    forall p | 0 <= p < PageCount(|all|, size) && all != [] ensures Slice(all, p, size) != [] {
      EarlierPageStarts(p, |all|, size);
    }
  }

  // ---------- the id clause ----------

  const ID_KEY := Path(ID)
  const BY_ID := [SortKey(ID, Ascending)]

  /** `d[key] = val` on a copy of the filter. */
  function WithKey(filter: seq<Entry>, key: Key, val: Value): seq<Entry>
    decreases |filter|
  {
    if filter == [] then [Entry(key, val)]
    else if filter[0].key == key then [Entry(key, val)] + filter[1..]
    else [filter[0]] + WithKey(filter[1..], key, val)
  }

  /** The filter but for one key. */
  function WithoutKey(filter: seq<Entry>, key: Key): seq<Entry>
    decreases |filter|
  {
    if filter == [] then []
    else if filter[0].key == key then filter[1..]
    else [filter[0]] + WithoutKey(filter[1..], key)
  }

  predicate Constrains(filter: seq<Entry>, key: Key) {
    exists i | 0 <= i < |filter| :: filter[i].key == key
  }

  /** `{"id": {"$gt": id}}`. */
  function PastId(id: string): Value {
    Dict([Entry(Dollar(Gt), Str(id))])
  }

  /** The id clause of the filter, if any, is replaced. */
  function Behind(filter: seq<Entry>, id: string): seq<Entry> {
    WithKey(filter, ID_KEY, PastId(id))
  }

  /** The filter but for its id clause. */
  function Rest(filter: seq<Entry>): seq<Entry> {
    WithoutKey(filter, ID_KEY)
  }

  lemma {:induction false} MatchWithKey(doc: Value, filter: seq<Entry>, key: Key, val: Value)
    ensures Match(doc, WithKey(filter, key, val)) <==>
            Match(doc, WithoutKey(filter, key)) && MatchEntry(doc, Entry(key, val), Plain)
    ensures Match(doc, filter) ==> Match(doc, WithoutKey(filter, key))
    decreases |filter|
  {
    if filter == [] {
      MatchCons(doc, Entry(key, val), []);
      assert [Entry(key, val)] + [] == [Entry(key, val)];
    } else {
      assert filter == [filter[0]] + filter[1..];
      MatchCons(doc, filter[0], filter[1..]);
      if filter[0].key == key {
        MatchCons(doc, Entry(key, val), filter[1..]);
      } else {
        MatchWithKey(doc, filter[1..], key, val);
        MatchCons(doc, filter[0], WithKey(filter[1..], key, val));
        MatchCons(doc, filter[0], WithoutKey(filter[1..], key));
      }
    }
  }

  lemma {:induction false} WithoutAbsentKey(filter: seq<Entry>, key: Key)
    requires !Constrains(filter, key)
    ensures WithoutKey(filter, key) == filter
    decreases |filter|
  {
    if filter != [] {
      assert filter[0].key != key;
      assert forall i | 0 <= i < |filter[1..]| :: filter[1..][i] == filter[i + 1];
      WithoutAbsentKey(filter[1..], key);
      assert filter == [filter[0]] + filter[1..];
    }
  }

  /** What a narrowed filter matches: the other clauses, and a larger id. */
  lemma MatchBehind(doc: Value, filter: seq<Entry>, id: string)
    requires HasId(doc)
    ensures Match(doc, Behind(filter, id)) <==> Match(doc, Rest(filter)) && StrLess(id, IdOf(doc))
  {
    MatchWithKey(doc, filter, ID_KEY, PastId(id));
    var ops := [Entry(Dollar(Gt), Str(id))];
    assert MatchOps(Walk(doc, ID), ops, Plain) == (MatchOp(Walk(doc, ID), ops[0], Plain) && MatchOps(Walk(doc, ID), ops[1..], Plain));
    assert ops[1..] == [];
  }

  lemma IdLess(a: Value, b: Value)
    requires HasId(a) && HasId(b)
    ensures Earlier(BY_ID, a, b) <==> StrLess(IdOf(a), IdOf(b))
  {
  }

  // ---------- the two ways to fetch ----------

  /** The keyset branch: the first records behind the id, and whether there are more. */
  function FetchBehind(rows: seq<Value>, filter: seq<Entry>, id: string, size: nat): seq<Value> {
    Find(rows, Behind(filter, id), BY_ID, size)
  }

  /** `doc.get("id", "")`. */
  function IdOrEmpty(doc: Value): string {
    if HasId(doc) then IdOf(doc) else ""
  }

  /** The offset branches. Ordered by id, a later page is fetched behind the last id of those before it. */
  function FetchAt(rows: seq<Value>, filter: seq<Entry>, keys: seq<SortKey>, offset: nat, size: nat): seq<Value> {
    if offset > 0 && keys == BY_ID then
      var skipped := Find(rows, filter, keys, offset);
      if skipped == [] then [] else FetchBehind(rows, filter, IdOrEmpty(skipped[|skipped| - 1]), size)
    else SliceAt(Find(rows, filter, keys, offset + size), offset, size)
  }

  /** The records of an id-ordered result that come behind an id. */
  function After(all: seq<Value>, id: string): (r: seq<Value>)
    ensures forall x :: x in r <==> x in all && HasId(x) && StrLess(id, IdOf(x))
  {
    if all == [] then []
    else if HasId(all[0]) && StrLess(id, IdOf(all[0])) then [all[0]] + After(all[1..], id)
    else After(all[1..], id)
  }

  lemma {:induction false} AfterAscends(all: seq<Value>, id: string)
    requires Ascends(BY_ID, all)
    ensures Ascends(BY_ID, After(all, id))
  {
    if all != [] {
      assert forall i | 0 <= i < |all[1..]| :: all[1..][i] == all[i + 1];
      AfterAscends(all[1..], id);
      var rest := After(all[1..], id);
      forall j | 0 <= j < |rest| ensures Earlier(BY_ID, all[0], rest[j]) {
        assert rest[j] in all[1..];
      }
    }
  }

  /** No record is kept out by the id clause alone. */
  ghost predicate IdClauseIdle(filter: seq<Entry>) {
    forall doc | HasId(doc) && IdOf(doc) != "" && Match(doc, Rest(filter)) :: Match(doc, filter)
  }

  lemma ById()
    ensures SortsById(BY_ID)
  {
    assert BY_ID[0].field == ID;
  }

  lemma KeysetPage(rows: seq<Value>, filter: seq<Entry>, id: string)
    requires DistinctIds(rows) && IdClauseIdle(filter)
    ensures FindAll(rows, Behind(filter, id), BY_ID) == After(FindAll(rows, filter, BY_ID), id)
  {
    ById();
    FoundAscends(rows, filter, BY_ID);
    FoundAscends(rows, Behind(filter, id), BY_ID);
    AfterAscends(FindAll(rows, filter, BY_ID), id);
    forall x ensures x in FindAll(rows, Behind(filter, id), BY_ID) <==> x in After(FindAll(rows, filter, BY_ID), id) {
      if x in rows {
        var i :| 0 <= i < |rows| && rows[i] == x;
        MatchBehind(x, filter, id);
        MatchWithKey(x, filter, ID_KEY, Null);
      }
    }
    OrderDetermines(BY_ID, FindAll(rows, Behind(filter, id), BY_ID), After(FindAll(rows, filter, BY_ID), id));
  }

  ghost predicate KeysetExact(filter: seq<Entry>) {
    forall rows, id, size: nat | DistinctIds(rows) ::
      FetchBehind(rows, filter, id, size) == Take(After(FindAll(rows, filter, BY_ID), id), size)
  }

  /** The keyset page is the matching records behind the id, for every collection and every id, exactly
      when the filter's own id clause, which the page overwrites, keeps nothing out. */
  lemma KeysetExactIff(filter: seq<Entry>)
    ensures KeysetExact(filter) <==> IdClauseIdle(filter)
  {
    if IdClauseIdle(filter) {
      forall rows, id, size: nat | DistinctIds(rows)
        ensures FetchBehind(rows, filter, id, size) == Take(After(FindAll(rows, filter, BY_ID), id), size)
      {
        KeysetPage(rows, filter, id);
      }
    } else {
      var doc :| HasId(doc) && IdOf(doc) != "" && Match(doc, Rest(filter)) && !Match(doc, filter);
      ById();
      FoundAscends([doc], filter, BY_ID);
      FoundAscends([doc], Behind(filter, ""), BY_ID);
      MatchBehind(doc, filter, "");
      assert StrLess("", IdOf(doc));
      var n := |FindAll([doc], Behind(filter, ""), BY_ID)|;
      assert doc in FetchBehind([doc], filter, "", n);
      assert doc !in Take(After(FindAll([doc], filter, BY_ID), ""), n);
      assert DistinctIds([doc]);
    }
  }

  /** A filter without an id clause is such a filter. */
  lemma NoIdClauseIsIdle(filter: seq<Entry>)
    requires !Constrains(filter, ID_KEY)
    ensures IdClauseIdle(filter)
  {
    WithoutAbsentKey(filter, ID_KEY);
  }

  // ---------- pages by number, ordered by id ----------

  predicate Matches(doc: Value, filter: seq<Entry>) {
    HasId(doc) && Match(doc, filter)
  }

  predicate Less(a: Value, b: Value) {
    HasId(a) && HasId(b) && StrLess(IdOf(a), IdOf(b))
  }

  /** A record that only the id clause keeps out. */
  predicate KeptOut(doc: Value, filter: seq<Entry>) {
    HasId(doc) && Match(doc, Rest(filter)) && !Match(doc, filter)
  }

  /** After `a`, the record `y` would wrongly turn up: before the matching `c`, or behind it in a page
      that `c` does not fill, as a page is that begins after two records. */
  ghost predicate Leak(filter: seq<Entry>, a: Value, c: Value, y: Value) {
    && Matches(a, filter) && Matches(c, filter) && KeptOut(y, filter) && Less(a, c) && Less(a, y)
    && (Less(y, c) || (Less(c, y) && exists b :: Matches(b, filter) && Less(b, a)))
  }

  ghost predicate Leaks(filter: seq<Entry>) {
    exists a, c, y :: Leak(filter, a, c, y)
  }

  /** Every page by number is its slice of the whole result, for every collection and page size. */
  ghost predicate OffsetExact(filter: seq<Entry>) {
    forall rows, p: nat, size: nat | DistinctIds(rows) && size >= 1 && p < PageCount(|FindAll(rows, filter, BY_ID)|, size) ::
      FetchAt(rows, filter, BY_ID, Offset(p, size), size) == Slice(FindAll(rows, filter, BY_ID), p, size)
  }

  lemma FoundIs(rows: seq<Value>, filter: seq<Entry>, expected: seq<Value>)
    requires DistinctIds(rows)
    requires forall i, j | 0 <= i < j < |expected| :: Less(expected[i], expected[j])
    requires forall x :: x in expected <==> x in rows && Match(x, filter)
    ensures FindAll(rows, filter, BY_ID) == expected
  {
    ById();
    FoundAscends(rows, filter, BY_ID);
    forall i, j | 0 <= i < j < |expected| ensures Earlier(BY_ID, expected[i], expected[j]) {
      IdLess(expected[i], expected[j]);
    }
    OrderDetermines(BY_ID, FindAll(rows, filter, BY_ID), expected);
  }

  /** The result ordered by id, told by ids. */
  lemma FoundById(rows: seq<Value>, filter: seq<Entry>)
    requires DistinctIds(rows)
    ensures var all := FindAll(rows, filter, BY_ID);
      && (forall i, j | 0 <= i < j < |all| :: Less(all[i], all[j]))
      && (forall x :: x in all <==> x in rows && Match(x, filter))
      && (forall i | 0 <= i < |all| :: Matches(all[i], filter))
  {
    ById();
    FoundAscends(rows, filter, BY_ID);
    var all := FindAll(rows, filter, BY_ID);
    forall i, j | 0 <= i < j < |all| ensures Less(all[i], all[j]) {
      IdLess(all[i], all[j]);
    }
    forall i | 0 <= i < |all| ensures Matches(all[i], filter) {
      assert all[i] in all;
    }
  }

  lemma BehindFound(rows: seq<Value>, filter: seq<Entry>, pivot: Value)
    requires DistinctIds(rows) && HasId(pivot)
    ensures var found := FindAll(rows, Behind(filter, IdOf(pivot)), BY_ID);
      && (forall i, j | 0 <= i < j < |found| :: Less(found[i], found[j]))
      && (forall x :: x in found <==> x in rows && Match(x, Rest(filter)) && Less(pivot, x))
  {
    FoundById(rows, Behind(filter, IdOf(pivot)));
    forall x | x in rows ensures Match(x, Behind(filter, IdOf(pivot))) <==> Match(x, Rest(filter)) && Less(pivot, x) {
      var i :| 0 <= i < |rows| && rows[i] == x;
      MatchBehind(x, filter, IdOf(pivot));
    }
  }

  lemma Ordered2(a: Value, b: Value)
    requires HasId(a) && HasId(b)
    ensures !(Less(a, b) && Less(b, a)) && (IdOf(a) != IdOf(b) ==> Less(a, b) || Less(b, a))
  {
    StrOrder(IdOf(a), IdOf(b), "");
  }

  lemma Ordered3(a: Value, b: Value, c: Value)
    requires Less(a, b) && Less(b, c)
    ensures Less(a, c)
  {
    StrOrder(IdOf(a), IdOf(c), IdOf(b));
    StrOrder(IdOf(b), IdOf(a), IdOf(c));
  }

  /** In the result ordered by id, the records past position `k` are those of a larger id. */
  lemma PastPosition(all: seq<Value>, k: nat, x: Value)
    requires (forall i, j | 0 <= i < j < |all| :: Less(all[i], all[j])) && k < |all| && x in all && HasId(all[k])
    ensures x in all[k + 1..] <==> Less(all[k], x)
  {
    var i :| 0 <= i < |all| && all[i] == x;
    Ordered2(all[k], all[k]);
    if i < k { Ordered2(all[i], all[k]); }
    if i > k { assert all[k + 1..][i - k - 1] == x; }
    var rest := all[k + 1..];
    assert forall j | 0 <= j < |rest| :: rest[j] == all[k + 1 + j];
  }

  /** Where nothing behind the pivot is kept out, the narrowed filter finds the records past it. */
  lemma NothingKeptOut(rows: seq<Value>, filter: seq<Entry>, k: nat)
    requires DistinctIds(rows) && k < |FindAll(rows, filter, BY_ID)| && HasId(FindAll(rows, filter, BY_ID)[k])
    requires forall y | y in rows :: !(KeptOut(y, filter) && Less(FindAll(rows, filter, BY_ID)[k], y))
    ensures FindAll(rows, Behind(filter, IdOf(FindAll(rows, filter, BY_ID)[k])), BY_ID) == FindAll(rows, filter, BY_ID)[k + 1..]
  {
    var all := FindAll(rows, filter, BY_ID);
    var pivot := all[k];
    FoundById(rows, filter);
    BehindFound(rows, filter, pivot);
    ById();
    forall x | x in rows ensures Match(x, Behind(filter, IdOf(pivot))) <==> x in all[k + 1..] {
      var i :| 0 <= i < |rows| && rows[i] == x;
      MatchBehind(x, filter, IdOf(pivot));
      MatchWithKey(x, filter, ID_KEY, Null);
      if x in all { PastPosition(all, k, x); } else { NotInSuffix(all, k + 1, x); }
    }
    FindSuffix(rows, filter, Behind(filter, IdOf(pivot)), BY_ID, k + 1);
  }

  lemma NotInSuffix(all: seq<Value>, k: nat, x: Value)
    requires k <= |all| && x !in all
    ensures x !in all[k..]
  {
  }

  /** A record kept out between the first two leaks. */
  lemma BetweenLeaks(rows: seq<Value>, filter: seq<Entry>, y: Value)
    requires DistinctIds(rows) && |FindAll(rows, filter, BY_ID)| > 1 && KeptOut(y, filter)
    requires Less(FindAll(rows, filter, BY_ID)[0], y) && Less(y, FindAll(rows, filter, BY_ID)[1])
    ensures Leaks(filter)
  {
    var all := FindAll(rows, filter, BY_ID);
    FoundById(rows, filter);
    assert Leak(filter, all[0], all[1], y);
  }

  /** No matching record lies between the first two. */
  lemma NoneBetween(all: seq<Value>, x: Value)
    requires (forall i, j | 0 <= i < j < |all| :: Less(all[i], all[j])) && |all| > 1
    requires x in all && HasId(all[0]) && Less(all[0], x)
    ensures !Less(x, all[1])
  {
    var i :| 0 <= i < |all| && all[i] == x;
    Ordered2(all[0], all[0]);
    Ordered2(all[1], all[1]);
    Ordered2(all[1], x);
  }

  /** Where something is, but nothing leaks, the pivot is the first record and the page has one item:
      the second record, which comes before whatever was kept out. */
  lemma SecondIsNext(rows: seq<Value>, filter: seq<Entry>)
    requires DistinctIds(rows) && !Leaks(filter) && |FindAll(rows, filter, BY_ID)| > 1
    requires HasId(FindAll(rows, filter, BY_ID)[0])
    ensures var all := FindAll(rows, filter, BY_ID);
            var found := FindAll(rows, Behind(filter, IdOf(all[0])), BY_ID);
            found != [] && found[0] == all[1]
  {
    var all := FindAll(rows, filter, BY_ID);
    var found := FindAll(rows, Behind(filter, IdOf(all[0])), BY_ID);
    FoundById(rows, filter);
    BehindFound(rows, filter, all[0]);
    MatchWithKey(all[1], filter, ID_KEY, Null);
    assert all[1] in all && all[1] in found;
    var i :| 0 <= i < |found| && found[i] == all[1];
    assert found[0] in found;
    if Match(found[0], filter) {
      NoneBetween(all, found[0]);
    } else if Less(found[0], all[1]) {
      BetweenLeaks(rows, filter, found[0]);
    }
  }

  /** A later page is fetched behind the last record of the earlier ones. */
  lemma FetchedBehind(rows: seq<Value>, filter: seq<Entry>, offset: nat, size: nat)
    requires DistinctIds(rows) && 1 <= offset <= |FindAll(rows, filter, BY_ID)|
    ensures var pivot := FindAll(rows, filter, BY_ID)[offset - 1];
      HasId(pivot) && FetchAt(rows, filter, BY_ID, offset, size) == FetchBehind(rows, filter, IdOf(pivot), size)
  {
    FoundById(rows, filter);
    var all := FindAll(rows, filter, BY_ID);
    assert Take(all, offset)[offset - 1] == all[offset - 1];
  }

  /** Unless something leaks, every page fetched behind a pivot is the next slice. */
  lemma NoLeakExact(rows: seq<Value>, filter: seq<Entry>, offset: nat, size: nat)
    requires DistinctIds(rows) && !Leaks(filter) && 1 <= size <= offset < |FindAll(rows, filter, BY_ID)|
    ensures FetchAt(rows, filter, BY_ID, offset, size) == SliceAt(FindAll(rows, filter, BY_ID), offset, size)
  {
    FetchedBehind(rows, filter, offset, size);
    var pivot := FindAll(rows, filter, BY_ID)[offset - 1];
    if y :| y in rows && KeptOut(y, filter) && Less(pivot, y) {
      if offset > 1 { TwoBeforeLeak(rows, filter, offset, y); }
      SecondIsNext(rows, filter);
      SameFirst(FindAll(rows, Behind(filter, IdOf(pivot)), BY_ID), FindAll(rows, filter, BY_ID));
    } else {
      NothingKeptOut(rows, filter, offset - 1);
    }
  }

  lemma SameFirst(found: seq<Value>, all: seq<Value>)
    requires found != [] && |all| > 1 && found[0] == all[1]
    ensures Take(found, 1) == SliceAt(all, 1, 1)
  {
  }

  lemma TwoBeforeLeak(rows: seq<Value>, filter: seq<Entry>, offset: nat, y: Value)
    requires DistinctIds(rows) && 2 <= offset < |FindAll(rows, filter, BY_ID)|
    requires y in rows && KeptOut(y, filter) && Less(FindAll(rows, filter, BY_ID)[offset - 1], y)
    ensures Leaks(filter)
  {
    var all := FindAll(rows, filter, BY_ID);
    FoundById(rows, filter);
    var b, a, c := all[offset - 2], all[offset - 1], all[offset];
    DifferentRows(rows, c, y);
    Ordered2(c, y);
    assert Matches(b, filter) && Less(b, a);
    assert Leak(filter, a, c, y);
  }

  lemma DifferentRows(rows: seq<Value>, a: Value, b: Value)
    requires DistinctIds(rows) && a in rows && b in rows && a != b
    ensures HasId(a) && HasId(b) && IdOf(a) != IdOf(b)
  {
  }

  /** A record kept out between two matching ones turns up on the second page of one item. */
  lemma LeakBetween(filter: seq<Entry>, a: Value, c: Value, y: Value)
    requires Matches(a, filter) && Matches(c, filter) && KeptOut(y, filter) && Less(a, y) && Less(y, c)
    ensures var rows := [a, y, c];
      && DistinctIds(rows) && FindAll(rows, filter, BY_ID) == [a, c]
      && FetchAt(rows, filter, BY_ID, 1, 1) == [y]
  {
    var rows := [a, y, c];
    Ordered3(a, y, c);
    Distinct3(a, y, c);
    FoundIs(rows, filter, [a, c]);
    MatchBehind(a, filter, IdOf(a));
    MatchBehind(y, filter, IdOf(a));
    MatchBehind(c, filter, IdOf(a));
    MatchWithKey(c, filter, ID_KEY, Null);
    Ordered2(a, a);
    FoundIs(rows, Behind(filter, IdOf(a)), [y, c]);
    assert Take([a, c], 1) == [a] && Take([y, c], 1) == [y];
  }

  /** A record kept out behind the last matching one fills up the second page of two. */
  lemma LeakBehind(filter: seq<Entry>, b: Value, a: Value, c: Value, y: Value)
    requires Matches(b, filter) && Matches(a, filter) && Matches(c, filter) && KeptOut(y, filter)
    requires Less(b, a) && Less(a, c) && Less(c, y)
    ensures var rows := [b, a, c, y];
      && DistinctIds(rows) && FindAll(rows, filter, BY_ID) == [b, a, c]
      && FetchAt(rows, filter, BY_ID, 2, 2) == [c, y]
  {
    var rows := [b, a, c, y];
    Distinct4(b, a, c, y);
    FoundIs(rows, filter, [b, a, c]);
    MatchBehind(b, filter, IdOf(a));
    MatchBehind(a, filter, IdOf(a));
    MatchBehind(c, filter, IdOf(a));
    MatchBehind(y, filter, IdOf(a));
    MatchWithKey(c, filter, ID_KEY, Null);
    Ordered2(a, a);
    Ordered2(a, b);
    FoundIs(rows, Behind(filter, IdOf(a)), [c, y]);
    assert Take([b, a, c], 2) == [b, a] && Take([c, y], 2) == [c, y];
  }

  lemma LessDiffer(a: Value, b: Value)
    requires Less(a, b)
    ensures IdOf(a) != IdOf(b)
  {
    Ordered2(a, b);
  }

  lemma Distinct3(a: Value, b: Value, c: Value)
    requires Less(a, b) && Less(b, c)
    ensures Less(a, c) && DistinctIds([a, b, c])
  {
    Ordered3(a, b, c);
    LessDiffer(a, b);
    LessDiffer(b, c);
    LessDiffer(a, c);
  }

  lemma Distinct4(a: Value, b: Value, c: Value, d: Value)
    requires Less(a, b) && Less(b, c) && Less(c, d)
    ensures Less(a, c) && Less(a, d) && Less(b, d) && DistinctIds([a, b, c, d])
  {
    Distinct3(a, b, c);
    Ordered3(b, c, d);
    Ordered3(a, b, d);
    LessDiffer(a, d);
    LessDiffer(b, d);
    LessDiffer(c, d);
    var three, four := [a, b, c], [a, b, c, d];
    assert forall i | 0 <= i < 3 :: four[i] == three[i];
  }

  /** The pages by number are right for every collection and page size exactly when the filter leaks
      nothing: the id clause that the later pages overwrite only ever kept out records that would not
      come up anyway. A filter without an id clause leaks nothing (`NoIdClauseLeaksNothing`). */
  lemma OffsetExactIff(filter: seq<Entry>)
    ensures OffsetExact(filter) <==> !Leaks(filter)
  {
    if !Leaks(filter) {
      forall rows, p: nat, size: nat | DistinctIds(rows) && size >= 1 && p < PageCount(|FindAll(rows, filter, BY_ID)|, size)
        ensures FetchAt(rows, filter, BY_ID, Offset(p, size), size) == Slice(FindAll(rows, filter, BY_ID), p, size)
      {
        PageByNumber(rows, filter, p, size);
      }
    } else {
      var a, c, y :| Leak(filter, a, c, y);
      LeakShows(filter, a, c, y);
    }
  }

  lemma LeakShows(filter: seq<Entry>, a: Value, c: Value, y: Value)
    requires Leak(filter, a, c, y)
    ensures !OffsetExact(filter)
  {
    if Less(y, c) {
      LeakBetween(filter, a, c, y);
      Ordered2(y, y);
      NotExact([a, y, c], filter, 1);
    } else {
      var b :| Matches(b, filter) && Less(b, a);
      LeakBehind(filter, b, a, c, y);
      NotExact([b, a, c, y], filter, 2);
    }
  }

  lemma NotExact(rows: seq<Value>, filter: seq<Entry>, size: nat)
    requires DistinctIds(rows) && 1 <= size < |FindAll(rows, filter, BY_ID)|
    requires FetchAt(rows, filter, BY_ID, size, size) != SliceAt(FindAll(rows, filter, BY_ID), size, size)
    ensures !OffsetExact(filter)
  {
    var total := |FindAll(rows, filter, BY_ID)|;
    PageCountCovers(total, size);
    assert PageCount(total, size) > 1;
    assert Offset(1, size) == size;
  }

  lemma PageByNumber(rows: seq<Value>, filter: seq<Entry>, p: nat, size: nat)
    requires DistinctIds(rows) && size >= 1 && !Leaks(filter) && p < PageCount(|FindAll(rows, filter, BY_ID)|, size)
    ensures FetchAt(rows, filter, BY_ID, Offset(p, size), size) == Slice(FindAll(rows, filter, BY_ID), p, size)
  {
    var all := FindAll(rows, filter, BY_ID);
    if p == 0 {
      SliceOfTaken(all, 0, size);
    } else {
      EarlierPageStarts(p, |all|, size);
      NoLeakExact(rows, filter, Offset(p, size), size);
    }
  }

  lemma SliceOfTaken(all: seq<Value>, offset: nat, size: nat)
    ensures SliceAt(Take(all, offset + size), offset, size) == SliceAt(all, offset, size)
  {
  }

  lemma NoIdClauseLeaksNothing(filter: seq<Entry>)
    requires !Constrains(filter, ID_KEY)
    ensures !Leaks(filter)
  {
    WithoutAbsentKey(filter, ID_KEY);
  }

  /** Ordered by a field, every page is its slice, whatever the filter. */
  lemma FieldPageByNumber(rows: seq<Value>, filter: seq<Entry>, keys: seq<SortKey>, p: nat, size: nat)
    requires keys != BY_ID
    ensures FetchAt(rows, filter, keys, Offset(p, size), size) == Slice(FindAll(rows, filter, keys), p, size)
  {
  }

  /** The page behind the last id of a page is the next page. */
  lemma KeysetIsNextPage(rows: seq<Value>, filter: seq<Entry>, p: nat, size: nat)
    requires DistinctIds(rows) && size >= 1 && IdClauseIdle(filter) && Offset(p + 1, size) < |FindAll(rows, filter, BY_ID)|
    requires Offset(p + 1, size) >= 1 && HasId(FindAll(rows, filter, BY_ID)[Offset(p + 1, size) - 1])
    ensures FetchBehind(rows, filter, IdOf(FindAll(rows, filter, BY_ID)[Offset(p + 1, size) - 1]), size)
            == Slice(FindAll(rows, filter, BY_ID), p + 1, size)
  {
    var k := Offset(p + 1, size);
    NothingKeptOutAnywhere(rows, filter, k - 1);
    NothingKeptOut(rows, filter, k - 1);
  }

  lemma NothingKeptOutAnywhere(rows: seq<Value>, filter: seq<Entry>, k: nat)
    requires DistinctIds(rows) && IdClauseIdle(filter) && k < |FindAll(rows, filter, BY_ID)|
    ensures forall y | y in rows :: !(KeptOut(y, filter) && Less(FindAll(rows, filter, BY_ID)[k], y))
  {
  }

  // ---------- the pager ----------

  datatype Answer = Objects(items: seq<Value>) | ValueError

  lemma CountIsLength(rows: seq<Value>, filter: seq<Entry>, keys: seq<SortKey>)
    ensures |Matching(rows, filter)| == |FindAll(rows, filter, keys)|
  {
    SortBySame(keys, Matching(rows, filter));
    SameMembers(FindAll(rows, filter, keys), Matching(rows, filter));
  }

  /** Sorting a slice of a sorted result again changes nothing. */
  lemma SliceStaysSorted(docs: seq<Value>, key: SortKey, offset: nat, size: nat)
    ensures SortBy([key], SliceAt(SortBy([key], docs), offset, size)) == SliceAt(SortBy([key], docs), offset, size)
  {
    var all := SortBy([key], docs);
    var page := SliceAt(all, offset, size);
    SortByInOrder([key], docs);
    assert [key][1..] == [];
    forall i, j | 0 <= i < j < |page| ensures !Precedes(key, page[j], page[i]) {
      assert page[i] == all[offset + i] && page[j] == all[offset + j];
      assert !Earlier([key], all[offset + j], all[offset + i]);
    }
    SortOnceFixes(key, page);
  }

  // ---------- what a page shows ----------

  /** The ids ascend strictly, by code points. */
  predicate IdsAscend(items: seq<Value>) {
    && (forall i | 0 <= i < |items| :: Walk(items[i], ["id"]).Some? && Walk(items[i], ["id"]).value.Str?)
    && forall i, j | 0 <= i < j < |items| :: LexLess(Walk(items[i], ["id"]).value.s, Walk(items[j], ["id"]).value.s)
  }

  /** No item comes first, by the key, of one that stands before it. */
  predicate FieldOrder(key: SortKey, items: seq<Value>) {
    forall i, j | 0 <= i < j < |items| && OneKind(items[i], items[j], key.field) :: !ComesFirst(key, items[j], items[i])
  }

  lemma FoundIdsAscend(rows: seq<Value>, query: seq<Entry>, n: nat)
    requires DistinctIds(rows)
    ensures IdsAscend(Find(rows, query, BY_ID, n)) && forall x | x in Find(rows, query, BY_ID, n) :: x in rows && Match(x, query)
  {
    var all, items := FindAll(rows, query, BY_ID), Find(rows, query, BY_ID, n);
    ById();
    FoundAscends(rows, query, BY_ID);
    forall i | 0 <= i < |items| ensures items[i] == all[i] && items[i] in all {}
    forall i, j | 0 <= i < j < |items| ensures LexLess(IdOf(items[i]), IdOf(items[j])) {
      IdLess(items[i], items[j]);
      StrLessIsLex(IdOf(items[i]), IdOf(items[j]));
    }
  }

  /** A cursor page holds records behind the id, and the ids ascend. */
  lemma BehindShows(rows: seq<Value>, filter: seq<Entry>, id: string, size: nat)
    requires DistinctIds(rows)
    ensures var items := FetchBehind(rows, filter, id, size);
      && IdsAscend(items) && |items| <= size
      && forall x | x in items :: x in rows && Match(x, Rest(filter)) && LexLess(id, Walk(x, ["id"]).value.s)
  {
    var items := FetchBehind(rows, filter, id, size);
    FoundIdsAscend(rows, Behind(filter, id), size);
    forall x | x in items ensures Match(x, Rest(filter)) && LexLess(id, Walk(x, ["id"]).value.s) {
      var i :| 0 <= i < |items| && items[i] == x;
      MatchBehind(x, filter, id);
      StrLessIsLex(id, IdOf(x));
    }
  }

  lemma FieldShows(rows: seq<Value>, filter: seq<Entry>, key: SortKey, offset: nat, size: nat)
    requires [key] != BY_ID
    ensures var items := FetchAt(rows, filter, [key], offset, size);
      FieldOrder(key, items) && |items| <= size && forall x | x in items :: x in rows && Match(x, filter)
  {
    var all, items := FindAll(rows, filter, [key]), FetchAt(rows, filter, [key], offset, size);
    SortByInOrder([key], Matching(rows, filter));
    SameMembers(all, Matching(rows, filter));
    forall i | 0 <= i < |items| ensures offset + i < |all| && items[i] == all[offset + i] && items[i] in all {}
    forall i, j | 0 <= i < j < |items| && OneKind(items[i], items[j], key.field) ensures !ComesFirst(key, items[j], items[i]) {
      assert !Earlier([key], all[offset + j], all[offset + i]);
      PrecedesMeans(key, items[j], items[i]);
    }
  }

  class ObjectPager {
    const pageSize: nat
    const orderBy: Option<seq<string>>
    const direction: Direction
    var currentPage: nat
    var totalItems: nat
    var totalPages: nat
    var hasPrevious: bool
    var hasNext: bool
    var isCached: bool

    constructor (pageSize: int, orderBy: Option<seq<string>>, direction: Direction)
      ensures Valid() && this.pageSize == (if pageSize < 1 then 1 else pageSize)
      ensures this.orderBy == orderBy && this.direction == direction
      ensures currentPage == 1 && totalItems == 0 && totalPages == 1 && !hasPrevious && !hasNext && !isCached
    {
      this.pageSize := if pageSize < 1 then 1 else pageSize;
      this.orderBy, this.direction := orderBy, direction;
      currentPage, totalItems, totalPages := 1, 0, 1;
      hasPrevious, hasNext, isCached := false, false, false;
    }

    predicate Valid()
      reads this
    {
      pageSize >= 1 && currentPage >= 1 && totalPages >= 1 && !isCached
    }

    /** Fields are stored below `context`. */
    function Keys(): (keys: seq<SortKey>)
      ensures keys == BY_ID <==> orderBy.None?
    {
      if orderBy.None? then BY_ID
      else
        var key := SortKey(["context"] + orderBy.value, direction);
        assert key.field[0] != ID[0];
        [key]
    }

    function All(rows: seq<Value>, filter: seq<Entry>): seq<Value> {
      FindAll(rows, filter, Keys())
    }

    /** Pagination by cursor where an id is given, else by number. */
    method GetPage(rows: seq<Value>, filter: seq<Entry>, page: int, afterId: Option<string>) returns (r: Answer)
      requires Valid()
      modifies this
      ensures Valid()
      ensures afterId.Some? && orderBy.Some? ==> r == ValueError && unchanged(this)
      ensures afterId.Some? && orderBy.None? ==>
                && r == Objects(FetchBehind(rows, filter, afterId.value, pageSize))
                && (hasNext <==> |FindAll(rows, Behind(filter, afterId.value), BY_ID)| > pageSize)
                && unchanged(`currentPage, `totalItems, `totalPages, `hasPrevious)
      ensures afterId.None? ==> r.Objects? && Shows(rows, filter, page, r.items)
    {
      if afterId.Some? {
        if orderBy.Some? {
          return ValueError;
        }
        var items := GetBehind(rows, filter, afterId.value);
        return Objects(items);
      }
      var items := GetNumbered(rows, filter, page);
      return Objects(items);
    }

    /** The counters after asking for a page by number: the number is brought into range and they describe
        the whole result. */
    predicate Counts(rows: seq<Value>, filter: seq<Entry>, page: int)
      requires Valid()
      reads this
    {
      && totalItems == |All(rows, filter)| && totalPages == PageCount(totalItems, pageSize)
      && currentPage == (if page < 1 then 1 else if page > totalPages then totalPages else page)
      && (hasPrevious <==> currentPage > 1) && (hasNext <==> currentPage < totalPages)
    }

    /** The counters, and the items fetched for that page. */
    ghost predicate Shows(rows: seq<Value>, filter: seq<Entry>, page: int, items: seq<Value>)
      requires Valid()
      reads this
    {
      && Counts(rows, filter, page)
      && items == FetchAt(rows, filter, Keys(), Offset(currentPage - 1, pageSize), pageSize)
    }

    /** What a page by number shows: without a field order records by ascending id; with one, records by that
        field of their context in the direction asked for, those without a value last. */
    lemma PageReads(rows: seq<Value>, filter: seq<Entry>, page: int, items: seq<Value>)
      requires Valid() && Shows(rows, filter, page, items) && DistinctIds(rows)
      ensures |items| <= pageSize && forall x | x in items :: x in rows
      ensures orderBy.None? ==> IdsAscend(items)
      ensures orderBy.Some? ==> FieldOrder(SortKey(["context"] + orderBy.value, direction), items)
      ensures orderBy.Some? ==> forall x | x in items :: Match(x, filter)
    {
      var offset := Offset(currentPage - 1, pageSize);
      if orderBy.Some? {
        FieldShows(rows, filter, Keys()[0], offset, pageSize);
        assert Keys() == [Keys()[0]];
      } else if offset == 0 {
        FoundIdsAscend(rows, filter, offset + pageSize);
        assert items == Find(rows, filter, BY_ID, offset + pageSize);
      } else {
        var skipped := Find(rows, filter, BY_ID, offset);
        if skipped != [] { BehindShows(rows, filter, IdOrEmpty(skipped[|skipped| - 1]), pageSize); }
      }
    }

    method GetNumbered(rows: seq<Value>, filter: seq<Entry>, page: int) returns (items: seq<Value>)
      requires Valid()
      modifies this
      ensures Valid() && Shows(rows, filter, page, items)
    {
      SetCounters(rows, filter, page);
      items := FetchPage(rows, filter, currentPage - 1);
    }

    method SetCounters(rows: seq<Value>, filter: seq<Entry>, page: int)
      requires Valid()
      modifies this
      ensures Valid() && Counts(rows, filter, page)
      ensures currentPage <= PageCount(|All(rows, filter)|, pageSize)
    {
      currentPage := if page > 1 then page else 1;
      totalItems := |Matching(rows, filter)|;
      CountIsLength(rows, filter, Keys());
      totalPages := PageCount(totalItems, pageSize);
      currentPage := if currentPage < totalPages then currentPage else totalPages;
      hasPrevious, hasNext := currentPage > 1, currentPage < totalPages;
    }

    /** The items fetched for a page in range are that slice of the whole result, ordered by a field for
        every filter, ordered by id for every filter that leaks nothing. */
    lemma FetchedSlice(rows: seq<Value>, filter: seq<Entry>, p: nat)
      requires pageSize >= 1 && p < PageCount(|All(rows, filter)|, pageSize)
      requires orderBy.Some? || (DistinctIds(rows) && !Leaks(filter))
      ensures FetchAt(rows, filter, Keys(), Offset(p, pageSize), pageSize) == Slice(All(rows, filter), p, pageSize)
    {
      if orderBy.Some? {
        FieldPageByNumber(rows, filter, Keys(), p, pageSize);
      } else {
        PageByNumber(rows, filter, p, pageSize);
      }
    }

    method GetBehind(rows: seq<Value>, filter: seq<Entry>, id: string) returns (items: seq<Value>)
      requires Valid()
      modifies this`hasNext
      ensures items == FetchBehind(rows, filter, id, pageSize)
      ensures hasNext <==> |FindAll(rows, Behind(filter, id), BY_ID)| > pageSize
    {
      items := Find(rows, Behind(filter, id), BY_ID, pageSize + 1);
      hasNext := |items| > pageSize;
      if hasNext {
        items := items[..pageSize];
      }
    }

    /** The slice, taken in one of two ways; a field order is imposed once more on what came back. */
    method FetchPage(rows: seq<Value>, filter: seq<Entry>, p: nat) returns (items: seq<Value>)
      requires Valid()
      ensures items == FetchAt(rows, filter, Keys(), Offset(p, pageSize), pageSize)
    {
      OffsetIsProduct(p, pageSize);
      var offset := p * pageSize;
      if offset > 0 && Keys() == BY_ID {
        var skipped := Find(rows, filter, Keys(), offset);
        if skipped == [] {
          items := [];
        } else {
          items := Find(rows, Behind(filter, IdOrEmpty(skipped[|skipped| - 1])), BY_ID, pageSize);
        }
      } else {
        var found := Find(rows, filter, Keys(), offset + pageSize);
        items := SliceAt(found, offset, pageSize);
      }
      if orderBy.Some? {
        SliceOfTaken(All(rows, filter), offset, pageSize);
        SliceStaysSorted(Matching(rows, filter), Keys()[0], offset, pageSize);
        items := SortBy(Keys(), items);
      }
    }

    predicate HasNextPage()
      reads this
    {
      currentPage < totalPages
    }

    method NextPage(rows: seq<Value>, filter: seq<Entry>) returns (items: seq<Value>)
      requires Valid()
      modifies this
      ensures Valid()
      ensures if old(currentPage) < old(totalPages) then Shows(rows, filter, old(currentPage) + 1, items) else items == [] && unchanged(this)
    {
      if HasNextPage() {
        items := GetNumbered(rows, filter, currentPage + 1);
      } else {
        items := [];
      }
    }

    method PreviousPage(rows: seq<Value>, filter: seq<Entry>) returns (items: seq<Value>)
      requires Valid()
      modifies this
      ensures Valid()
      ensures if old(currentPage) > 1 then Shows(rows, filter, old(currentPage) - 1, items) else items == [] && unchanged(this)
    {
      if currentPage > 1 {
        items := GetNumbered(rows, filter, currentPage - 1);
      } else {
        items := [];
      }
    }
  }
}
