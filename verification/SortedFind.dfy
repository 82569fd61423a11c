/** `find` of a database adapter: filter, stable sort with missing values last, limit
    (jvspatial/db/database.py:73-164), and what a sorted result is determined by. */
module SortedFind {
  import opened LexOrder
  import opened MongoQuery

  datatype Direction = Ascending | Descending

  datatype SortKey = SortKey(field: seq<string>, dir: Direction)

  const ID := ["id"]

  // ---------- the order ----------

  /** `resolve_sort_value`: an explicit null counts as missing. */
  function SortValue(doc: Value, field: seq<string>): Option<Value> {
    if IsAbsent(Walk(doc, field)) then None else Walk(doc, field)
  }

  /** Python orders numbers among themselves and strings among themselves; it raises on other pairs,
      which `Sortable` excludes. Here they are given some fixed order. */
  function Kind(v: Value): nat {
    if IsNumber(v) then 0 else if v.Str? then 1 else 2
  }

  predicate Below(v: Value, w: Value) {
    if Kind(v) != Kind(w) then Kind(v) < Kind(w)
    else if IsNumber(v) then NumberOf(v) < NumberOf(w)
    else v.Str? && StrLess(v.s, w.s)
  }

  /** `_find_sort_key` in the given direction: records without a value come last either way. */
  predicate Precedes(k: SortKey, a: Value, b: Value) {
    var x, y := SortValue(a, k.field), SortValue(b, k.field);
    x.Some? && (y.None? || if k.dir.Ascending? then Below(x.value, y.value) else Below(y.value, x.value))
  }

  /** The compound order: the first key that separates two records decides. */
  predicate Earlier(keys: seq<SortKey>, a: Value, b: Value) {
    keys != [] && (Precedes(keys[0], a, b) || (!Precedes(keys[0], b, a) && Earlier(keys[1..], a, b)))
  }

  lemma {:induction false} StrOrder(a: string, b: string, c: string)
    ensures !(StrLess(a, b) && StrLess(b, a))
    ensures StrLess(a, c) ==> StrLess(a, b) || StrLess(b, c)
    ensures !StrLess(a, b) && !StrLess(b, a) ==> a == b
    decreases |a| + |b| + |c|
  {
    if a != "" && b != "" {
      StrOrder(a[1..], b[1..], if c == "" then "" else c[1..]);
      if a[0] == b[0] && a[1..] == b[1..] { assert a == [a[0]] + a[1..] && b == [b[0]] + b[1..]; }
    }
  }

  lemma BelowOrder(u: Value, v: Value, w: Value)
    ensures !(Below(u, v) && Below(v, u))
    ensures Below(u, w) ==> Below(u, v) || Below(v, w)
  {
    if u.Str? && v.Str? {
      StrOrder(u.s, v.s, if w.Str? then w.s else "");
    }
  }

  lemma KeyOrder(k: SortKey, a: Value, b: Value, c: Value)
    ensures !(Precedes(k, a, b) && Precedes(k, b, a))
    ensures Precedes(k, a, c) ==> Precedes(k, a, b) || Precedes(k, b, c)
  {
    var x, y, z := SortValue(a, k.field), SortValue(b, k.field), SortValue(c, k.field);
    if x.Some? && y.Some? && z.Some? {
      BelowOrder(x.value, y.value, z.value);
      BelowOrder(z.value, y.value, x.value);
    }
    if x.Some? && y.Some? { BelowOrder(x.value, y.value, x.value); }
  }

  /** The compound order is a strict weak order. */
  lemma {:induction false} CompoundOrder(keys: seq<SortKey>, a: Value, b: Value, c: Value)
    ensures !(Earlier(keys, a, b) && Earlier(keys, b, a))
    ensures Earlier(keys, a, c) ==> Earlier(keys, a, b) || Earlier(keys, b, c)
    decreases |keys|
  {
    if keys != [] {
      KeyOrder(keys[0], a, b, c);
      KeyOrder(keys[0], b, a, c);
      KeyOrder(keys[0], b, c, a);
      KeyOrder(keys[0], c, b, a);
      KeyOrder(keys[0], c, a, b);
      CompoundOrder(keys[1..], a, b, c);
    }
  }

  // ---------- the order in plain words ----------

  predicate NoValue(doc: Value, field: seq<string>) {
    Walk(doc, field) == None || Walk(doc, field) == Some(Null)
  }

  /** One number or string is less than another: by value, by code points. */
  predicate LessThan(v: Value, w: Value) {
    || (v.Int? && w.Int? && v.i < w.i)
    || (v.Int? && w.Float? && v.i as real < w.r)
    || (v.Float? && w.Int? && v.r < w.i as real)
    || (v.Float? && w.Float? && v.r < w.r)
    || (v.Str? && w.Str? && LexLess(v.s, w.s))
  }

  /** The first record has a value and the second has none, or one further in the direction. */
  predicate ComesFirst(k: SortKey, a: Value, b: Value) {
    && !NoValue(a, k.field)
    && (NoValue(b, k.field)
        || if k.dir == Ascending then LessThan(Walk(a, k.field).value, Walk(b, k.field).value)
           else LessThan(Walk(b, k.field).value, Walk(a, k.field).value))
  }

  /** A number, a string or nothing. */
  predicate NumberOrString(doc: Value, field: seq<string>) {
    NoValue(doc, field) || IsNumber(Walk(doc, field).value) || Walk(doc, field).value.Str?
  }

  /** Both records have numbers there, or strings, as far as they have anything. */
  predicate OneKind(a: Value, b: Value, field: seq<string>) {
    && NumberOrString(a, field) && NumberOrString(b, field)
    && (!NoValue(a, field) && !NoValue(b, field) ==> (Walk(a, field).value.Str? <==> Walk(b, field).value.Str?))
  }

  lemma PrecedesMeans(k: SortKey, a: Value, b: Value)
    requires OneKind(a, b, k.field)
    ensures Precedes(k, a, b) <==> ComesFirst(k, a, b)
  {
    var x, y := SortValue(a, k.field), SortValue(b, k.field);
    if x.Some? && y.Some? && x.value.Str? {
      StrLessIsLex(x.value.s, y.value.s);
      StrLessIsLex(y.value.s, x.value.s);
    }
  }

  /** The keys decide at position `m`: up to there neither record comes first. */
  predicate DecidedAt(keys: seq<SortKey>, m: nat, a: Value, b: Value) {
    && m < |keys| && ComesFirst(keys[m], a, b)
    && forall l | 0 <= l < m :: !ComesFirst(keys[l], a, b) && !ComesFirst(keys[l], b, a)
  }

  lemma DecidedFurther(keys: seq<SortKey>, m: nat, a: Value, b: Value)
    requires keys != []
    ensures DecidedAt(keys, m + 1, a, b) <==>
            !ComesFirst(keys[0], a, b) && !ComesFirst(keys[0], b, a) && DecidedAt(keys[1..], m, a, b)
  {
    var rest := keys[1..];
    assert forall l | 0 <= l < |rest| :: rest[l] == keys[l + 1];
    if DecidedAt(rest, m, a, b) && !ComesFirst(keys[0], a, b) && !ComesFirst(keys[0], b, a) {
      forall l | 0 <= l < m + 1 ensures !ComesFirst(keys[l], a, b) && !ComesFirst(keys[l], b, a) {
        if l > 0 { assert keys[l] == rest[l - 1]; }
      }
    }
  }

  /** One record is sorted before another exactly if some key puts it first and no key before decides. */
  lemma {:induction false} EarlierMeans(keys: seq<SortKey>, a: Value, b: Value)
    requires forall i | 0 <= i < |keys| :: OneKind(a, b, keys[i].field)
    ensures Earlier(keys, a, b) <==> exists m: nat :: DecidedAt(keys, m, a, b)
    decreases |keys|
  {
    if keys != [] {
      PrecedesMeans(keys[0], a, b);
      PrecedesMeans(keys[0], b, a);
      EarlierMeans(keys[1..], a, b);
      DecidedFirst(keys, a, b);
    }
  }

  lemma DecidedFirst(keys: seq<SortKey>, a: Value, b: Value)
    requires keys != []
    ensures (exists m: nat :: DecidedAt(keys, m, a, b)) <==>
            || ComesFirst(keys[0], a, b)
            || (!ComesFirst(keys[0], b, a) && exists m: nat :: DecidedAt(keys[1..], m, a, b))
  {
    if ComesFirst(keys[0], a, b) { assert DecidedAt(keys, 0, a, b); }
    if m: nat :| DecidedAt(keys[1..], m, a, b) { DecidedFurther(keys, m, a, b); }
    if m: nat :| DecidedAt(keys, m, a, b) {
      if m > 0 { DecidedFurther(keys, m - 1, a, b); }
    }
  }

  // ---------- the stable sort ----------

  /** No later record belongs before an earlier one. */
  predicate InOrder(keys: seq<SortKey>, docs: seq<Value>) {
    forall i, j | 0 <= i < j < |docs| :: !Earlier(keys, docs[j], docs[i])
  }

  /** A record from the left goes before those that tie with it. */
  function Insert(k: SortKey, x: Value, docs: seq<Value>): seq<Value> {
    if docs == [] || !Precedes(k, docs[0], x) then [x] + docs
    else [docs[0]] + Insert(k, x, docs[1..])
  }

  /** `list.sort` on one key, in either direction: stable. */
  function SortOnce(k: SortKey, docs: seq<Value>): seq<Value> {
    if docs == [] then [] else Insert(k, docs[0], SortOnce(k, docs[1..]))
  }

  /** `finalize_find_results` without the limit: one stable sort per key, the last key first. */
  function SortBy(keys: seq<SortKey>, docs: seq<Value>): seq<Value>
    decreases |keys|
  {
    if keys == [] then docs else SortOnce(keys[0], SortBy(keys[1..], docs))
  }

  lemma {:induction false} InsertSame(k: SortKey, x: Value, docs: seq<Value>)
    ensures multiset(Insert(k, x, docs)) == multiset(docs) + multiset{x}
  {
    if docs != [] && Precedes(k, docs[0], x) {
      InsertSame(k, x, docs[1..]);
      assert docs == [docs[0]] + docs[1..];
    }
  }

  lemma {:induction false} SortOnceSame(k: SortKey, docs: seq<Value>)
    ensures multiset(SortOnce(k, docs)) == multiset(docs)
  {
    if docs != [] {
      SortOnceSame(k, docs[1..]);
      InsertSame(k, docs[0], SortOnce(k, docs[1..]));
      assert docs == [docs[0]] + docs[1..];
    }
  }

  lemma {:induction false} SortBySame(keys: seq<SortKey>, docs: seq<Value>)
    ensures multiset(SortBy(keys, docs)) == multiset(docs)
    decreases |keys|
  {
    if keys != [] {
      SortBySame(keys[1..], docs);
      SortOnceSame(keys[0], SortBy(keys[1..], docs));
    }
  }

  lemma SameMembers(a: seq<Value>, b: seq<Value>)
    requires multiset(a) == multiset(b)
    ensures |a| == |b| && forall x :: x in a <==> x in b
  {
    assert |a| == |multiset(a)| && |b| == |multiset(b)|;
    forall x ensures x in a <==> x in b {
      assert x in a <==> x in multiset(a);
      assert x in b <==> x in multiset(b);
    }
  }

  lemma {:induction false} InsertInOrder(keys: seq<SortKey>, x: Value, docs: seq<Value>)
    requires keys != [] && InOrder(keys, docs)
    requires forall y | y in docs :: !Earlier(keys[1..], y, x)
    ensures InOrder(keys, Insert(keys[0], x, docs))
  {
    var k, out := keys[0], Insert(keys[0], x, docs);
    if docs == [] {
    } else if Precedes(k, docs[0], x) {
      assert forall i | 0 <= i < |docs[1..]| :: docs[1..][i] == docs[i + 1];
      InsertInOrder(keys, x, docs[1..]);
      InsertSame(k, x, docs[1..]);
      var rest := Insert(k, x, docs[1..]);
      forall j | 0 <= j < |rest| ensures !Earlier(keys, rest[j], docs[0]) {
        assert rest[j] in multiset(rest);
        if rest[j] != x {
          assert rest[j] in docs[1..];
        } else {
          CompoundOrder(keys, docs[0], x, x);
        }
      }
    } else {
      forall j | 0 <= j < |docs| ensures !Earlier(keys, docs[j], x) {
        KeyOrder(k, docs[j], docs[0], x);
        assert docs[j] in docs;
        if j > 0 { assert !Earlier(keys, docs[j], docs[0]); }
      }
      assert forall i | 0 < i < |out| :: out[i] == docs[i - 1];
    }
  }

  lemma {:induction false} SortOnceInOrder(keys: seq<SortKey>, docs: seq<Value>)
    requires keys != [] && InOrder(keys[1..], docs)
    ensures InOrder(keys, SortOnce(keys[0], docs))
    decreases |docs|
  {
    if docs != [] {
      var rest := docs[1..];
      assert forall i | 0 <= i < |rest| :: rest[i] == docs[i + 1];
      SortOnceInOrder(keys, rest);
      SortOnceSame(keys[0], rest);
      SameMembers(SortOnce(keys[0], rest), rest);
      forall y | y in SortOnce(keys[0], rest) ensures !Earlier(keys[1..], y, docs[0]) {
        var i :| 0 <= i < |rest| && rest[i] == y;
      }
      InsertInOrder(keys, docs[0], SortOnce(keys[0], rest));
    }
  }

  /** Sorting key by key, the last first, yields the compound order of the same records. */
  lemma {:induction false} SortByInOrder(keys: seq<SortKey>, docs: seq<Value>)
    ensures InOrder(keys, SortBy(keys, docs))
    ensures multiset(SortBy(keys, docs)) == multiset(docs)
    decreases |keys|
  {
    SortBySame(keys, docs);
    if keys != [] {
      SortByInOrder(keys[1..], docs);
      SortOnceInOrder(keys, SortBy(keys[1..], docs));
    }
  }

  lemma {:induction false} SortOnceFixes(k: SortKey, docs: seq<Value>)
    requires forall i, j | 0 <= i < j < |docs| :: !Precedes(k, docs[j], docs[i])
    ensures SortOnce(k, docs) == docs
  {
    if docs != [] {
      assert forall i | 0 <= i < |docs[1..]| :: docs[1..][i] == docs[i + 1];
      SortOnceFixes(k, docs[1..]);
      assert docs == [docs[0]] + docs[1..];
    }
  }

  // ---------- distinct ids ----------

  predicate HasId(doc: Value) {
    var id := Walk(doc, ID);
    id.Some? && id.value.Str?
  }

  function IdOf(doc: Value): string
    requires HasId(doc)
  {
    Walk(doc, ID).value.s
  }

  predicate DistinctIds(docs: seq<Value>) {
    && (forall i | 0 <= i < |docs| :: HasId(docs[i]))
    && (forall i, j | 0 <= i < j < |docs| :: IdOf(docs[i]) != IdOf(docs[j]))
  }

  predicate SortsById(keys: seq<SortKey>) {
    exists i | 0 <= i < |keys| :: keys[i].field == ID
  }

  /** Every record comes strictly before every later one. */
  predicate Ascends(keys: seq<SortKey>, docs: seq<Value>) {
    forall i, j | 0 <= i < j < |docs| :: Earlier(keys, docs[i], docs[j])
  }

  lemma IdSeparates(k: SortKey, a: Value, b: Value)
    requires k.field == ID && HasId(a) && HasId(b) && IdOf(a) != IdOf(b)
    ensures Precedes(k, a, b) || Precedes(k, b, a)
  {
    StrOrder(IdOf(a), IdOf(b), "");
  }

  lemma {:induction false} IdDecides(keys: seq<SortKey>, a: Value, b: Value)
    requires SortsById(keys) && HasId(a) && HasId(b) && IdOf(a) != IdOf(b)
    ensures Earlier(keys, a, b) || Earlier(keys, b, a)
    decreases |keys|
  {
    if keys[0].field == ID {
      IdSeparates(keys[0], a, b);
    } else {
      var i :| 0 <= i < |keys| && keys[i].field == ID;
      assert keys[1..][i - 1].field == ID;
      IdDecides(keys[1..], a, b);
    }
  }

  lemma SortByAscends(keys: seq<SortKey>, docs: seq<Value>)
    requires SortsById(keys) && DistinctIds(docs)
    ensures Ascends(keys, SortBy(keys, docs)) && DistinctIds(SortBy(keys, docs))
  {
    var out := SortBy(keys, docs);
    SortByInOrder(keys, docs);
    SameDistinct(docs, out);
    forall i, j | 0 <= i < j < |out| ensures Earlier(keys, out[i], out[j]) {
      IdDecides(keys, out[i], out[j]);
    }
  }

  lemma SameDistinct(a: seq<Value>, b: seq<Value>)
    requires multiset(a) == multiset(b) && DistinctIds(a)
    ensures DistinctIds(b)
  {
    SameMembers(a, b);
    forall i | 0 <= i < |b| ensures HasId(b[i]) {
      assert b[i] in a;
    }
    forall i, j | 0 <= i < j < |b| ensures IdOf(b[i]) != IdOf(b[j]) {
      assert b[i] in a && b[j] in a;
      if b[i] == b[j] {
        Twice(b, i, j);
        Once(a, b[i]);
      }
    }
  }

  lemma Twice(s: seq<Value>, i: nat, j: nat)
    requires i < j < |s| && s[i] == s[j]
    ensures multiset(s)[s[i]] >= 2
  {
    assert s == s[..j] + ([s[j]] + s[j + 1..]);
    assert s[..j][i] == s[i];
    assert multiset(s) == multiset(s[..j]) + (multiset{s[j]} + multiset(s[j + 1..]));
    assert s[i] in multiset(s[..j]);
  }

  lemma {:induction false} Once(s: seq<Value>, x: Value)
    requires DistinctIds(s)
    ensures multiset(s)[x] <= 1
  {
    if s != [] {
      var rest := s[1..];
      assert s == [s[0]] + rest;
      assert forall i | 0 <= i < |rest| :: rest[i] == s[i + 1];
      Once(rest, x);
      if x == s[0] { assert x !in rest; }
    }
  }

  /** A strictly ordered sequence is determined by its members. */
  lemma {:induction false} OrderDetermines(keys: seq<SortKey>, a: seq<Value>, b: seq<Value>)
    requires Ascends(keys, a) && Ascends(keys, b) && forall x :: x in a <==> x in b
    ensures a == b
    decreases |a|
  {
    EmptyTogether(a, b);
    if a != [] {
      assert a[0] in b;
      assert b[0] in a;
      var i :| 0 <= i < |b| && b[i] == a[0];
      var j :| 0 <= j < |a| && a[j] == b[0];
      CompoundOrder(keys, a[0], b[0], a[0]);
      assert a[0] == b[0];
      TailMembers(keys, a, b);
      OrderDetermines(keys, a[1..], b[1..]);
      assert a == [a[0]] + a[1..] && b == [b[0]] + b[1..];
    }
  }

  lemma EmptyTogether(a: seq<Value>, b: seq<Value>)
    requires forall x :: x in a <==> x in b
    ensures a == [] <==> b == []
  {
    if a != [] { assert a[0] in a; }
    if b != [] { assert b[0] in b; }
  }

  lemma TailMembers(keys: seq<SortKey>, a: seq<Value>, b: seq<Value>)
    requires a != [] && b != [] && a[0] == b[0] && Ascends(keys, a) && Ascends(keys, b)
    requires forall x :: x in a <==> x in b
    ensures Ascends(keys, a[1..]) && Ascends(keys, b[1..])
    ensures forall x :: x in a[1..] <==> x in b[1..]
  {
    assert forall i | 0 <= i < |a[1..]| :: a[1..][i] == a[i + 1];
    assert forall i | 0 <= i < |b[1..]| :: b[1..][i] == b[i + 1];
    HeadOnce(keys, a);
    HeadOnce(keys, b);
    assert a == [a[0]] + a[1..] && b == [b[0]] + b[1..];
    forall x ensures x in a[1..] <==> x in b[1..] {
      assert x in a <==> x == a[0] || x in a[1..];
      assert x in b <==> x == b[0] || x in b[1..];
    }
  }

  lemma HeadOnce(keys: seq<SortKey>, a: seq<Value>)
    requires a != [] && Ascends(keys, a)
    ensures a[0] !in a[1..]
  {
    CompoundOrder(keys, a[0], a[0], a[0]);
    assert forall i | 0 <= i < |a[1..]| :: a[1..][i] == a[i + 1];
  }

  // ---------- find ----------

  function Matching(rows: seq<Value>, query: seq<Entry>): (r: seq<Value>)
    ensures forall x :: x in r <==> x in rows && Match(x, query)
  {
    if rows == [] then []
    else if Match(rows[0], query) then [rows[0]] + Matching(rows[1..], query)
    else Matching(rows[1..], query)
  }

  function Take<T>(s: seq<T>, n: nat): seq<T> {
    if |s| <= n then s else s[..n]
  }

  /** `db.find(collection, query, limit=limit, sort=keys)`. */
  function Find(rows: seq<Value>, query: seq<Entry>, keys: seq<SortKey>, limit: nat): seq<Value> {
    Take(FindAll(rows, query, keys), limit)
  }

  function FindAll(rows: seq<Value>, query: seq<Entry>, keys: seq<SortKey>): seq<Value> {
    SortBy(keys, Matching(rows, query))
  }

  lemma {:induction false} MatchingDistinct(rows: seq<Value>, query: seq<Entry>)
    requires DistinctIds(rows)
    ensures DistinctIds(Matching(rows, query))
  {
    if rows != [] {
      var rest := rows[1..];
      assert forall i | 0 <= i < |rest| :: rest[i] == rows[i + 1];
      MatchingDistinct(rest, query);
      var found := Matching(rest, query);
      forall i | 0 <= i < |found| ensures IdOf(found[i]) != IdOf(rows[0]) {
        assert found[i] in rest;
      }
    }
  }

  /** With distinct ids and `id` among the keys, what `find` returns is the matching records, each
      once, in strictly ascending order. */
  lemma FoundAscends(rows: seq<Value>, query: seq<Entry>, keys: seq<SortKey>)
    requires SortsById(keys) && DistinctIds(rows)
    ensures Ascends(keys, FindAll(rows, query, keys)) && DistinctIds(FindAll(rows, query, keys))
    ensures forall x :: x in FindAll(rows, query, keys) <==> x in rows && Match(x, query)
  {
    MatchingDistinct(rows, query);
    SortByAscends(keys, Matching(rows, query));
    SortBySame(keys, Matching(rows, query));
    SameMembers(FindAll(rows, query, keys), Matching(rows, query));
  }

  /** A query that selects, of the records another one finds, those from some position on. */
  lemma FindSuffix(rows: seq<Value>, query: seq<Entry>, narrower: seq<Entry>, keys: seq<SortKey>, k: nat)
    requires SortsById(keys) && DistinctIds(rows) && k <= |FindAll(rows, query, keys)|
    requires forall x | x in rows :: Match(x, narrower) <==> x in FindAll(rows, query, keys)[k..]
    ensures FindAll(rows, narrower, keys) == FindAll(rows, query, keys)[k..]
  {
    var all := FindAll(rows, query, keys);
    FoundAscends(rows, query, keys);
    FoundAscends(rows, narrower, keys);
    assert forall i | 0 <= i < |all[k..]| :: all[k..][i] == all[k + i];
    forall x ensures x in FindAll(rows, narrower, keys) <==> x in all[k..] {
      if x in all[k..] { assert x in all; }
    }
    OrderDetermines(keys, FindAll(rows, narrower, keys), all[k..]);
  }

  /** In a strictly ordered result, the records after position `k` are those that follow it. */
  lemma AfterPosition(keys: seq<SortKey>, docs: seq<Value>, k: nat, x: Value)
    requires Ascends(keys, docs) && k < |docs| && x in docs
    ensures x in docs[k + 1..] <==> Earlier(keys, docs[k], x)
  {
    var i :| 0 <= i < |docs| && docs[i] == x;
    CompoundOrder(keys, docs[k], x, x);
    if i > k { assert docs[k + 1..][i - k - 1] == x; }
    if x in docs[k + 1..] {
      var j :| 0 <= j < |docs[k + 1..]| && docs[k + 1..][j] == x;
      assert docs[k + 1 + j] == x;
    }
  }
}
