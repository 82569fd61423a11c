/** The ordered dictionary behind the read-through cache of jvspatial/db/_cache.py, as a value: lookup,
    insertion and invalidation, and what enlarging the cache does to the hits. */
module CacheLines {
  datatype Option<+T> = None | Some(value: T)

  datatype Key = Key(collection: string, id: string)

  /** A stored record; `get("id", get("_id"))` names it. */
  datatype Record = Record(id: Option<string>, altId: Option<string>, body: string)

  /** Without a TTL a line never expires. */
  datatype Deadline = Never | At(time: int)

  /** One entry; `None` as payload records a confirmed absence. */
  datatype Line = Line(key: Key, deadline: Deadline, payload: Option<Record>)

  // ---------- the dictionary, oldest entry first ----------

  predicate Has(cache: seq<Line>, key: Key) {
    exists i | 0 <= i < |cache| :: cache[i].key == key
  }

  function LineOf(cache: seq<Line>, key: Key): (line: Line)
    requires Has(cache, key)
    ensures line in cache && line.key == key
  {
    if cache[0].key == key then cache[0]
    else
      assert Has(cache[1..], key) by {
        var i :| 0 <= i < |cache| && cache[i].key == key;
        assert cache[1..][i - 1].key == key;
      }
      LineOf(cache[1..], key)
  }

  predicate Distinct(cache: seq<Line>) {
    forall i, j | 0 <= i < j < |cache| :: cache[i].key != cache[j].key
  }

  function Without(cache: seq<Line>, key: Key): (r: seq<Line>)
    ensures !Has(r, key)
    ensures forall line :: line in r <==> line in cache && line.key != key
    ensures |r| <= |cache|
  {
    if cache == [] then []
    else if cache[0].key == key then Without(cache[1..], key)
    else [cache[0]] + Without(cache[1..], key)
  }

  lemma {:induction false} WithoutDistinct(cache: seq<Line>, key: Key)
    requires Distinct(cache)
    ensures Distinct(Without(cache, key))
    ensures |Without(cache, key)| == if Has(cache, key) then |cache| - 1 else |cache|
  {
    if cache != [] {
      assert forall i | 0 <= i < |cache[1..]| :: cache[1..][i] == cache[i + 1];
      WithoutDistinct(cache[1..], key);
      if cache[0].key == key {
        assert !Has(cache[1..], key);
      } else {
        assert Has(cache, key) <==> Has(cache[1..], key) by {
          if i :| 0 <= i < |cache| && cache[i].key == key { assert cache[1..][i - 1].key == key; }
        }
        var rest := Without(cache[1..], key);
        forall j | 0 <= j < |rest| ensures rest[j].key != cache[0].key {
          assert rest[j] in cache[1..];
        }
      }
    }
  }

  function Newest(cache: seq<Line>, maxEntries: nat): seq<Line> {
    if |cache| <= maxEntries then cache else cache[|cache| - maxEntries..]
  }

  predicate Expired(line: Line, now: int) {
    line.deadline.At? && now > line.deadline.time
  }

  /** `_cache_get`: an expired line is dropped, a live one becomes the newest. */
  function AfterGet(cache: seq<Line>, key: Key, now: int): (seq<Line>, Option<Line>) {
    if !Has(cache, key) then (cache, None)
    else if Expired(LineOf(cache, key), now) then (Without(cache, key), None)
    else (Without(cache, key) + [LineOf(cache, key)], Some(LineOf(cache, key)))
  }

  /** `_cache_put`: the line becomes the newest and the oldest ones make room. */
  function AfterPut(cache: seq<Line>, line: Line, maxEntries: nat): seq<Line> {
    Newest(Without(cache, line.key) + [line], maxEntries)
  }

  // ---------- the backend and coherence ----------

  type Rows = map<Key, Record>

  function Fetch(rows: Rows, key: Key): Option<Record> {
    if key in rows then Some(rows[key]) else None
  }

  /** The id the wrapper files a record under. */
  function RecordId(r: Record): Option<string> {
    if r.id.Some? then r.id else r.altId
  }

  function StoreRow(rows: Rows, collection: string, r: Record): Rows {
    match RecordId(r)
    case Some(id) => rows[Key(collection, id) := r]
    case None => rows
  }

  function StoreRows(rows: Rows, collection: string, rs: seq<Record>): Rows
    decreases |rs|
  {
    if rs == [] then rows else StoreRows(StoreRow(rows, collection, rs[0]), collection, rs[1..])
  }

  predicate Agrees(line: Line, rows: Rows) {
    line.payload == Fetch(rows, line.key)
  }

  predicate Coherent(cache: seq<Line>, rows: Rows) {
    forall i | 0 <= i < |cache| :: Agrees(cache[i], rows)
  }

  lemma GetKeeps(cache: seq<Line>, key: Key, now: int, rows: Rows, maxEntries: nat)
    requires Distinct(cache) && |cache| <= maxEntries
    ensures var (cache', hit) := AfterGet(cache, key, now);
      && Distinct(cache') && |cache'| <= maxEntries
      && (Coherent(cache, rows) ==> Coherent(cache', rows))
      && (hit.Some? ==> hit.value in cache && hit.value.key == key && Has(cache', key))
      && (forall line | line in cache' :: line in cache)
      && (hit.None? ==> !Has(cache', key))
  {
    WithoutDistinct(cache, key);
    var (cache', hit) := AfterGet(cache, key, now);
    if hit.Some? {
      assert cache'[|cache'| - 1].key == key;
      forall i | 0 <= i < |cache'| - 1 ensures cache'[i].key != key { assert cache'[i] in Without(cache, key); }
    }
    forall i | 0 <= i < |cache'| ensures Coherent(cache, rows) ==> Agrees(cache'[i], rows) {
      assert cache'[i] in cache;
    }
  }

  lemma PutKeeps(cache: seq<Line>, line: Line, maxEntries: nat)
    requires Distinct(cache)
    ensures Distinct(AfterPut(cache, line, maxEntries)) && |AfterPut(cache, line, maxEntries)| <= maxEntries
    ensures forall l | l in AfterPut(cache, line, maxEntries) :: l == line || (l in cache && l.key != line.key)
    ensures maxEntries > 0 ==> line in AfterPut(cache, line, maxEntries)
  {
    WithoutDistinct(cache, line.key);
    var all := Without(cache, line.key) + [line];
    forall i | 0 <= i < |all| - 1 ensures all[i].key != line.key { assert all[i] in Without(cache, line.key); }
    assert Distinct(all);
    var kept := Newest(all, maxEntries);
    if maxEntries > 0 { assert kept[|kept| - 1] == line; }
  }

  // ---------- runs without a TTL ----------

  /** A wrapper operation as seen from the cache: `get`, `save`, `delete` and `find_many`. */
  datatype Op =
    | Read(key: Key)
    | Write(key: Key, record: Record)
    | Erase(key: Key)
    | ReadMany(collection: string, ids: seq<string>)

  function RowsAfter(rows: Rows, op: Op): Rows {
    match op
    case Read(_) | ReadMany(_, _) => rows
    case Write(key, r) => rows[key := r]
    case Erase(key) => rows - {key}
  }

  /** A read that misses files the backend's answer, be it an absence. */
  function Touch(cache: seq<Line>, key: Key, answer: Option<Record>, maxEntries: nat): seq<Line> {
    if Has(cache, key) then Without(cache, key) + [LineOf(cache, key)]
    else AfterPut(cache, Line(key, Never, answer), maxEntries)
  }

  /** A cache of no entries is disabled and stays empty. */
  function CacheAfter(cache: seq<Line>, rows: Rows, op: Op, maxEntries: nat): seq<Line> {
    if maxEntries == 0 then cache
    else
      match op
      case Read(key) => Touch(cache, key, Fetch(rows, key), maxEntries)
      case Write(key, r) => AfterPut(cache, Line(key, Never, Some(r)), maxEntries)
      case Erase(key) => Without(cache, key)
      case ReadMany(collection, ids) => Batch(cache, rows, collection, Unique(ids), maxEntries)
  }

  /** The backend and the cache after the operations. */
  function Run(cache: seq<Line>, rows: Rows, ops: seq<Op>, maxEntries: nat): (seq<Line>, Rows)
    decreases |ops|
  {
    if ops == [] then (cache, rows)
    else Run(CacheAfter(cache, rows, ops[0], maxEntries), RowsAfter(rows, ops[0]), ops[1..], maxEntries)
  }

  predicate Sound(cache: seq<Line>, rows: Rows) {
    Distinct(cache) && forall i | 0 <= i < |cache| :: Agrees(cache[i], rows) && cache[i].deadline.Never?
  }

  lemma StepKeepsSound(cache: seq<Line>, rows: Rows, op: Op, maxEntries: nat)
    requires Sound(cache, rows) && !op.ReadMany?
    ensures Sound(CacheAfter(cache, rows, op, maxEntries), RowsAfter(rows, op)) || (maxEntries == 0 && cache != [])
  {
    var cache' := CacheAfter(cache, rows, op, maxEntries);
    WithoutDistinct(cache, op.key);
    if maxEntries > 0 {
      match op {
        case Read(key) =>
          if Has(cache, key) {
            GetKeeps(cache, key, 0, rows, |cache|);
            assert cache' == AfterGet(cache, key, 0).0;
          } else {
            PutKeeps(cache, Line(key, Never, Fetch(rows, key)), maxEntries);
          }
        case Write(key, r) => PutKeeps(cache, Line(key, Never, Some(r)), maxEntries);
        case Erase(key) =>
      }
      forall i | 0 <= i < |cache'| ensures Agrees(cache'[i], RowsAfter(rows, op)) && cache'[i].deadline.Never? {
        assert cache'[i] in cache' && (cache'[i] in cache || cache'[i].key == op.key);
      }
    }
  }

  /** The smaller recency list is the newest part of the larger one. */
  predicate NewestPart(small: seq<Line>, large: seq<Line>) {
    |small| <= |large| && large[|large| - |small|..] == small
  }

  lemma {:induction false} WithoutConcat(a: seq<Line>, b: seq<Line>, key: Key)
    ensures Without(a + b, key) == Without(a, key) + Without(b, key)
  {
    if a == [] {
      assert a + b == b;
    } else {
      assert (a + b)[1..] == a[1..] + b;
      WithoutConcat(a[1..], b, key);
    }
  }

  lemma WithoutNewestPart(small: seq<Line>, large: seq<Line>, key: Key)
    requires NewestPart(small, large)
    ensures NewestPart(Without(small, key), Without(large, key))
  {
    var older := large[..|large| - |small|];
    assert large == older + small;
    WithoutConcat(older, small, key);
  }

  lemma StepKeepsNewestPart(small: seq<Line>, large: seq<Line>, rows: Rows, op: Op, n: nat, m: nat)
    requires n <= m && |small| <= n && |large| <= m && !op.ReadMany?
    requires NewestPart(small, large) && Sound(small, rows) && Sound(large, rows)
    ensures NewestPart(CacheAfter(small, rows, op, n), CacheAfter(large, rows, op, m))
    ensures |CacheAfter(small, rows, op, n)| <= n && |CacheAfter(large, rows, op, m)| <= m
  {
    WithoutDistinct(small, op.key);
    WithoutDistinct(large, op.key);
    WithoutNewestPart(small, large, op.key);
    if op.Write? {
      PutKeepsNewestPart(small, large, Line(op.key, Never, Some(op.record)), n, m);
    } else if op.Read? {
      PutKeepsNewestPart(small, large, Line(op.key, Never, Fetch(rows, op.key)), n, m);
      if n > 0 { TouchIsPut(small, op.key, rows, n); }
      if m > 0 { TouchIsPut(large, op.key, rows, m); }
    }
  }

  lemma PutKeepsNewestPart(small: seq<Line>, large: seq<Line>, line: Line, n: nat, m: nat)
    requires n <= m && NewestPart(small, large)
    ensures NewestPart(AfterPut(small, line, n), AfterPut(large, line, m))
    ensures |AfterPut(small, line, n)| <= n && |AfterPut(large, line, m)| <= m
    ensures n == 0 ==> AfterPut(small, line, n) == []
  {
    WithoutNewestPart(small, large, line.key);
  }

  /** In a coherent cache a hit refiles the line the backend would give. */
  lemma TouchIsPut(cache: seq<Line>, key: Key, rows: Rows, maxEntries: nat)
    requires Sound(cache, rows) && |cache| <= maxEntries
    ensures Touch(cache, key, Fetch(rows, key), maxEntries) == AfterPut(cache, Line(key, Never, Fetch(rows, key)), maxEntries)
  {
    WithoutDistinct(cache, key);
    if Has(cache, key) {
      var line := LineOf(cache, key);
      var i :| 0 <= i < |cache| && cache[i] == line;
    }
  }

  lemma {:induction false} RunsKeepNewestPart(small: seq<Line>, large: seq<Line>, rows: Rows, ops: seq<Op>, n: nat, m: nat)
    requires n <= m && |small| <= n && |large| <= m && forall op | op in ops :: !op.ReadMany?
    requires NewestPart(small, large) && Sound(small, rows) && Sound(large, rows)
    ensures NewestPart(Run(small, rows, ops, n).0, Run(large, rows, ops, m).0)
    decreases |ops|
  {
    if ops != [] {
      StepKeepsNewestPart(small, large, rows, ops[0], n, m);
      StepKeepsSound(small, rows, ops[0], n);
      StepKeepsSound(large, rows, ops[0], m);
      RunsKeepNewestPart(CacheAfter(small, rows, ops[0], n), CacheAfter(large, rows, ops[0], m),
                         RowsAfter(rows, ops[0]), ops[1..], n, m);
    }
  }

  /** Inclusion: without a TTL, after the same reads, writes and erasures the smaller cache holds the
      newest lines of the larger one, so enlarging it never turns a hit into a miss. */
  lemma LargerCacheKeepsHits(rows: Rows, ops: seq<Op>, n: nat, m: nat, key: Key)
    requires n <= m && forall op | op in ops :: !op.ReadMany?
    ensures NewestPart(Run([], rows, ops, n).0, Run([], rows, ops, m).0)
    ensures Has(Run([], rows, ops, n).0, key) ==> Has(Run([], rows, ops, m).0, key)
  {
    RunsKeepNewestPart([], [], rows, ops, n, m);
    var small, large := Run([], rows, ops, n).0, Run([], rows, ops, m).0;
    if i :| 0 <= i < |small| && small[i].key == key {
      assert large[|large| - |small|..][i] == large[|large| - |small| + i];
    }
  }

  // ---------- batches ----------

  function PromoteKey(cache: seq<Line>, key: Key): seq<Line> {
    if Has(cache, key) then Without(cache, key) + [LineOf(cache, key)] else cache
  }

  lemma SameKeys(before: seq<Line>, key: Key)
    ensures Has(before, key) ==> forall k :: Has(Without(before, key) + [LineOf(before, key)], k) <==> Has(before, k)
  {
    if Has(before, key) {
      var after := Without(before, key) + [LineOf(before, key)];
      forall k ensures Has(after, k) <==> Has(before, k) {
        if k == key {
          assert after[|after| - 1].key == k;
        } else if j :| 0 <= j < |before| && before[j].key == k {
          assert before[j] in after;
        }
        if j :| 0 <= j < |after| && after[j].key == k {
          assert after[j] in before;
        }
      }
    }
  }

  /** The part of `find_many` that reads the cache: each cached id in turn becomes the newest. */
  function Promote(cache: seq<Line>, collection: string, ids: seq<string>): seq<Line>
    decreases |ids|
  {
    if ids == [] then cache
    else
      Promote(PromoteKey(cache, Key(collection, ids[0])), collection, ids[1..])
  }

  /** Then the ids that were not cached are filed, in order. */
  function FileMisses(cache: seq<Line>, rows: Rows, collection: string, misses: seq<string>, maxEntries: nat): seq<Line>
    decreases |misses|
  {
    if misses == [] then cache
    else
      var key := Key(collection, misses[0]);
      FileMisses(AfterPut(cache, Line(key, Never, Fetch(rows, key)), maxEntries), rows, collection, misses[1..], maxEntries)
  }

  function Misses(cache: seq<Line>, collection: string, ids: seq<string>): seq<string> {
    if ids == [] then []
    else (if Has(cache, Key(collection, ids[0])) then [] else [ids[0]]) + Misses(cache, collection, ids[1..])
  }

  /** The ids in order of first occurrence: `list(dict.fromkeys(ids))`. */
  function Unique(ids: seq<string>): (r: seq<string>)
    ensures forall id :: id in r <==> id in ids
    ensures forall i, j | 0 <= i < j < |r| :: r[i] != r[j]
  {
    if ids == [] then []
    else
      var n := |ids| - 1;
      assert ids == ids[..n] + [ids[n]];
      if ids[n] in ids[..n] then Unique(ids[..n]) else Unique(ids[..n]) + [ids[n]]
  }

  /** `find_many` of distinct ids, without a TTL. */
  function Batch(cache: seq<Line>, rows: Rows, collection: string, ids: seq<string>, maxEntries: nat): seq<Line> {
    FileMisses(Promote(cache, collection, ids), rows, collection, Misses(cache, collection, ids), maxEntries)
  }

  /** A batch of one id is a read. */
  lemma BatchOfOneIsRead(cache: seq<Line>, rows: Rows, collection: string, id: string, maxEntries: nat)
    ensures Batch(cache, rows, collection, [id], maxEntries) == Touch(cache, Key(collection, id), Fetch(rows, Key(collection, id)), maxEntries)
  {
    var key := Key(collection, id);
    var promoted := PromoteKey(cache, key);
    assert Promote(cache, collection, [id]) == Promote(promoted, collection, [id][1..]) == promoted;
    assert Misses(cache, collection, [id]) == (if Has(cache, key) then [] else [id]) + Misses(cache, collection, [id][1..]);
    if !Has(cache, key) {
      var filed := AfterPut(cache, Line(key, Never, Fetch(rows, key)), maxEntries);
      assert FileMisses(cache, rows, collection, [id], maxEntries) == FileMisses(filed, rows, collection, [id][1..], maxEntries) == filed;
    }
  }

  lemma {:induction false} WithoutAbsent(cache: seq<Line>, key: Key)
    requires !Has(cache, key)
    ensures Without(cache, key) == cache
  {
    if cache != [] {
      assert cache[0].key != key;
      assert forall i | 0 <= i < |cache[1..]| :: cache[1..][i] == cache[i + 1];
      WithoutAbsent(cache[1..], key);
    }
  }
}
