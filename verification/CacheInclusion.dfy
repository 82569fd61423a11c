/** What enlarging the cache of jvspatial/db/_cache.py does to its hits when batches are read: exactly up
    to which size of batch nothing that a smaller cache holds is missing from a larger one. */
module CacheInclusion {
  import opened CacheLines

  /** The keys an operation makes the newest. */
  function Touched(op: Op): set<Key> {
    match op
    case Read(key) => {key}
    case Write(key, _) => {key}
    case Erase(_) => {}
    case ReadMany(collection, ids) => set id | id in ids :: Key(collection, id)
  }

  /** No operation touches more than `width` keys. */
  predicate NoWider(ops: seq<Op>, width: nat) {
    forall op | op in ops :: |Touched(op)| <= width
  }

  /** Whatever is read, written and erased, a cache of n entries holds nothing that one of m has lost. */
  ghost predicate KeepsHits(n: nat, m: nat, width: nat) {
    forall rows: Rows, ops: seq<Op>, key | NoWider(ops, width) && Has(Run([], rows, ops, n).0, key) ::
      Has(Run([], rows, ops, m).0, key)
  }

  function CachedKeys(cache: seq<Line>): set<Key> {
    set line | line in cache :: line.key
  }

  // ---------- a cache by the time its keys were last touched ----------

  type Stamps = map<Key, int>

  ghost predicate Ordered(cache: seq<Line>, last: Stamps) {
    && (forall i | 0 <= i < |cache| :: cache[i].key in last)
    && (forall i, j | 0 <= i < j < |cache| :: last[cache[i].key] <= last[cache[j].key])
  }

  /** No key that is not in the cache was touched after one that is. */
  ghost predicate Complete(cache: seq<Line>, last: Stamps)
    requires Ordered(cache, last)
  {
    forall key, i | key in last && !Has(cache, key) && 0 <= i < |cache| :: last[key] <= last[cache[i].key]
  }

  ghost predicate Recent(cache: seq<Line>, last: Stamps, now: int, limit: nat) {
    && Distinct(cache) && |cache| <= limit
    && Ordered(cache, last) && Complete(cache, last)
    && (forall key | key in last :: last[key] <= now)
  }

  lemma OrderedTail(cache: seq<Line>, last: Stamps)
    requires cache != [] && Ordered(cache, last)
    ensures Ordered(cache[1..], last)
    ensures forall line | line in cache[1..] :: line.key in last && last[cache[0].key] <= last[line.key]
  {
    var rest := cache[1..];
    assert forall i | 0 <= i < |rest| :: rest[i] == cache[i + 1];
  }

  lemma OrderedCons(line: Line, rest: seq<Line>, last: Stamps)
    requires Ordered(rest, last) && line.key in last
    requires forall other | other in rest :: other.key in last && last[line.key] <= last[other.key]
    ensures Ordered([line] + rest, last)
  {
    forall i | 0 <= i < |rest| ensures last[line.key] <= last[rest[i].key] {
      assert rest[i] in rest;
    }
  }

  lemma {:induction false} WithoutOrdered(cache: seq<Line>, key: Key, last: Stamps)
    requires Ordered(cache, last)
    ensures Ordered(Without(cache, key), last)
  {
    if cache != [] {
      OrderedTail(cache, last);
      WithoutOrdered(cache[1..], key, last);
      if cache[0].key != key {
        OrderedCons(cache[0], Without(cache[1..], key), last);
      }
    }
  }

  /** The cache holds keys among these only, and all of them unless it is full. */
  ghost predicate Holds(cache: seq<Line>, keys: set<Key>, limit: nat) {
    && (forall i | 0 <= i < |cache| :: cache[i].key in keys)
    && (|cache| == limit || forall key | key in keys :: Has(cache, key))
  }

  lemma HasMember(cache: seq<Line>, line: Line)
    requires line in cache
    ensures Has(cache, line.key)
  {
    var i :| 0 <= i < |cache| && cache[i] == line;
  }

  lemma NewestAt(cache: seq<Line>, limit: nat, i: nat)
    requires |cache| - |Newest(cache, limit)| <= i < |cache|
    ensures Newest(cache, limit)[i - (|cache| - |Newest(cache, limit)|)] == cache[i]
    ensures Has(Newest(cache, limit), cache[i].key)
  {
  }

  lemma NewestComplete(cache: seq<Line>, last: Stamps, limit: nat)
    requires Ordered(cache, last) && Complete(cache, last)
    ensures Ordered(Newest(cache, limit), last) && Complete(Newest(cache, limit), last)
  {
    var kept := Newest(cache, limit);
    var gone := |cache| - |kept|;
    forall key, i | key in last && !Has(kept, key) && 0 <= i < |kept| ensures last[key] <= last[kept[i].key] {
      NewestAt(cache, limit, gone + i);
      LostIsOlder(cache, last, limit, key, gone + i);
    }
  }

  lemma LostIsOlder(cache: seq<Line>, last: Stamps, limit: nat, key: Key, i: nat)
    requires Ordered(cache, last) && Complete(cache, last)
    requires key in last && !Has(Newest(cache, limit), key)
    requires |cache| - |Newest(cache, limit)| <= i < |cache|
    ensures last[key] <= last[cache[i].key]
  {
    NewestAt(cache, limit, i);
    if Has(cache, key) {
      var j :| 0 <= j < |cache| && cache[j].key == key;
      if i < j {
        NewestAt(cache, limit, j);
      }
    }
  }

  lemma StillThere(cache: seq<Line>, line: Line, key: Key)
    requires Has(cache, key)
    ensures Has(Without(cache, line.key) + [line], key)
  {
    var i :| 0 <= i < |cache| && cache[i].key == key;
    var all := Without(cache, line.key) + [line];
    if key == line.key {
      assert all[|all| - 1] == line;
    } else {
      assert cache[i] in Without(cache, line.key);
      HasMember(all, cache[i]);
    }
  }

  /** The line last in the queue, the others in their order. */
  lemma AppendOrdered(cache: seq<Line>, line: Line, last: Stamps, now: int, limit: nat)
    requires Recent(cache, last, now, limit)
    ensures Ordered(Without(cache, line.key) + [line], last[line.key := now])
  {
    var rest, last' := Without(cache, line.key), last[line.key := now];
    WithoutOrdered(cache, line.key, last);
    forall i | 0 <= i < |rest| ensures rest[i].key != line.key {
      assert rest[i] in rest;
    }
  }

  lemma AppendComplete(cache: seq<Line>, line: Line, last: Stamps, now: int, limit: nat)
    requires Recent(cache, last, now, limit)
    ensures Ordered(Without(cache, line.key) + [line], last[line.key := now])
    ensures Complete(Without(cache, line.key) + [line], last[line.key := now])
  {
    AppendOrdered(cache, line, last, now, limit);
    var rest, last' := Without(cache, line.key), last[line.key := now];
    var all := rest + [line];
    forall key, i | key in last' && !Has(all, key) && 0 <= i < |all| ensures last'[key] <= last'[all[i].key] {
      assert all[|all| - 1].key == line.key;
      if Has(cache, key) { StillThere(cache, line, key); }
      if i < |rest| {
        assert rest[i] in rest;
        var j :| 0 <= j < |cache| && cache[j] == rest[i];
      }
    }
  }

  lemma PutWithin(cache: seq<Line>, line: Line, limit: nat, keys: set<Key>)
    requires forall i | 0 <= i < |cache| :: cache[i].key in keys
    ensures forall i | 0 <= i < |AfterPut(cache, line, limit)| :: AfterPut(cache, line, limit)[i].key in keys + {line.key}
  {
    var rest := Without(cache, line.key);
    forall i | 0 <= i < |rest| ensures rest[i].key in keys {
      assert rest[i] in cache;
    }
  }

  /** Filing a line now. */
  lemma PutIsRecent(cache: seq<Line>, line: Line, last: Stamps, now: int, limit: nat, keys: set<Key>)
    requires Recent(cache, last, now, limit) && limit > 0 && Holds(cache, keys, limit)
    ensures Recent(AfterPut(cache, line, limit), last[line.key := now], now, limit)
    ensures Holds(AfterPut(cache, line, limit), keys + {line.key}, limit)
  {
    var all := Without(cache, line.key) + [line];
    PutKeeps(cache, line, limit);
    AppendComplete(cache, line, last, now, limit);
    NewestComplete(all, last[line.key := now], limit);
    WithoutDistinct(cache, line.key);
    PutWithin(cache, line, limit, keys);
    if |all| <= limit && !(|cache| == limit) {
      forall key | key in keys + {line.key} ensures Has(all, key) {
        if key == line.key { assert all[|all| - 1] == line; } else { StillThere(cache, line, key); }
      }
    }
  }

  /** Promoting a cached line is filing it again. */
  lemma PromoteIsPut(cache: seq<Line>, key: Key, limit: nat)
    requires Distinct(cache) && |cache| <= limit && Has(cache, key)
    ensures PromoteKey(cache, key) == AfterPut(cache, LineOf(cache, key), limit)
  {
    WithoutDistinct(cache, key);
  }

  function Stamp(last: Stamps, keys: set<Key>, now: int): Stamps {
    map key | key in last.Keys + keys :: if key in keys then now else last[key]
  }

  lemma StampMore(last: Stamps, key: Key, keys: set<Key>, now: int)
    ensures Stamp(last[key := now], keys, now) == Stamp(last, {key} + keys, now)
  {
  }

  lemma StampTwice(last: Stamps, keys: set<Key>, more: set<Key>, now: int)
    ensures Stamp(Stamp(last, keys, now), more, now) == Stamp(last, keys + more, now)
  {
  }

  function KeysOf(collection: string, ids: seq<string>): set<Key> {
    set id | id in ids :: Key(collection, id)
  }

  // ---------- batches ----------

  /** The keys a batch promotes and, afterwards, those it files. */
  function HitKeys(cache: seq<Line>, collection: string, ids: seq<string>): set<Key> {
    set id | id in ids && Has(cache, Key(collection, id)) :: Key(collection, id)
  }

  predicate AllDistinct(ids: seq<string>) {
    forall i, j | 0 <= i < j < |ids| :: ids[i] != ids[j]
  }

  lemma PromoteKeyIsRecent(cache: seq<Line>, last: Stamps, now: int, limit: nat, keys: set<Key>, key: Key)
    requires Recent(cache, last, now, limit) && limit > 0 && Holds(cache, keys, limit)
    ensures Recent(PromoteKey(cache, key), if Has(cache, key) then last[key := now] else last, now, limit)
    ensures Holds(PromoteKey(cache, key), keys, limit)
  {
    if Has(cache, key) {
      PromoteIsPut(cache, key, limit);
      PutIsRecent(cache, LineOf(cache, key), last, now, limit, keys);
      assert keys + {key} == keys;
    }
  }

  lemma {:induction false} PromoteIsRecent(cache: seq<Line>, last: Stamps, now: int, limit: nat, keys: set<Key>,
                                           collection: string, ids: seq<string>)
    requires Recent(cache, last, now, limit) && limit > 0 && Holds(cache, keys, limit) && AllDistinct(ids)
    ensures var cache' := Promote(cache, collection, ids);
            && Recent(cache', Stamp(last, HitKeys(cache, collection, ids), now), now, limit)
            && Holds(cache', keys, limit)
    decreases |ids|
  {
    if ids == [] {
      assert Stamp(last, {}, now) == last;
    } else {
      var key, rest := Key(collection, ids[0]), ids[1..];
      var next := PromoteKey(cache, key);
      var last' := if Has(cache, key) then last[key := now] else last;
      PromoteKeyIsRecent(cache, last, now, limit, keys, key);
      PromoteIsRecent(next, last', now, limit, keys, collection, rest);
      StampHits(cache, last, now, collection, ids);
    }
  }

  lemma StampHits(cache: seq<Line>, last: Stamps, now: int, collection: string, ids: seq<string>)
    requires ids != []
    ensures var key := Key(collection, ids[0]);
            Stamp(if Has(cache, key) then last[key := now] else last, HitKeys(PromoteKey(cache, key), collection, ids[1..]), now)
            == Stamp(last, HitKeys(cache, collection, ids), now)
  {
    var key := Key(collection, ids[0]);
    SameHits(cache, key, collection, ids[1..]);
    HitsFirst(cache, collection, ids);
    StampMore(last, key, HitKeys(cache, collection, ids[1..]), now);
  }

  lemma HitsFirst(cache: seq<Line>, collection: string, ids: seq<string>)
    requires ids != []
    ensures HitKeys(cache, collection, ids) ==
            if Has(cache, Key(collection, ids[0])) then {Key(collection, ids[0])} + HitKeys(cache, collection, ids[1..])
            else HitKeys(cache, collection, ids[1..])
    ensures KeysOf(collection, ids) == {Key(collection, ids[0])} + KeysOf(collection, ids[1..])
  {
    assert ids == [ids[0]] + ids[1..];
  }

  lemma SameHits(cache: seq<Line>, key: Key, collection: string, ids: seq<string>)
    ensures HitKeys(PromoteKey(cache, key), collection, ids) == HitKeys(cache, collection, ids)
  {
    SameKeys(cache, key);
  }

  lemma {:induction false} FileIsRecent(cache: seq<Line>, last: Stamps, now: int, limit: nat, keys: set<Key>,
                                        rows: Rows, collection: string, misses: seq<string>)
    requires Recent(cache, last, now, limit) && limit > 0 && Holds(cache, keys, limit)
    ensures var cache' := FileMisses(cache, rows, collection, misses, limit);
            && Recent(cache', Stamp(last, KeysOf(collection, misses), now), now, limit)
            && Holds(cache', keys + KeysOf(collection, misses), limit)
    decreases |misses|
  {
    if misses == [] {
      assert Stamp(last, {}, now) == last && keys + {} == keys;
    } else {
      var key, rest := Key(collection, misses[0]), misses[1..];
      var line := Line(key, Never, Fetch(rows, key));
      PutIsRecent(cache, line, last, now, limit, keys);
      FileIsRecent(AfterPut(cache, line, limit), last[key := now], now, limit, keys + {key}, rows, collection, rest);
      StampFirst(last, now, keys, collection, misses);
    }
  }

  lemma StampFirst(last: Stamps, now: int, keys: set<Key>, collection: string, ids: seq<string>)
    requires ids != []
    ensures var key := Key(collection, ids[0]);
            && Stamp(last[key := now], KeysOf(collection, ids[1..]), now) == Stamp(last, KeysOf(collection, ids), now)
            && keys + {key} + KeysOf(collection, ids[1..]) == keys + KeysOf(collection, ids)
  {
    HitsFirst([], collection, ids);
    StampMore(last, Key(collection, ids[0]), KeysOf(collection, ids[1..]), now);
  }

  lemma {:induction false} HitsAndMisses(cache: seq<Line>, collection: string, ids: seq<string>)
    ensures HitKeys(cache, collection, ids) + KeysOf(collection, Misses(cache, collection, ids)) == KeysOf(collection, ids)
  {
    if ids != [] {
      var missed, more := if Has(cache, Key(collection, ids[0])) then [] else [ids[0]], Misses(cache, collection, ids[1..]);
      HitsAndMisses(cache, collection, ids[1..]);
      HitsFirst(cache, collection, ids);
      assert Misses(cache, collection, ids) == missed + more;
      KeysOfConcat(collection, missed, more);
    }
  }

  lemma KeysOfConcat(collection: string, ids: seq<string>, more: seq<string>)
    ensures KeysOf(collection, ids + more) == KeysOf(collection, ids) + KeysOf(collection, more)
  {
  }

  lemma CachedHits(cache: seq<Line>, collection: string, ids: seq<string>)
    ensures HitKeys(cache, collection, ids) <= CachedKeys(cache)
  {
    forall id | id in ids && Has(cache, Key(collection, id)) ensures Key(collection, id) in CachedKeys(cache) {
      var i :| 0 <= i < |cache| && cache[i].key == Key(collection, id);
      assert cache[i] in cache;
    }
  }

  lemma BatchIsRecent(cache: seq<Line>, last: Stamps, now: int, limit: nat, rows: Rows, collection: string, ids: seq<string>)
    requires Recent(cache, last, now, limit) && limit > 0 && AllDistinct(ids)
    ensures var cache' := Batch(cache, rows, collection, ids, limit);
            && Recent(cache', Stamp(last, KeysOf(collection, ids), now), now, limit)
            && Holds(cache', CachedKeys(cache) + KeysOf(collection, ids), limit)
  {
    var keys, hits, misses := CachedKeys(cache), HitKeys(cache, collection, ids), Misses(cache, collection, ids);
    var last' := Stamp(last, hits, now);
    CachedThere(cache, limit);
    PromoteIsRecent(cache, last, now, limit, keys, collection, ids);
    FileIsRecent(Promote(cache, collection, ids), last', now, limit, keys, rows, collection, misses);
    HitsAndMisses(cache, collection, ids);
    CachedHits(cache, collection, ids);
    StampTwice(last, hits, KeysOf(collection, misses), now);
  }

  // ---------- one operation on both caches ----------

  /** When the keys were last touched, the operation included; an erased key is forgotten. */
  function TimesAfter(last: Stamps, op: Op, now: int): Stamps {
    if op.Erase? then last - {op.key} else Stamp(last, Touched(op), now)
  }

  lemma StepIsRecent(cache: seq<Line>, rows: Rows, op: Op, last: Stamps, now: int, limit: nat)
    requires Recent(cache, last, now, limit) && limit > 0
    ensures Recent(CacheAfter(cache, rows, op, limit), TimesAfter(last, op, now), now, limit)
    ensures !op.Erase? ==> Holds(CacheAfter(cache, rows, op, limit), CachedKeys(cache) + Touched(op), limit)
  {
    match op {
      case Read(key) =>
        BatchOfOneIsRead(cache, rows, key.collection, key.id, limit);
        BatchIsRecent(cache, last, now, limit, rows, key.collection, [key.id]);
        TouchedKeys(op, key.collection, [key.id]);
      case Write(key, r) => WriteIsRecent(cache, key, r, last, now, limit);
      case Erase(key) => ErasedIsRecent(cache, key, last, now, limit);
      case ReadMany(collection, ids) =>
        BatchIsRecent(cache, last, now, limit, rows, collection, Unique(ids));
        TouchedKeys(op, collection, Unique(ids));
    }
  }

  lemma TouchedKeys(op: Op, collection: string, ids: seq<string>)
    requires op.Read? || op.ReadMany?
    requires if op.Read? then collection == op.key.collection && ids == [op.key.id] else collection == op.collection && ids == Unique(op.ids)
    ensures KeysOf(collection, ids) == Touched(op)
  {
  }

  lemma WriteIsRecent(cache: seq<Line>, key: Key, r: Record, last: Stamps, now: int, limit: nat)
    requires Recent(cache, last, now, limit) && limit > 0
    ensures Recent(AfterPut(cache, Line(key, Never, Some(r)), limit), Stamp(last, {key}, now), now, limit)
    ensures Holds(AfterPut(cache, Line(key, Never, Some(r)), limit), CachedKeys(cache) + {key}, limit)
  {
    CachedThere(cache, limit);
    PutIsRecent(cache, Line(key, Never, Some(r)), last, now, limit, CachedKeys(cache));
    assert Stamp(last, {key}, now) == last[key := now];
  }

  lemma CachedThere(cache: seq<Line>, limit: nat)
    ensures Holds(cache, CachedKeys(cache), limit)
  {
    forall key | key in CachedKeys(cache) ensures Has(cache, key) {
      var line :| line in cache && line.key == key;
      HasMember(cache, line);
    }
  }

  lemma ErasedIsRecent(cache: seq<Line>, key: Key, last: Stamps, now: int, limit: nat)
    requires Recent(cache, last, now, limit)
    ensures Recent(Without(cache, key), last - {key}, now, limit)
  {
    var rest := Without(cache, key);
    WithoutDistinct(cache, key);
    WithoutOrdered(cache, key, last);
    forall i | 0 <= i < |rest| ensures rest[i].key != key && Has(cache, rest[i].key) {
      assert rest[i] in rest;
      HasMember(cache, rest[i]);
    }
    forall other, i | other in last - {key} && !Has(rest, other) && 0 <= i < |rest| ensures last[other] <= last[rest[i].key] {
      if Has(cache, other) { ErasedHas(cache, key, other); }
      var j :| 0 <= j < |cache| && cache[j].key == rest[i].key;
    }
  }

  lemma ErasedHas(cache: seq<Line>, key: Key, other: Key)
    ensures Has(Without(cache, key), other) <==> Has(cache, other) && other != key
  {
    var rest := Without(cache, key);
    if i :| 0 <= i < |cache| && cache[i].key == other && other != key {
      assert cache[i] in rest;
      HasMember(rest, cache[i]);
    }
    if i :| 0 <= i < |rest| && rest[i].key == other {
      assert rest[i] in rest;
      HasMember(cache, rest[i]);
    }
  }

  // ---------- inclusion ----------

  function Group(last: Stamps, t: int): set<Key> {
    set key | key in last && last[key] == t
  }

  /** No more than `width` keys were last touched at once. */
  ghost predicate Grouped(last: Stamps, width: nat) {
    forall t :: |Group(last, t)| <= width
  }

  lemma StepGrouped(last: Stamps, op: Op, now: int, width: nat)
    requires Grouped(last, width) && |Touched(op)| <= width && forall key | key in last :: last[key] < now
    ensures Grouped(TimesAfter(last, op, now), width)
  {
    var last' := TimesAfter(last, op, now);
    forall t ensures |Group(last', t)| <= width {
      if t == now {
        assert Group(last', t) <= Touched(op);
        SmallerSet(Group(last', t), Touched(op));
      } else {
        assert Group(last', t) <= Group(last, t);
        SmallerSet(Group(last', t), Group(last, t));
      }
    }
  }

  lemma {:induction false} SmallerSet<T>(a: set<T>, b: set<T>)
    requires a <= b
    ensures |a| <= |b|
  {
    assert b == a + (b - a);
  }

  lemma {:induction false} KeyCount(cache: seq<Line>)
    requires Distinct(cache)
    ensures |CachedKeys(cache)| == |cache|
  {
    if cache != [] {
      var rest := cache[1..];
      assert forall i | 0 <= i < |rest| :: rest[i] == cache[i + 1];
      KeyCount(rest);
      assert cache == [cache[0]] + rest;
      assert cache[0].key !in CachedKeys(rest);
      assert CachedKeys(cache) == {cache[0].key} + CachedKeys(rest);
    }
  }

  /** A full cache of m entries lacks no key of one of n: the keys it holds instead were touched with
      that key, fewer than `width` of them, or later, and those the smaller cache holds too. */
  lemma FullIncludes(small: seq<Line>, large: seq<Line>, last: Stamps, now: int, n: nat, m: nat, width: nat, key: Key)
    requires Recent(small, last, now, n) && Recent(large, last, now, m) && |large| == m
    requires Grouped(last, width) && n + width <= m + 1 && Has(small, key)
    ensures Has(large, key)
  {
    if !Has(large, key) {
      var held, there, group := CachedKeys(large), CachedKeys(small), Group(last, last[key]);
      var k :| 0 <= k < |small| && small[k].key == key;
      forall other | other in held ensures other in there + group - {key} {
        var line :| line in large && line.key == other;
        LostIsNoLater(small, large, last, now, n, m, key, line);
      }
      assert small[k] in small && key in there && key in group;
      SmallerSet(held, (there - {key}) + (group - {key}));
      KeyCount(small);
      KeyCount(large);
    }
  }

  lemma LostIsNoLater(small: seq<Line>, large: seq<Line>, last: Stamps, now: int, n: nat, m: nat, key: Key, line: Line)
    requires Recent(small, last, now, n) && Recent(large, last, now, m)
    requires Has(small, key) && !Has(large, key) && line in large
    ensures line.key != key && (line.key in CachedKeys(small) || line.key in Group(last, last[key]))
  {
    HasMember(large, line);
    var i :| 0 <= i < |large| && large[i] == line;
    var k :| 0 <= k < |small| && small[k].key == key;
    if Has(small, line.key) {
      var j :| 0 <= j < |small| && small[j].key == line.key;
      assert small[j] in small;
    }
  }

  ghost predicate Included(small: seq<Line>, large: seq<Line>) {
    forall key | Has(small, key) :: Has(large, key)
  }

  lemma StepIncludes(small: seq<Line>, large: seq<Line>, rows: Rows, op: Op, last: Stamps, now: int, n: nat, m: nat, width: nat)
    requires Recent(small, last, now, n) && Recent(large, last, now, m) && Included(small, large)
    requires 0 < n <= m && n + width <= m + 1 && Grouped(TimesAfter(last, op, now), width)
    ensures Included(CacheAfter(small, rows, op, n), CacheAfter(large, rows, op, m))
  {
    var small', large', last' := CacheAfter(small, rows, op, n), CacheAfter(large, rows, op, m), TimesAfter(last, op, now);
    StepIsRecent(small, rows, op, last, now, n);
    StepIsRecent(large, rows, op, last, now, m);
    forall key | Has(small', key) ensures Has(large', key) {
      if op.Erase? {
        ErasedHas(small, op.key, key);
        ErasedHas(large, op.key, key);
      } else if |large'| == m {
        FullIncludes(small', large', last', now, n, m, width, key);
      } else {
        HeldBefore(small, large, small', op, n, key);
      }
    }
  }

  lemma HeldBefore(small: seq<Line>, large: seq<Line>, after: seq<Line>, op: Op, n: nat, key: Key)
    requires Included(small, large) && Holds(after, CachedKeys(small) + Touched(op), n) && Has(after, key)
    ensures key in CachedKeys(large) + Touched(op)
  {
    var i :| 0 <= i < |after| && after[i].key == key;
    if key in CachedKeys(small) {
      var line :| line in small && line.key == key;
      HasMember(small, line);
      var j :| 0 <= j < |large| && large[j].key == key;
      assert large[j] in large;
    }
  }

  lemma {:induction false} RunsInclude(small: seq<Line>, large: seq<Line>, rows: Rows, ops: seq<Op>, last: Stamps, now: int,
                                       n: nat, m: nat, width: nat)
    requires Recent(small, last, now, n) && Recent(large, last, now, m) && Included(small, large)
    requires 0 < n <= m && n + width <= m + 1 && NoWider(ops, width)
    requires Grouped(last, width) && forall key | key in last :: last[key] < now
    ensures Included(Run(small, rows, ops, n).0, Run(large, rows, ops, m).0)
    decreases |ops|
  {
    if ops != [] {
      var op := ops[0];
      StepGrouped(last, op, now, width);
      StepIncludes(small, large, rows, op, last, now, n, m, width);
      StepIsRecent(small, rows, op, last, now, n);
      StepIsRecent(large, rows, op, last, now, m);
      RunsInclude(CacheAfter(small, rows, op, n), CacheAfter(large, rows, op, m), RowsAfter(rows, op), ops[1..],
                  TimesAfter(last, op, now), now + 1, n, m, width);
    }
  }

  lemma NarrowBatchesKeepHits(n: nat, m: nat, width: nat)
    requires 0 < n <= m && n + width <= m + 1
    ensures KeepsHits(n, m, width)
  {
    forall rows: Rows, ops: seq<Op>, key | NoWider(ops, width) && Has(Run([], rows, ops, n).0, key)
      ensures Has(Run([], rows, ops, m).0, key)
    {
      assert forall t :: Group(map[], t) == {};
      RunsInclude([], [], rows, ops, map[], 0, n, m, width);
    }
  }
}
