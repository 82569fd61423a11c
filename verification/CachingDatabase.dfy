/** The read-through cache in front of a database (jvspatial/db/_cache.py). */
module CachingDatabase {
  import opened CacheLines

  /** `time.monotonic()`: each reading is at or after the one before, by any amount. */
  class Clock {
    var now: int

    method Monotonic() returns (t: int)
      modifies this
      ensures t == now && old(now) <= now
    {
      var elapsed: int :| elapsed >= 0;
      now := now + elapsed;
      t := now;
    }
  }

  function FetchMany(rows: Rows, collection: string, ids: seq<string>): map<string, Record> {
    map id | id in ids && Key(collection, id) in rows :: rows[Key(collection, id)]
  }

  /** The wrapped database: records filed under their ids. `target` and `upsertId` stand for the row a
      query picks and the row an upsert creates. */
  class Backend {
    var rows: Rows

    predicate Valid()
      reads this
    {
      forall key | key in rows :: RecordId(rows[key]) == Some(key.id)
    }

    method Save(collection: string, data: Record) returns (saved: Record)
      requires Valid()
      modifies this
      ensures Valid() && saved == data && rows == StoreRow(old(rows), collection, data)
    {
      if RecordId(data).Some? {
        rows := rows[Key(collection, RecordId(data).value) := data];
      }
      saved := data;
    }

    method Load(collection: string, id: string) returns (r: Option<Record>)
      ensures r == Fetch(rows, Key(collection, id))
    {
      r := Fetch(rows, Key(collection, id));
    }

    method Delete(collection: string, id: string)
      requires Valid()
      modifies this
      ensures Valid() && rows == old(rows) - {Key(collection, id)}
    {
      rows := rows - {Key(collection, id)};
    }

    method FindMany(collection: string, ids: seq<string>) returns (found: map<string, Record>)
      ensures found == FetchMany(rows, collection, ids)
    {
      found := FetchMany(rows, collection, ids);
    }

    method BulkSave(collection: string, records: seq<Record>) returns (count: nat)
      requires Valid()
      modifies this
      ensures Valid() && rows == StoreRows(old(rows), collection, records) && count == |records|
    {
      ghost var start := rows;
      for i := 0 to |records|
        invariant Valid()
        invariant StoreRows(start, collection, records) == StoreRows(rows, collection, records[i..])
      {
        assert records[i..][1..] == records[i + 1..];
        var _ := Save(collection, records[i]);
      }
      count := |records|;
    }

    method FindOneAndDelete(collection: string, target: Option<string>) returns (r: Option<Record>)
      requires Valid()
      modifies this
      ensures Valid() && r == (if target.Some? then Fetch(old(rows), Key(collection, target.value)) else None)
      ensures rows == if target.Some? then old(rows) - {Key(collection, target.value)} else old(rows)
    {
      r := None;
      if target.Some? {
        r := Load(collection, target.value);
        Delete(collection, target.value);
      }
    }

    method FindOneAndUpdate(collection: string, target: Option<string>, body: string, upsertId: Option<string>)
      returns (r: Option<Record>)
      requires Valid()
      modifies this
      ensures Valid() && (r, rows) == Updated(old(rows), collection, target, body, upsertId)
    {
      var (result, rows') := Updated(rows, collection, target, body, upsertId);
      r, rows := result, rows';
    }
  }

  /** The record after an update and the rows that then hold: the picked row with a new body, else the
      row an upsert creates, else nothing. */
  function Updated(rows: Rows, collection: string, target: Option<string>, body: string, upsertId: Option<string>): (Option<Record>, Rows) {
    if target.Some? && Key(collection, target.value) in rows then
      var r := rows[Key(collection, target.value)].(body := body);
      (Some(r), rows[Key(collection, target.value) := r])
    else if upsertId.Some? then
      var r := Record(upsertId, None, body);
      (Some(r), rows[Key(collection, upsertId.value) := r])
    else (None, rows)
  }

  /** The cache after the records are filed in order, those without an id left out. */
  function FileRecords(cache: seq<Line>, collection: string, records: seq<Record>, maxEntries: nat): seq<Line>
    decreases |records|
  {
    if records == [] then cache
    else
      var filed := match RecordId(records[0])
        case Some(id) => AfterPut(cache, Line(Key(collection, id), Never, Some(records[0])), maxEntries)
        case None => cache;
      FileRecords(filed, collection, records[1..], maxEntries)
  }

  class CachingDatabase {
    const inner: Backend
    const clock: Clock
    const maxEntries: nat
    const ttl: nat
    const serverless: bool
    var cache: seq<Line>
    var hits: nat
    var misses: nat
    var evictions: nat
    var invalidations: nat

    constructor (inner: Backend, clock: Clock, maxEntries: nat, ttl: nat, serverless: bool)
      requires inner.Valid()
      ensures Valid() && cache == [] && this.inner == inner && this.clock == clock
      ensures this.maxEntries == maxEntries && this.ttl == ttl && this.serverless == serverless
    {
      this.inner, this.clock := inner, clock;
      this.maxEntries, this.ttl, this.serverless := maxEntries, ttl, serverless;
      cache := [];
      hits, misses, evictions, invalidations := 0, 0, 0, 0;
    }

    predicate Enabled() {
      maxEntries != 0 && !serverless
    }

    predicate DeadlinesFit(lines: seq<Line>) {
      forall i | 0 <= i < |lines| :: lines[i].deadline.Never? <==> ttl == 0
    }

    /** No line outlives the TTL from now on. */
    predicate NoneOutlives(lines: seq<Line>, now: int) {
      forall i | 0 <= i < |lines| && lines[i].deadline.At? :: lines[i].deadline.time <= now + ttl
    }

    /** The cache never holds more than its limit, nor two lines for one key; its lines expire exactly
        when there is a TTL, after that time at the latest, and every line says what the backend holds. A
        disabled cache is empty. */
    ghost predicate Valid()
      reads this, inner, clock
    {
      && NoneOutlives(cache, clock.now)
      && inner.Valid()
      && Distinct(cache) && |cache| <= maxEntries
      && Coherent(cache, inner.rows)
      && DeadlinesFit(cache)
      && (!Enabled() ==> cache == [])
    }

    // ---------- the cache alone ----------

    lemma KeepsDeadlines(before: seq<Line>, after: seq<Line>)
      requires DeadlinesFit(before) && forall line | line in after :: line in before
      ensures DeadlinesFit(after)
      ensures forall now | NoneOutlives(before, now) :: NoneOutlives(after, now)
    {
      forall i | 0 <= i < |after| ensures after[i] in before {}
    }

    /** The key has a line that has not run out. */
    predicate Lives(lines: seq<Line>, key: Key, now: int) {
      exists i | 0 <= i < |lines| :: lines[i].key == key && (ttl == 0 || (lines[i].deadline.At? && now <= lines[i].deadline.time))
    }

    lemma LivesIs(lines: seq<Line>, key: Key, now: int)
      requires Distinct(lines) && DeadlinesFit(lines)
      ensures Lives(lines, key, now) <==> Has(lines, key) && !Expired(LineOf(lines, key), now)
    {
      if Has(lines, key) {
        var i :| 0 <= i < |lines| && lines[i] == LineOf(lines, key);
      }
    }

    method CacheGet(key: Key) returns (entry: Option<Line>)
      requires Valid() && Enabled()
      modifies this`cache, clock
      ensures Valid()
      ensures (cache, entry) == AfterGet(old(cache), key, clock.now) && old(clock.now) <= clock.now
      ensures entry.Some? ==> entry.value.key == key && Agrees(entry.value, inner.rows)
      ensures entry.Some? <==> Lives(old(cache), key, clock.now)
    {
      LivesIs(cache, key, clock.now);
      if !Has(cache, key) {
        return None;
      }
      var line := LineOf(cache, key);
      ghost var i :| 0 <= i < |cache| && cache[i] == line;
      if ttl > 0 {
        var now := clock.Monotonic();
        LivesIs(cache, key, now);
        if now > line.deadline.time {
          GetKeeps(cache, key, now, inner.rows, maxEntries);
          cache := Without(cache, key);
          KeepsDeadlines(old(cache), cache);
          return None;
        }
      }
      GetKeeps(cache, key, clock.now, inner.rows, maxEntries);
      cache := Without(cache, key) + [line];
      KeepsDeadlines(old(cache), cache);
      return Some(line);
    }

    function Expiry(now: int): (d: Deadline)
      ensures d.Never? <==> ttl == 0
    {
      if ttl > 0 then At(now + ttl) else Never
    }

    method ExpiresAt() returns (deadline: Deadline)
      modifies clock
      ensures deadline == Expiry(clock.now) && old(clock.now) <= clock.now
    {
      deadline := Never;
      if ttl > 0 {
        var now := clock.Monotonic();
        deadline := At(now + ttl);
      }
    }

    function NewLine(key: Key, payload: Option<Record>, now: int): Line {
      Line(key, Expiry(now), payload)
    }

    /** The key's line is the newest, with the payload, and runs out a TTL from now if there is one. */
    predicate FiledLast(key: Key, payload: Option<Record>)
      reads this`cache, clock
    {
      maxEntries > 0 ==>
        && cache != []
        && cache[|cache| - 1] == Line(key, if ttl == 0 then Never else At(clock.now + ttl), payload)
    }

    method CachePut(key: Key, payload: Option<Record>)
      requires Distinct(cache) && DeadlinesFit(cache)
      modifies this`cache, this`evictions, clock
      ensures cache == AfterPut(old(cache), NewLine(key, payload, clock.now), maxEntries)
      ensures Distinct(cache) && |cache| <= maxEntries && DeadlinesFit(cache)
      ensures old(clock.now) <= clock.now && (NoneOutlives(old(cache), old(clock.now)) ==> NoneOutlives(cache, clock.now))
      ensures FiledLast(key, payload)
    {
      var deadline := ExpiresAt();
      var line := Line(key, deadline, payload);
      cache := Without(cache, key) + [line];
      MakeRoom();
      assert cache == AfterPut(old(cache), line, maxEntries);
      PutKeeps(old(cache), line, maxEntries);
      PutFits(old(cache), line, old(clock.now), clock.now);
    }

    /** The new line is the last, and the others are among those before. */
    lemma PutFits(before: seq<Line>, line: Line, earlier: int, now: int)
      requires earlier <= now && DeadlinesFit(before) && (line.deadline == if ttl == 0 then Never else At(now + ttl))
      ensures var after := AfterPut(before, line, maxEntries);
        && DeadlinesFit(after) && (maxEntries > 0 ==> after != [] && after[|after| - 1] == line)
        && (NoneOutlives(before, earlier) ==> NoneOutlives(after, now))
    {
      var all, after := Without(before, line.key) + [line], AfterPut(before, line, maxEntries);
      forall i | 0 <= i < |after| ensures after[i] in before || after[i] == line {
        assert after[i] == all[|all| - |after| + i];
      }
    }

    /** The oldest lines go until the limit is met. */
    method MakeRoom()
      modifies this`cache, this`evictions
      ensures cache == Newest(old(cache), maxEntries)
      ensures evictions == old(evictions) + |old(cache)| - |cache|
    {
      while |cache| > maxEntries
        invariant Newest(cache, maxEntries) == Newest(old(cache), maxEntries)
        invariant evictions == old(evictions) + |old(cache)| - |cache|
        decreases |cache|
      {
        cache := cache[1..];
        evictions := evictions + 1;
      }
    }

    /** Dropping a line when its row is deleted. */
    lemma ErasedCoherent(before: seq<Line>, rows: Rows, key: Key)
      requires Distinct(before) && Coherent(before, rows) && DeadlinesFit(before)
      ensures Distinct(Without(before, key)) && DeadlinesFit(Without(before, key))
      ensures Coherent(Without(before, key), rows - {key})
    {
    }

    method Invalidate(key: Key)
      modifies this`cache, this`invalidations
      ensures cache == Without(old(cache), key)
      ensures invalidations == old(invalidations) + if Has(old(cache), key) then 1 else 0
    {
      if Has(cache, key) {
        invalidations := invalidations + 1;
      }
      cache := Without(cache, key);
    }

    // ---------- the database protocol ----------

    method Get(collection: string, id: string) returns (r: Option<Record>)
      requires Valid()
      modifies this`cache, this`hits, this`misses, this`evictions, clock
      ensures Valid() && r == Fetch(inner.rows, Key(collection, id))
      ensures maxEntries > 0 && !serverless ==> hits + misses == old(hits + misses) + 1
      ensures maxEntries == 0 || serverless ==> hits + misses == old(hits + misses) && cache == old(cache)
      ensures Enabled() && ttl == 0 ==> cache == Touch(old(cache), Key(collection, id), r, maxEntries)
      ensures Enabled() && ttl == 0 ==> (hits > old(hits) <==> Has(old(cache), Key(collection, id)))
      ensures Enabled() && hits > old(hits) ==> Lives(old(cache), Key(collection, id), clock.now)
      ensures Enabled() && hits == old(hits) ==> !Lives(old(cache), Key(collection, id), clock.now) && FiledLast(Key(collection, id), r)
    {
      if !Enabled() {
        r := inner.Load(collection, id);
        return;
      }
      var key := Key(collection, id);
      var entry := CacheGet(key);
      if entry.Some? {
        hits := hits + 1;
        return entry.value.payload;
      }
      misses := misses + 1;
      r := inner.Load(collection, id);
      FileAnswer(collection, id, r);
    }

    /** Files the record just written under the key it was written to. */
    method Refile(key: Key, saved: Record)
      requires inner.Valid() && Distinct(cache) && DeadlinesFit(cache) && NoneOutlives(cache, clock.now) && Enabled()
      requires forall i | 0 <= i < |cache| :: Agrees(cache[i], inner.rows) || cache[i].key == key
      requires Fetch(inner.rows, key) == Some(saved)
      modifies this`cache, this`evictions, clock
      ensures Valid()
      ensures ttl == 0 ==> cache == AfterPut(old(cache), Line(key, Never, Some(saved)), maxEntries)
      ensures FiledLast(key, Some(saved))
    {
      CachePut(key, Some(saved));
    }

    method Save(collection: string, data: Record) returns (saved: Record)
      requires Valid()
      modifies this`cache, this`evictions, inner, clock
      ensures Valid() && saved == data && inner.rows == StoreRow(old(inner.rows), collection, data)
      ensures data.id.Some? ==> inner.rows == old(inner.rows)[Key(collection, data.id.value) := data]
      ensures data.id.None? && data.altId.Some? ==> inner.rows == old(inner.rows)[Key(collection, data.altId.value) := data]
      ensures data.id.None? && data.altId.None? ==> inner.rows == old(inner.rows) && cache == old(cache)
      ensures Enabled() && data.id.Some? ==> FiledLast(Key(collection, data.id.value), Some(data))
      ensures Enabled() && data.id.None? && data.altId.Some? ==> FiledLast(Key(collection, data.altId.value), Some(data))
      ensures Enabled() && ttl == 0 && RecordId(data).Some? ==>
                cache == AfterPut(old(cache), Line(Key(collection, RecordId(data).value), Never, Some(data)), maxEntries)
    {
      saved := inner.Save(collection, data);
      var id := RecordId(saved);
      if id.Some? && Enabled() {
        Refile(Key(collection, id.value), saved);
      }
    }

    method Delete(collection: string, id: string)
      requires Valid()
      modifies this`cache, this`invalidations, inner
      ensures Valid() && inner.rows == old(inner.rows) - {Key(collection, id)}
      ensures Enabled() ==> cache == Without(old(cache), Key(collection, id))
    {
      inner.Delete(collection, id);
      if Enabled() {
        Invalidate(Key(collection, id));
        ErasedCoherent(old(cache), old(inner.rows), Key(collection, id));
      }
    }

    method FindOneAndDelete(collection: string, target: Option<string>) returns (r: Option<Record>)
      requires Valid()
      modifies this`cache, this`invalidations, inner
      ensures Valid() && r == (if target.Some? then Fetch(old(inner.rows), Key(collection, target.value)) else None)
      ensures inner.rows == if target.Some? then old(inner.rows) - {Key(collection, target.value)} else old(inner.rows)
      ensures Enabled() && r.Some? ==> cache == Without(old(cache), Key(collection, target.value))
    {
      r := inner.FindOneAndDelete(collection, target);
      if r.Some? && Enabled() {
        var id := RecordId(r.value);
        if id.Some? {
          Invalidate(Key(collection, id.value));
          ErasedCoherent(old(cache), old(inner.rows), Key(collection, id.value));
        }
      } else if r.None? {
        assert inner.rows == old(inner.rows);
      }
    }

    method FindOneAndUpdate(collection: string, target: Option<string>, body: string, upsertId: Option<string>)
      returns (r: Option<Record>)
      requires Valid()
      modifies this`cache, this`evictions, inner, clock
      ensures Valid() && (r, inner.rows) == Updated(old(inner.rows), collection, target, body, upsertId)
      ensures r.None? || !Enabled() ==> cache == old(cache)
      ensures r.Some? ==> RecordId(r.value).Some?
      ensures Enabled() && r.Some? ==> FiledLast(Key(collection, RecordId(r.value).value), r)
      ensures Enabled() && ttl == 0 && r.Some? ==>
                cache == AfterPut(old(cache), Line(Key(collection, RecordId(r.value).value), Never, r), maxEntries)
    {
      r := inner.FindOneAndUpdate(collection, target, body, upsertId);
      if r.Some? && Enabled() {
        var id := RecordId(r.value);
        if id.Some? {
          Refile(Key(collection, id.value), r.value);
        }
      }
    }

    /** The keys under which the records from position `i` on will still be filed. */
    ghost function KeysFrom(collection: string, records: seq<Record>, i: nat): set<Key>
      requires i <= |records|
    {
      set k | i <= k < |records| && RecordId(records[k]).Some? :: Key(collection, RecordId(records[k]).value)
    }

    method BulkSave(collection: string, records: seq<Record>) returns (count: nat)
      requires Valid()
      modifies this`cache, this`evictions, inner, clock
      ensures Valid() && inner.rows == StoreRows(old(inner.rows), collection, records) && count == |records|
      ensures !Enabled() ==> cache == old(cache)
      ensures Enabled() && ttl == 0 ==> cache == FileRecords(old(cache), collection, records, maxEntries)
    {
      count := inner.BulkSave(collection, records);
      if !Enabled() {
        return;
      }
      StoredRows(old(inner.rows), collection, records);
      for i := 0 to |records|
        invariant inner.Valid() && inner.rows == StoreRows(old(inner.rows), collection, records)
        invariant Distinct(cache) && |cache| <= maxEntries && DeadlinesFit(cache) && NoneOutlives(cache, clock.now)
        invariant forall k | 0 <= k < |cache| :: Agrees(cache[k], inner.rows) || cache[k].key in KeysFrom(collection, records, i)
        invariant ttl == 0 ==> FileRecords(old(cache), collection, records, maxEntries)
                               == FileRecords(cache, collection, records[i..], maxEntries)
      {
        assert records[i..][1..] == records[i + 1..];
        var id := RecordId(records[i]);
        if id.Some? {
          var key := Key(collection, id.value);
          label put:
          CachePut(key, Some(records[i]));
          ghost var line := NewLine(key, Some(records[i]), clock.now);
          PutKeeps(old@put(cache), line, maxEntries);
          forall k | 0 <= k < |cache|
            ensures Agrees(cache[k], inner.rows) || cache[k].key in KeysFrom(collection, records, i + 1)
          {
            assert cache[k] in cache;
            if cache[k] == line { LastWins(old(inner.rows), collection, records, i); }
          }
        }
      }
    }

    /** Rows the records do not name are untouched. */
    lemma {:induction false} StoredRows(rows: Rows, collection: string, records: seq<Record>)
      ensures forall key | key !in KeysFrom(collection, records, 0) ::
                Fetch(StoreRows(rows, collection, records), key) == Fetch(rows, key)
      decreases |records|
    {
      if records != [] {
        StoredRows(StoreRow(rows, collection, records[0]), collection, records[1..]);
      }
    }

    /** The row of a record that no later one overwrites is that record. */
    lemma {:induction false} LastWins(rows: Rows, collection: string, records: seq<Record>, i: nat)
      requires i < |records| && RecordId(records[i]).Some?
      ensures var key := Key(collection, RecordId(records[i]).value);
              key in KeysFrom(collection, records, i + 1) || Fetch(StoreRows(rows, collection, records), key) == Some(records[i])
      decreases |records|
    {
      var next := StoreRow(rows, collection, records[0]);
      if i == 0 {
        StoredRows(next, collection, records[1..]);
      } else {
        LastWins(next, collection, records[1..], i - 1);
      }
    }

    method FindMany(collection: string, ids: seq<string>) returns (found: map<string, Record>)
      requires Valid()
      modifies this`cache, this`hits, this`misses, this`evictions, clock
      ensures Valid() && found == FetchMany(inner.rows, collection, ids)
      ensures Enabled() && ttl == 0 ==> cache == Batch(old(cache), inner.rows, collection, Unique(ids), maxEntries)
      ensures Enabled() ==> hits + misses == old(hits + misses) + |Unique(ids)| && misses >= old(misses)
      ensures !Enabled() ==> cache == old(cache)
    {
      if !Enabled() {
        found := inner.FindMany(collection, ids);
        return;
      }
      if ids == [] {
        return map[];
      }
      var unique := Unique(ids);
      var cached: map<string, Record>, missed: seq<string>;
      cached, missed := ReadCached(collection, unique);
      misses := misses + |missed|;
      var fetched: map<string, Record> := map[];
      if missed != [] {
        fetched := inner.FindMany(collection, missed);
        FileFetched(collection, missed, fetched);
      }
      found := cached + fetched;
      BatchAnswered(inner.rows, collection, ids, unique, cached, missed, fetched);
    }

    lemma BatchAnswered(rows: Rows, collection: string, ids: seq<string>, unique: seq<string>, cached: map<string, Record>,
                        missed: seq<string>, fetched: map<string, Record>)
      requires AnsweredFrom(rows, collection, unique, cached, missed) && (forall id :: id in unique <==> id in ids)
      requires fetched == if missed == [] then map[] else FetchMany(rows, collection, missed)
      ensures cached + fetched == FetchMany(rows, collection, ids)
    {
    }

    /** What the cached ids are answered with. */
    ghost predicate AnsweredFrom(rows: Rows, collection: string, ids: seq<string>, cached: map<string, Record>, missed: seq<string>) {
      && (forall id | id in missed :: id in ids && id !in cached)
      && (forall id | id in cached :: id in ids && Fetch(rows, Key(collection, id)) == Some(cached[id]))
      && (forall id | id in ids && id !in missed && id !in cached :: Fetch(rows, Key(collection, id)) == None)
    }

    lemma MissesFirst(lines: seq<Line>, collection: string, ids: seq<string>, missed: seq<string>)
      requires ids != []
      ensures missed + Misses(lines, collection, ids) ==
              (if Has(lines, Key(collection, ids[0])) then missed else missed + [ids[0]]) + Misses(lines, collection, ids[1..])
    {
    }

    /** One id of a batch looked up in the cache. */
    method ReadOne(collection: string, id: string) returns (entry: Option<Line>)
      requires Valid() && Enabled()
      modifies this`cache, this`hits, clock
      ensures Valid()
      ensures entry.Some? ==> entry.value.payload == Fetch(inner.rows, Key(collection, id))
      ensures ttl == 0 ==> cache == PromoteKey(old(cache), Key(collection, id))
      ensures ttl == 0 ==> (entry.Some? <==> Has(old(cache), Key(collection, id)))
      ensures entry.Some? <==> Lives(old(cache), Key(collection, id), clock.now)
      ensures hits == old(hits) + if entry.Some? then 1 else 0
    {
      entry := CacheGet(Key(collection, id));
      if entry.Some? {
        hits := hits + 1;
      }
    }

    /** The ids served from the cache and those to ask the backend for, in order. */
    method ReadCached(collection: string, unique: seq<string>) returns (cached: map<string, Record>, missed: seq<string>)
      requires Valid() && Enabled()
      requires forall i, j | 0 <= i < j < |unique| :: unique[i] != unique[j]
      modifies this`cache, this`hits, clock
      ensures Valid() && AnsweredFrom(inner.rows, collection, unique, cached, missed)
      ensures hits + |missed| == old(hits) + |unique|
      ensures ttl == 0 ==> cache == Promote(old(cache), collection, unique) && missed == Misses(old(cache), collection, unique)
    {
      cached, missed := map[], [];
      for i := 0 to |unique|
        invariant Valid() && AnsweredFrom(inner.rows, collection, unique[..i], cached, missed)
        invariant hits + |missed| == old(hits) + i
        invariant ttl == 0 ==> Promote(old(cache), collection, unique) == Promote(cache, collection, unique[i..])
        invariant ttl == 0 ==> Misses(old(cache), collection, unique) == missed + Misses(cache, collection, unique[i..])
      {
        var id := unique[i];
        assert unique[..i + 1] == unique[..i] + [id] && unique[i..][1..] == unique[i + 1..];
        assert id !in unique[..i];
        SameMisses(cache, Key(collection, id), collection, unique[i + 1..]);
        MissesFirst(cache, collection, unique[i..], missed);
        var entry := ReadOne(collection, id);
        if entry.None? {
          missed := missed + [id];
        } else if entry.value.payload.Some? {
          cached := cached[id := entry.value.payload.value];
        }
      }
      assert unique[..|unique|] == unique;
    }

    /** Promoting a line does not change which ids are cached. */
    lemma {:induction false} SameMisses(before: seq<Line>, key: Key, collection: string, ids: seq<string>)
      ensures Misses(PromoteKey(before, key), collection, ids) == Misses(before, collection, ids)
      decreases |ids|
    {
      if ids != [] {
        SameKeys(before, key);
        SameMisses(before, key, collection, ids[1..]);
      }
    }

    /** The backend's answer for one id is filed, found or not. */
    method FileAnswer(collection: string, id: string, answer: Option<Record>)
      requires Valid() && Enabled() && answer == Fetch(inner.rows, Key(collection, id))
      modifies this`cache, this`evictions, clock
      ensures Valid() && FiledLast(Key(collection, id), answer) && old(clock.now) <= clock.now
      ensures ttl == 0 ==> cache == AfterPut(old(cache), Line(Key(collection, id), Never, answer), maxEntries)
    {
      CachePut(Key(collection, id), answer);
    }

    method FileFetched(collection: string, missed: seq<string>, fetched: map<string, Record>)
      requires Valid() && Enabled() && fetched == FetchMany(inner.rows, collection, missed)
      modifies this`cache, this`evictions, clock
      ensures Valid()
      ensures ttl == 0 ==> cache == FileMisses(old(cache), inner.rows, collection, missed, maxEntries)
    {
      for i := 0 to |missed|
        invariant Valid()
        invariant ttl == 0 ==> FileMisses(old(cache), inner.rows, collection, missed, maxEntries)
                               == FileMisses(cache, inner.rows, collection, missed[i..], maxEntries)
      {
        var id := missed[i];
        var answer := if id in fetched then Some(fetched[id]) else None;
        FetchedIs(inner.rows, collection, missed, id);
        MissFiled(cache, inner.rows, collection, missed, i);
        FileAnswer(collection, id, answer);
      }
    }

    lemma FetchedIs(rows: Rows, collection: string, missed: seq<string>, id: string)
      requires id in missed
      ensures var fetched := FetchMany(rows, collection, missed);
              (if id in fetched then Some(fetched[id]) else None) == Fetch(rows, Key(collection, id))
    {
    }

    lemma MissFiled(lines: seq<Line>, rows: Rows, collection: string, missed: seq<string>, i: nat)
      requires i < |missed|
      ensures var line := Line(Key(collection, missed[i]), Never, Fetch(rows, Key(collection, missed[i])));
              FileMisses(lines, rows, collection, missed[i..], maxEntries)
              == FileMisses(AfterPut(lines, line, maxEntries), rows, collection, missed[i + 1..], maxEntries)
    {
      assert missed[i..][0] == missed[i] && missed[i..][1..] == missed[i + 1..];
    }
  }
}
