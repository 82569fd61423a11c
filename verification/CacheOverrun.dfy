/** A run of reads with one wide batch after which a smaller cache (jvspatial/db/_cache.py) holds an id that
    a larger one has lost, and with it the exact width of batches that keep all hits. */
module CacheOverrun {
  import opened CacheLines
  import opened CacheInclusion

  /** The i-th id, the first one being empty. */
  function Id(i: nat): (id: string)
    ensures |id| == i
  {
    seq(i, _ => 'x')
  }

  function K(i: nat): Key {
    Key("c", Id(i))
  }

  function Ids(from: nat, count: nat): (ids: seq<string>)
    ensures |ids| == count && forall i | 0 <= i < count :: ids[i] == Id(from + i)
    decreases count
  {
    if count == 0 then [] else [Id(from)] + Ids(from + 1, count - 1)
  }

  predicate ReadsOnly(ops: seq<Op>) {
    forall op | op in ops :: op.Read? || op.ReadMany?
  }

  function Reads(from: nat, count: nat): (ops: seq<Op>)
    ensures |ops| == count && forall op | op in ops :: op.Read?
    decreases count
  {
    if count == 0 then [] else [Read(K(from))] + Reads(from + 1, count - 1)
  }

  /** Only ids before the i-th have been used. */
  ghost predicate UsedBelow(cache: seq<Line>, i: nat) {
    forall j | 0 <= j < |cache| :: |cache[j].key.id| < i
  }

  /** The id first used has `newer` lines behind it, or is gone if that leaves it no room. */
  ghost predicate Behind(cache: seq<Line>, newer: nat, used: nat, limit: nat) {
    && Distinct(cache) && |cache| <= limit && UsedBelow(cache, used)
    && (if newer < limit then newer < |cache| && cache[|cache| - 1 - newer].key == K(0) else !Has(cache, K(0)))
  }

  lemma PutUnused(cache: seq<Line>, used: nat, limit: nat, payload: Option<Record>)
    requires Distinct(cache) && UsedBelow(cache, used) && limit > 0
    ensures var after := AfterPut(cache, Line(K(used), Never, payload), limit);
            && after == Newest(cache + [Line(K(used), Never, payload)], limit)
            && Distinct(after) && |after| <= limit && UsedBelow(after, used + 1)
  {
    var line := Line(K(used), Never, payload);
    assert !Has(cache, K(used));
    WithoutAbsent(cache, K(used));
    PutKeeps(cache, line, limit);
  }

  lemma PutBehind(cache: seq<Line>, newer: nat, used: nat, limit: nat, payload: Option<Record>)
    requires Behind(cache, newer, used, limit) && used > 0 && limit > 0
    ensures Behind(AfterPut(cache, Line(K(used), Never, payload), limit), newer + 1, used + 1, limit)
  {
    var line := Line(K(used), Never, payload);
    var after := AfterPut(cache, line, limit);
    PutUnused(cache, used, limit, payload);
    if newer + 1 == limit {
      FirstLeaves(cache, line, limit);
    } else if newer >= limit {
      forall i | 0 <= i < |after| ensures after[i].key != K(0) {
        assert after[i] == line || after[i] in cache;
      }
    }
  }

  /** The oldest line of a full cache makes room. */
  lemma FirstLeaves(cache: seq<Line>, line: Line, limit: nat)
    requires Distinct(cache) && limit > 0 && |cache| == limit && line.key != cache[0].key
    ensures !Has(Newest(cache + [line], limit), cache[0].key)
  {
    assert Newest(cache + [line], limit) == cache[1..] + [line];
  }

  /** Read or filed, the first id is the newest. */
  lemma PutFirst(cache: seq<Line>, used: nat, limit: nat, line: Line)
    requires Distinct(cache) && UsedBelow(cache, used) && used > 0 && limit > 0 && line.key == K(0)
    ensures Behind(AfterPut(cache, line, limit), 0, used, limit)
  {
    PutKeeps(cache, line, limit);
    var after := AfterPut(cache, line, limit);
    forall i | 0 <= i < |after| ensures |after[i].key.id| < used {
      assert after[i] in after;
    }
  }

  /** A step taken `count` times, for consecutive numbers. */
  function Repeat(step: (seq<Line>, nat) -> seq<Line>, cache: seq<Line>, from: nat, count: nat): seq<Line>
    decreases count
  {
    if count == 0 then cache else Repeat(step, step(cache, from), from + 1, count - 1)
  }

  type Relation = (seq<Line>, nat, nat) -> bool

  lemma {:induction false} RepeatKeeps(inv: Relation, step: (seq<Line>, nat) -> seq<Line>, cache: seq<Line>, newer: nat, from: nat, count: nat)
    requires inv(cache, newer, from)
    requires forall c: seq<Line>, k: nat, i: nat | inv(c, k, i) :: inv(step(c, i), k + 1, i + 1)
    ensures inv(Repeat(step, cache, from, count), newer + count, from + count)
    decreases count
  {
    if count > 0 {
      RepeatKeeps(inv, step, step(cache, from), newer + 1, from + 1, count - 1);
    }
  }

  /** An unused id is filed. */
  function PutNext(limit: nat): (seq<Line>, nat) -> seq<Line> {
    (cache: seq<Line>, i: nat) => AfterPut(cache, Line(K(i), Never, None), limit)
  }

  function PutMany(cache: seq<Line>, used: nat, count: nat, limit: nat): seq<Line> {
    Repeat(PutNext(limit), cache, used, count)
  }

  ghost function BehindIn(limit: nat): Relation {
    (cache: seq<Line>, newer: nat, used: nat) => used > 0 && Behind(cache, newer, used, limit)
  }

  lemma NextBehind(limit: nat, cache: seq<Line>, newer: nat, used: nat)
    requires limit > 0 && BehindIn(limit)(cache, newer, used)
    ensures BehindIn(limit)(PutNext(limit)(cache, used), newer + 1, used + 1)
  {
    PutBehind(cache, newer, used, limit, None);
  }

  lemma ManyBehind(limit: nat, inv: Relation, cache: seq<Line>, newer: nat, used: nat, count: nat)
    requires limit > 0 && inv == BehindIn(limit) && inv(cache, newer, used)
    ensures inv(PutMany(cache, used, count, limit), newer + count, used + count)
  {
    forall c: seq<Line>, k: nat, i: nat | inv(c, k, i) ensures inv(PutNext(limit)(c, i), k + 1, i + 1) {
      NextBehind(limit, c, k, i);
    }
    RepeatKeeps(inv, PutNext(limit), cache, newer, used, count);
  }

  lemma {:induction false} ReadsArePuts(cache: seq<Line>, used: nat, count: nat, limit: nat)
    requires Distinct(cache) && UsedBelow(cache, used) && limit > 0
    ensures Run(cache, map[], Reads(used, count), limit).0 == PutMany(cache, used, count, limit)
    decreases count
  {
    if count > 0 {
      PutUnused(cache, used, limit, None);
      assert !Has(cache, K(used)) && Reads(used, count)[1..] == Reads(used + 1, count - 1);
      ReadsArePuts(AfterPut(cache, Line(K(used), Never, None), limit), used + 1, count - 1, limit);
    }
  }

  lemma {:induction false} FilesArePuts(cache: seq<Line>, used: nat, count: nat, limit: nat)
    ensures FileMisses(cache, map[], "c", Ids(used, count), limit) == PutMany(cache, used, count, limit)
    decreases count
  {
    if count > 0 {
      assert Ids(used, count)[1..] == Ids(used + 1, count - 1);
      FilesArePuts(AfterPut(cache, Line(K(used), Never, None), limit), used + 1, count - 1, limit);
    }
  }

  lemma {:induction false} FilesConcat(cache: seq<Line>, ids: seq<string>, more: seq<string>, limit: nat)
    ensures FileMisses(cache, map[], "c", ids + more, limit) == FileMisses(FileMisses(cache, map[], "c", ids, limit), map[], "c", more, limit)
    decreases |ids|
  {
    if ids == [] {
      assert ids + more == more;
    } else {
      assert (ids + more)[1..] == ids[1..] + more;
      FilesConcat(AfterPut(cache, Line(Key("c", ids[0]), Never, None), limit), ids[1..], more, limit);
    }
  }

  predicate NoneCached(cache: seq<Line>, ids: seq<string>)
    decreases |ids|
  {
    ids == [] || (!Has(cache, Key("c", ids[0])) && NoneCached(cache, ids[1..]))
  }

  lemma {:induction false} UnusedNotCached(cache: seq<Line>, used: nat, count: nat)
    requires UsedBelow(cache, used)
    ensures NoneCached(cache, Ids(used, count))
    decreases count
  {
    if count > 0 {
      UnusedNotCached(cache, used + 1, count - 1);
      assert Ids(used, count)[1..] == Ids(used + 1, count - 1);
    }
  }

  lemma UncachedFirst(cache: seq<Line>, id: string, more: seq<string>)
    requires !Has(cache, Key("c", id))
    ensures Promote(cache, "c", [id] + more) == Promote(cache, "c", more)
    ensures Misses(cache, "c", [id] + more) == [id] + Misses(cache, "c", more)
  {
    assert ([id] + more)[1..] == more;
  }

  /** Ids not cached are not promoted, and all of them are missed. */
  lemma {:induction false} UncachedMissed(cache: seq<Line>, ids: seq<string>, more: seq<string>)
    requires NoneCached(cache, ids)
    ensures Promote(cache, "c", ids + more) == Promote(cache, "c", more)
    ensures Misses(cache, "c", ids + more) == ids + Misses(cache, "c", more)
    decreases |ids|
  {
    if ids == [] {
      assert ids + more == more;
    } else {
      var rest := ids[1..];
      UncachedMissed(cache, rest, more);
      UncachedFirst(cache, ids[0], rest + more);
      assert ids + more == [ids[0]] + (rest + more);
      assert ids + Misses(cache, "c", more) == [ids[0]] + (rest + Misses(cache, "c", more));
    }
  }

  lemma {:induction false} UniqueIs(ids: seq<string>)
    requires AllDistinct(ids)
    ensures Unique(ids) == ids
  {
    if ids != [] {
      var n := |ids| - 1;
      assert ids == ids[..n] + [ids[n]];
      UniqueIs(ids[..n]);
    }
  }

  /** A batch of unused ids that ends with the first id. */
  function Wide(used: nat, count: nat): seq<string> {
    Ids(used, count) + [Id(0)]
  }

  lemma WideUnique(used: nat, count: nat)
    requires used > 0
    ensures Unique(Wide(used, count)) == Wide(used, count)
  {
    forall i, j | 0 <= i < j < |Wide(used, count)| ensures Wide(used, count)[i] != Wide(used, count)[j] {
      assert |Wide(used, count)[i]| != |Wide(used, count)[j]|;
    }
    UniqueIs(Wide(used, count));
  }

  lemma WideParts(cache: seq<Line>, used: nat, count: nat)
    requires UsedBelow(cache, used)
    ensures Promote(cache, "c", Wide(used, count)) == PromoteKey(cache, K(0))
    ensures Misses(cache, "c", Wide(used, count)) == Ids(used, count) + if Has(cache, K(0)) then [] else [Id(0)]
  {
    UnusedNotCached(cache, used, count);
    UncachedMissed(cache, Ids(used, count), [Id(0)]);
    assert [Id(0)][1..] == [];
  }

  /** Where the first id is cached it is promoted before the others are filed. */
  lemma CachedParts(cache: seq<Line>, used: nat, count: nat, limit: nat)
    requires Distinct(cache) && UsedBelow(cache, used) && |cache| <= limit && Has(cache, K(0))
    ensures Batch(cache, map[], "c", Wide(used, count), limit) == PutMany(AfterPut(cache, LineOf(cache, K(0)), limit), used, count, limit)
  {
    var promoted := PromoteKey(cache, K(0));
    WideParts(cache, used, count);
    assert Ids(used, count) + [] == Ids(used, count);
    PromoteIsPut(cache, K(0), limit);
    FilesArePuts(promoted, used, count, limit);
  }

  lemma CachedFirst(limit: nat, inv: Relation, cache: seq<Line>, newer: nat, used: nat, count: nat)
    requires limit > newer && inv == BehindIn(limit) && inv(cache, newer, used)
    ensures inv(Batch(cache, map[], "c", Wide(used, count), limit), count, used + count)
  {
    assert Has(cache, K(0));
    var line := LineOf(cache, K(0));
    PutFirst(cache, used, limit, line);
    ManyBehind(limit, inv, AfterPut(cache, line, limit), 0, used, count);
    CachedParts(cache, used, count, limit);
  }

  /** Where it is missed it is filed after them. */
  lemma MissedParts(cache: seq<Line>, used: nat, count: nat, limit: nat)
    requires UsedBelow(cache, used) && !Has(cache, K(0))
    ensures Batch(cache, map[], "c", Wide(used, count), limit) == AfterPut(PutMany(cache, used, count, limit), Line(K(0), Never, None), limit)
  {
    WideParts(cache, used, count);
    FilesConcat(cache, Ids(used, count), [Id(0)], limit);
    FilesArePuts(cache, used, count, limit);
    assert [Id(0)][1..] == [];
  }

  lemma MissedLast(limit: nat, inv: Relation, cache: seq<Line>, newer: nat, used: nat, count: nat)
    requires 0 < limit <= newer && inv == BehindIn(limit) && inv(cache, newer, used)
    ensures inv(Batch(cache, map[], "c", Wide(used, count), limit), 0, used + count)
  {
    ManyBehind(limit, inv, cache, newer, used, count);
    PutFirst(PutMany(cache, used, count, limit), used + count, limit, Line(K(0), Never, None));
    MissedParts(cache, used, count, limit);
  }

  lemma WideRead(cache: seq<Line>, used: nat, count: nat, limit: nat)
    requires used > 0 && limit > 0
    ensures Run(cache, map[], [ReadMany("c", Wide(used, count))], limit).0 == Batch(cache, map[], "c", Wide(used, count), limit)
  {
    WideUnique(used, count);
    assert [ReadMany("c", Wide(used, count))][1..] == [];
  }

  lemma {:induction false} RunConcat(cache: seq<Line>, rows: Rows, ops: seq<Op>, more: seq<Op>, limit: nat)
    requires ReadsOnly(ops)
    ensures Run(cache, rows, ops + more, limit) == Run(Run(cache, rows, ops, limit).0, rows, more, limit)
    decreases |ops|
  {
    if ops == [] {
      assert ops + more == more;
    } else {
      assert (ops + more)[1..] == ops[1..] + more;
      RunConcat(CacheAfter(cache, rows, ops[0], limit), rows, ops[1..], more, limit);
    }
  }

  lemma FirstRead(limit: nat)
    requires limit > 0
    ensures Behind(Run([], map[], Reads(0, 1), limit).0, 0, 1, limit)
  {
    PutFirst([], 1, limit, Line(K(0), Never, None));
    assert Reads(0, 1)[1..] == [];
  }

  // ---------- the run ----------

  /** How many lines are behind the first id and how many ids have been used, as a relation: what reading
      unused ids and wide batches does to it. */
  ghost predicate Laws(inv: Relation, limit: nat) {
    && inv(Run([], map[], Reads(0, 1), limit).0, 0, 1)
    && (forall cache: seq<Line>, newer: nat, used: nat, count: nat | inv(cache, newer, used) ::
          inv(Run(cache, map[], Reads(used, count), limit).0, newer + count, used + count))
    && (forall cache: seq<Line>, newer: nat, used: nat, count: nat | inv(cache, newer, used) ::
          inv(Run(cache, map[], [ReadMany("c", Wide(used, count))], limit).0, if newer < limit then count else 0, used + count))
    && (forall cache: seq<Line>, newer: nat, used: nat | inv(cache, newer, used) :: Has(cache, K(0)) <==> newer < limit)
  }

  lemma FirstLaw(limit: nat)
    requires limit > 0
    ensures BehindIn(limit)(Run([], map[], Reads(0, 1), limit).0, 0, 1)
  {
    FirstRead(limit);
  }

  lemma ReadsLaw(limit: nat, inv: Relation, cache: seq<Line>, newer: nat, used: nat, count: nat)
    requires limit > 0 && inv == BehindIn(limit) && inv(cache, newer, used)
    ensures inv(Run(cache, map[], Reads(used, count), limit).0, newer + count, used + count)
  {
    ManyBehind(limit, inv, cache, newer, used, count);
    ReadsArePuts(cache, used, count, limit);
  }

  lemma WideLaw(limit: nat, inv: Relation, cache: seq<Line>, newer: nat, used: nat, count: nat)
    requires limit > 0 && inv == BehindIn(limit) && inv(cache, newer, used)
    ensures inv(Run(cache, map[], [ReadMany("c", Wide(used, count))], limit).0, if newer < limit then count else 0, used + count)
  {
    WideRead(cache, used, count, limit);
    if newer < limit {
      CachedFirst(limit, inv, cache, newer, used, count);
    } else {
      MissedLast(limit, inv, cache, newer, used, count);
    }
  }

  lemma HasLaw(limit: nat, cache: seq<Line>, newer: nat, used: nat)
    requires BehindIn(limit)(cache, newer, used)
    ensures Has(cache, K(0)) <==> newer < limit
  {
  }

  lemma BehindLaws(limit: nat, inv: Relation)
    requires limit > 0 && inv == BehindIn(limit)
    ensures Laws(inv, limit)
  {
    FirstLaw(limit);
    forall cache: seq<Line>, newer: nat, used: nat, count: nat | inv(cache, newer, used)
      ensures inv(Run(cache, map[], Reads(used, count), limit).0, newer + count, used + count)
    {
      ReadsLaw(limit, inv, cache, newer, used, count);
    }
    forall cache: seq<Line>, newer: nat, used: nat, count: nat | inv(cache, newer, used)
      ensures inv(Run(cache, map[], [ReadMany("c", Wide(used, count))], limit).0, if newer < limit then count else 0, used + count)
    {
      WideLaw(limit, inv, cache, newer, used, count);
    }
    forall cache: seq<Line>, newer: nat, used: nat | inv(cache, newer, used) ensures Has(cache, K(0)) <==> newer < limit {
      HasLaw(limit, cache, newer, used);
    }
  }

  /** The first id is read, n others push it out of a cache of n entries but not out of one of m, then a
      batch of m - n + 2 ids ends with it, and n - 1 others are read. */
  function Overrun(n: nat, m: nat): seq<Op>
    requires 0 < n < m
  {
    Reads(0, 1) + (Reads(1, n) + ([ReadMany("c", Wide(n + 1, m - n + 1))] + Reads(m + 2, n - 1)))
  }

  lemma RunFour(a: seq<Op>, b: seq<Op>, c: seq<Op>, d: seq<Op>, limit: nat)
    requires ReadsOnly(a) && ReadsOnly(b) && ReadsOnly(c)
    ensures Run([], map[], a + (b + (c + d)), limit).0
            == Run(Run(Run(Run([], map[], a, limit).0, map[], b, limit).0, map[], c, limit).0, map[], d, limit).0
  {
    var one := Run([], map[], a, limit).0;
    RunConcat([], map[], a, b + (c + d), limit);
    RunConcat(one, map[], b, c + d, limit);
    RunConcat(Run(one, map[], b, limit).0, map[], c, d, limit);
  }

  lemma OverrunReadsOnly(n: nat, m: nat)
    requires 0 < n < m
    ensures ReadsOnly(Reads(0, 1)) && ReadsOnly(Reads(1, n)) && ReadsOnly([ReadMany("c", Wide(n + 1, m - n + 1))])
  {
  }

  lemma OverrunParts(n: nat, m: nat, limit: nat)
    requires 0 < n < m
    ensures Run([], map[], Overrun(n, m), limit).0
            == Run(Run(Run(Run([], map[], Reads(0, 1), limit).0, map[], Reads(1, n), limit).0,
                       map[], [ReadMany("c", Wide(n + 1, m - n + 1))], limit).0, map[], Reads(m + 2, n - 1), limit).0
  {
    OverrunReadsOnly(n, m);
    RunFour(Reads(0, 1), Reads(1, n), [ReadMany("c", Wide(n + 1, m - n + 1))], Reads(m + 2, n - 1), limit);
  }

  /** A cache of n entries misses the first id in the batch and files it last, one of m promotes it first. */
  lemma OverrunEnds(n: nat, m: nat, limit: nat, inv: Relation, one: seq<Line>)
    requires 0 < n < m && Laws(inv, limit) && one == Run([], map[], Reads(0, 1), limit).0
    ensures Has(Run([], map[], Overrun(n, m), limit).0, K(0)) <==> (if n < limit then m - n + 1 else 0) + n - 1 < limit
  {
    FourLaws(n, m, limit, inv, one);
    OverrunParts(n, m, limit);
  }

  lemma FourLaws(n: nat, m: nat, limit: nat, inv: Relation, one: seq<Line>)
    requires 0 < n < m && Laws(inv, limit) && inv(one, 0, 1)
    ensures var two := Run(one, map[], Reads(1, n), limit).0;
            var three := Run(two, map[], [ReadMany("c", Wide(n + 1, m - n + 1))], limit).0;
            Has(Run(three, map[], Reads(m + 2, n - 1), limit).0, K(0)) <==> (if n < limit then m - n + 1 else 0) + n - 1 < limit
  {
    var two := Run(one, map[], Reads(1, n), limit).0;
    assert inv(two, 0 + n, 1 + n);
    var three := Run(two, map[], [ReadMany("c", Wide(n + 1, m - n + 1))], limit).0;
    var newer := if n < limit then m - n + 1 else 0;
    assert inv(three, newer, n + 1 + (m - n + 1));
    assert inv(Run(three, map[], Reads(m + 2, n - 1), limit).0, newer + (n - 1), m + 2 + (n - 1));
  }

  lemma {:induction false} FewKeys(collection: string, ids: seq<string>)
    ensures |KeysOf(collection, ids)| <= |ids|
  {
    if ids != [] {
      FewKeys(collection, ids[1..]);
      HitsFirst([], collection, ids);
    }
  }

  lemma OverrunWidth(n: nat, m: nat)
    requires 0 < n < m
    ensures NoWider(Overrun(n, m), m - n + 2)
  {
    FewKeys("c", Wide(n + 1, m - n + 1));
    forall op | op in Overrun(n, m) ensures |Touched(op)| <= m - n + 2 {
      assert op.Read? || op == ReadMany("c", Wide(n + 1, m - n + 1));
    }
  }

  lemma OverrunLoses(n: nat, m: nat, width: nat)
    requires 0 < n < m && n + width > m + 1
    ensures NoWider(Overrun(n, m), width)
    ensures Has(Run([], map[], Overrun(n, m), n).0, K(0)) && !Has(Run([], map[], Overrun(n, m), m).0, K(0))
  {
    OverrunWidth(n, m);
    BehindLaws(n, BehindIn(n));
    BehindLaws(m, BehindIn(m));
    OverrunEnds(n, m, n, BehindIn(n), Run([], map[], Reads(0, 1), n).0);
    OverrunEnds(n, m, m, BehindIn(m), Run([], map[], Reads(0, 1), m).0);
  }

  /** Inclusion with batches: a cache of m entries holds all that one of n holds, whatever is read,
      written and erased, if and only if no batch asks for more than m - n + 1 ids. */
  lemma InclusionIff(n: nat, m: nat, width: nat)
    requires 0 < n < m
    ensures KeepsHits(n, m, width) <==> width <= m - n + 1
  {
    if width <= m - n + 1 {
      NarrowBatchesKeepHits(n, m, width);
    } else {
      OverrunLoses(n, m, width);
    }
  }
}
