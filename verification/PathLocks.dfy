/** The per-path lock table of jvspatial/db/_path_locks.py: the manager object, and the runs of any
    number of threads that share it. Looking a lock up and acquiring it are separate steps, so an
    eviction can come between them. */
module PathLocks {
  type Key = string
  type LockId = nat

  /** One entry of the ordered dictionary; the least recently used entry comes first. */
  datatype Slot = Slot(key: Key, lock: LockId)

  // ---------- the table ----------

  predicate HasKey(table: seq<Slot>, key: Key) {
    exists i | 0 <= i < |table| :: table[i].key == key
  }

  function IndexOf(table: seq<Slot>, key: Key): (i: nat)
    requires HasKey(table, key)
    ensures i < |table| && table[i].key == key
  {
    if table[0].key == key then 0
    else
      assert HasKey(table[1..], key) by {
        var k :| 0 <= k < |table| && table[k].key == key;
        assert table[1..][k - 1].key == key;
      }
      1 + IndexOf(table[1..], key)
  }

  function RemoveAt(table: seq<Slot>, i: nat): seq<Slot>
    requires i < |table|
  {
    table[..i] + table[i + 1..]
  }

  /** The position of the first entry whose lock nobody holds, or the length when all are held. */
  function FirstIdle(table: seq<Slot>, held: set<LockId>): (i: nat)
    ensures i <= |table|
    ensures forall k | 0 <= k < i :: table[k].lock in held
    ensures i < |table| ==> table[i].lock !in held
  {
    if table == [] then 0
    else if table[0].lock !in held then 0
    else 1 + FirstIdle(table[1..], held)
  }

  predicate Distinct(table: seq<Slot>) {
    forall i, j | 0 <= i < j < |table| :: table[i].key != table[j].key && table[i].lock != table[j].lock
  }

  predicate Below(table: seq<Slot>, bound: LockId) {
    forall i | 0 <= i < |table| :: table[i].lock < bound
  }

  lemma RemoveAtKeeps(table: seq<Slot>, i: nat)
    requires i < |table| && Distinct(table)
    ensures Distinct(RemoveAt(table, i))
    ensures forall slot :: slot in RemoveAt(table, i) <==> slot in table && slot != table[i]
  {
    var rest := RemoveAt(table, i);
    forall slot ensures slot in rest <==> slot in table && slot != table[i] {
      if slot in table && slot != table[i] {
        var j :| 0 <= j < |table| && table[j] == slot;
        if j < i { assert rest[j] == slot; } else { assert rest[j - 1] == slot; }
      }
    }
  }

  lemma AppendKeeps(table: seq<Slot>, slot: Slot)
    requires Distinct(table) && forall other | other in table :: other.key != slot.key && other.lock != slot.lock
    ensures Distinct(table + [slot])
  {
  }

  function EvictIdle(table: seq<Slot>, held: set<LockId>): seq<Slot> {
    var i := FirstIdle(table, held);
    if i < |table| then RemoveAt(table, i) else table
  }

  /** The table that a new entry is added to. */
  function Room(table: seq<Slot>, held: set<LockId>, maxLocks: nat): seq<Slot> {
    if |table| >= maxLocks then EvictIdle(table, held) else table
  }

  /** `_get_or_create_lock`: the table afterwards and the lock handed out; `unused` is the lock that is
      created when the key has none. */
  function LookUpLock(table: seq<Slot>, held: set<LockId>, maxLocks: nat, key: Key, unused: LockId): (seq<Slot>, LockId) {
    if HasKey(table, key) then
      var i := IndexOf(table, key);
      (RemoveAt(table, i) + [table[i]], table[i].lock)
    else
      (Room(table, held, maxLocks) + [Slot(key, unused)], unused)
  }

  // ---------- the manager object ----------

  class PathLockManager {
    const maxLocks: nat
    var locks: seq<Slot>
    var held: set<LockId>
    var nextLock: LockId

    constructor (maxLocks: nat)
      requires maxLocks >= 1
      ensures this.maxLocks == maxLocks && locks == [] && held == {} && nextLock == 0
    {
      this.maxLocks := maxLocks;
      locks, held, nextLock := [], {}, 0;
    }

    /** The public entry: anything below one lock is refused (ValueError). */
    static method Create(maxLocks: int) returns (manager: PathLockManager?)
      ensures manager == null <==> maxLocks < 1
      ensures manager != null ==> fresh(manager) && manager.maxLocks == maxLocks && manager.locks == []
    {
      if maxLocks < 1 {
        return null;
      }
      manager := new PathLockManager(maxLocks);
    }

    /** `Lock.acquire(blocking=False)` */
    method TryAcquire(lock: LockId) returns (got: bool)
      modifies this`held
      ensures got <==> lock !in old(held)
      ensures held == old(held) + {lock}
    {
      got := lock !in held;
      held := held + {lock};
    }

    method Release(lock: LockId)
      modifies this`held
      ensures held == old(held) - {lock}
    {
      held := held - {lock};
    }

    method EvictIdleLock()
      modifies this`locks, this`held
      ensures locks == EvictIdle(old(locks), old(held)) && held == old(held)
    {
      var candidates := locks;
      for i := 0 to |candidates|
        invariant locks == candidates && held == old(held)
        invariant FirstIdle(candidates, held) >= i
      {
        var free := TryAcquire(candidates[i].lock);
        if free {
          locks := RemoveAt(locks, i);
          Release(candidates[i].lock);
          assert held == old(held);
          return;
        }
        assert held == old(held);
      }
    }

    method GetOrCreateLock(key: Key) returns (lock: LockId)
      modifies this
      ensures (locks, lock) == LookUpLock(old(locks), old(held), maxLocks, key, old(nextLock))
      ensures nextLock == if HasKey(old(locks), key) then old(nextLock) else old(nextLock) + 1
      ensures held == old(held)
      ensures locks != [] && locks[|locks| - 1] == Slot(key, lock)
      ensures UsedLast(old(locks), old(held), maxLocks, key, old(nextLock), locks)
    {
      LookUpUsesLast(locks, held, maxLocks, key, nextLock);
      if HasKey(locks, key) {
        var i := IndexOf(locks, key);
        lock := locks[i].lock;
        locks := RemoveAt(locks, i) + [locks[i]];
        return;
      }
      if |locks| >= maxLocks {
        EvictIdleLock();
      }
      lock := nextLock;
      nextLock := nextLock + 1;
      locks := locks + [Slot(key, lock)];
    }
  }

  // ---------- runs of threads ----------

  /** A thread is outside `lock(key)`, has been handed the lock but not acquired it, or is inside. */
  datatype Pc = Outside | Handed(key: Key, lock: LockId) | Inside(key: Key, lock: LockId)

  datatype State = State(table: seq<Slot>, next: LockId, threads: seq<Pc>)

  datatype Step = LookUp(t: nat, key: Key) | Acquire(t: nat) | Leave(t: nat)

  function HeldBy(threads: seq<Pc>): set<LockId> {
    set t | 0 <= t < |threads| && threads[t].Inside? :: threads[t].lock
  }

  predicate Enabled(s: State, step: Step) {
    step.t < |s.threads| &&
    match step
    case LookUp(t, _) => s.threads[t].Outside?
    case Acquire(t) => s.threads[t].Handed? && s.threads[t].lock !in HeldBy(s.threads)
    case Leave(t) => s.threads[t].Inside?
  }

  function Do(s: State, step: Step, maxLocks: nat): State
    requires Enabled(s, step)
  {
    match step
    case LookUp(t, key) =>
      var (table, lock) := LookUpLock(s.table, HeldBy(s.threads), maxLocks, key, s.next);
      State(table, if HasKey(s.table, key) then s.next else s.next + 1, s.threads[t := Handed(key, lock)])
    case Acquire(t) => s.(threads := s.threads[t := Inside(s.threads[t].key, s.threads[t].lock)])
    case Leave(t) => s.(threads := s.threads[t := Outside])
  }

  /** The steps can be taken one after the other from `s` and end in `s'`. */
  predicate Runs(s: State, steps: seq<Step>, maxLocks: nat, s': State)
    decreases |steps|
  {
    if steps == [] then s == s'
    else Enabled(s, steps[0]) && Runs(Do(s, steps[0], maxLocks), steps[1..], maxLocks, s')
  }

  predicate Initial(s: State) {
    s.table == [] && forall t | 0 <= t < |s.threads| :: s.threads[t].Outside?
  }

  /** No two threads are inside the same key at once. */
  predicate Exclusive(s: State) {
    forall t, u | 0 <= t < u < |s.threads| && s.threads[t].Inside? && s.threads[u].Inside? ::
      s.threads[t].key != s.threads[u].key
  }

  /** The step evicts no lock that has been handed out and not yet released. */
  predicate Careful(s: State, step: Step, maxLocks: nat)
    requires Enabled(s, step)
  {
    forall t | 0 <= t < |s.threads| && !s.threads[t].Outside? && Slot(s.threads[t].key, s.threads[t].lock) in s.table ::
      Slot(s.threads[t].key, s.threads[t].lock) in Do(s, step, maxLocks).table
  }

  predicate CarefulRun(s: State, steps: seq<Step>, maxLocks: nat)
    decreases |steps|
  {
    if steps == [] then true
    else
      && Enabled(s, steps[0])
      && Careful(s, steps[0], maxLocks)
      && CarefulRun(Do(s, steps[0], maxLocks), steps[1..], maxLocks)
  }

  // ---------- what every step keeps ----------

  predicate WellFormed(s: State) {
    && Distinct(s.table) && Below(s.table, s.next)
    && (forall t | 0 <= t < |s.threads| && !s.threads[t].Outside? :: s.threads[t].lock < s.next)
    && (forall t, u | 0 <= t < u < |s.threads| && s.threads[t].Inside? && s.threads[u].Inside? ::
          s.threads[t].lock != s.threads[u].lock)
  }

  /** Every lock handed out is still in the table under its key. */
  predicate Registered(s: State) {
    forall t | 0 <= t < |s.threads| && !s.threads[t].Outside? :: Slot(s.threads[t].key, s.threads[t].lock) in s.table
  }

  /** The table after a lookup: still without duplicates, it keeps every entry whose lock is held and
      holds the entry asked for. */
  lemma LookUpKeepsTable(table: seq<Slot>, held: set<LockId>, maxLocks: nat, key: Key, unused: LockId)
    requires Distinct(table) && Below(table, unused)
    ensures var (table', lock) := LookUpLock(table, held, maxLocks, key, unused);
      && Distinct(table')
      && Slot(key, lock) in table'
      && (forall slot | slot in table && slot.lock in held :: slot in table')
      && (forall slot | slot in table' :: slot in table || slot == Slot(key, unused))
      && if HasKey(table, key) then Below(table', unused) && lock < unused && forall slot | slot in table :: slot in table'
         else Below(table', unused + 1) && lock == unused
  {
    if HasKey(table, key) {
      var i := IndexOf(table, key);
      RemoveAtKeeps(table, i);
      AppendKeeps(RemoveAt(table, i), table[i]);
    } else {
      RoomKeeps(table, held, maxLocks, key, unused);
      AppendKeeps(Room(table, held, maxLocks), Slot(key, unused));
      var table' := Room(table, held, maxLocks) + [Slot(key, unused)];
      assert table'[|table'| - 1] == Slot(key, unused);
    }
  }

  lemma RoomKeeps(table: seq<Slot>, held: set<LockId>, maxLocks: nat, key: Key, unused: LockId)
    requires Distinct(table) && Below(table, unused) && !HasKey(table, key)
    ensures var room := Room(table, held, maxLocks);
      && Distinct(room) && !HasKey(room, key) && Below(room, unused)
      && (forall slot | slot in table && slot.lock in held :: slot in room)
      && (forall slot | slot in room :: slot in table)
  {
    var i, room := FirstIdle(table, held), Room(table, held, maxLocks);
    if i < |table| { RemoveAtKeeps(table, i); }
    forall slot | slot in room ensures slot.key != key && slot.lock < unused {
      var j :| 0 <= j < |table| && table[j] == slot;
    }
  }

  lemma StepKeepsWellFormed(s: State, step: Step, maxLocks: nat)
    requires WellFormed(s) && Enabled(s, step)
    ensures WellFormed(Do(s, step, maxLocks))
  {
    if step.LookUp? {
      LookUpKeepsTable(s.table, HeldBy(s.threads), maxLocks, step.key, s.next);
    } else if step.Acquire? {
      var l := s.threads[step.t].lock;
      forall u | 0 <= u < |s.threads| && s.threads[u].Inside? ensures s.threads[u].lock != l {
        assert s.threads[u].lock in HeldBy(s.threads);
      }
    }
  }

  /** No step drops an entry whose lock is held. */
  lemma HeldLockNeverDropped(s: State, step: Step, maxLocks: nat, slot: Slot)
    requires WellFormed(s) && Enabled(s, step) && slot in s.table && slot.lock in HeldBy(s.threads)
    ensures slot in Do(s, step, maxLocks).table
  {
    if step.LookUp? { LookUpKeepsTable(s.table, HeldBy(s.threads), maxLocks, step.key, s.next); }
  }

  lemma CarefulStepKeepsRegistered(s: State, step: Step, maxLocks: nat)
    requires WellFormed(s) && Registered(s) && Enabled(s, step) && Careful(s, step, maxLocks)
    ensures Registered(Do(s, step, maxLocks))
  {
    var s' := Do(s, step, maxLocks);
    if step.LookUp? { LookUpKeepsTable(s.table, HeldBy(s.threads), maxLocks, step.key, s.next); }
    forall u | 0 <= u < |s'.threads| && !s'.threads[u].Outside?
      ensures Slot(s'.threads[u].key, s'.threads[u].lock) in s'.table
    {
      if u != step.t { assert s'.threads[u] == s.threads[u]; }
    }
  }

  lemma RegisteredIsExclusive(s: State)
    requires WellFormed(s) && Registered(s)
    ensures Exclusive(s)
  {
    forall t, u | 0 <= t < u < |s.threads| && s.threads[t].Inside? && s.threads[u].Inside?
      ensures s.threads[t].key != s.threads[u].key
    {
      var i :| 0 <= i < |s.table| && s.table[i] == Slot(s.threads[t].key, s.threads[t].lock);
      var j :| 0 <= j < |s.table| && s.table[j] == Slot(s.threads[u].key, s.threads[u].lock);
    }
  }

  // ---------- mutual exclusion ----------

  lemma {:induction false} CarefulRunsKeep(s: State, steps: seq<Step>, maxLocks: nat, s': State)
    requires WellFormed(s) && Registered(s) && CarefulRun(s, steps, maxLocks) && Runs(s, steps, maxLocks, s')
    ensures WellFormed(s') && Registered(s')
    decreases |steps|
  {
    if steps != [] {
      StepKeepsWellFormed(s, steps[0], maxLocks);
      CarefulStepKeepsRegistered(s, steps[0], maxLocks);
      CarefulRunsKeep(Do(s, steps[0], maxLocks), steps[1..], maxLocks, s');
    }
  }

  /** Any number of threads, any keys: as long as no lock is evicted between being handed out and
      being released, no two threads are ever inside the same key. */
  lemma MutualExclusion(s: State, steps: seq<Step>, maxLocks: nat, s': State)
    requires Initial(s) && CarefulRun(s, steps, maxLocks) && Runs(s, steps, maxLocks, s')
    ensures Exclusive(s')
  {
    CarefulRunsKeep(s, steps, maxLocks, s');
    RegisteredIsExclusive(s');
  }

  /** The hypothesis is the weakest one: the first step that evicts a handed-out lock can be continued
      to a state with two threads inside the same key. */
  lemma CarelessEvictionBreaksExclusion(s: State, steps: seq<Step>, maxLocks: nat, m: State, step: Step)
    returns (more: seq<Step>, bad: State)
    requires Initial(s) && CarefulRun(s, steps, maxLocks) && Runs(s, steps, maxLocks, m)
    requires Enabled(m, step) && !Careful(m, step, maxLocks)
    ensures Runs(Do(m, step, maxLocks), more, maxLocks, bad) && !Exclusive(bad)
  {
    CarefulRunsKeep(s, steps, maxLocks, m);
    var keys := set t | 0 <= t < |m.threads| && !m.threads[t].Outside? :: m.threads[t].key;
    more, bad := ContinueBadly(m, step, maxLocks, keys);
  }

  lemma EvictedSlot(m: State, step: Step, maxLocks: nat, slot: Slot)
    requires WellFormed(m) && Enabled(m, step) && step.LookUp?
    requires slot in m.table && slot !in Do(m, step, maxLocks).table
    ensures !HasKey(m.table, step.key) && !HasKey(Do(m, step, maxLocks).table, slot.key)
    ensures slot.lock !in HeldBy(m.threads) && slot.key != step.key
  {
    var held := HeldBy(m.threads);
    LookUpKeepsTable(m.table, held, maxLocks, step.key, m.next);
    var i := FirstIdle(m.table, held);
    if i < |m.table| { RemoveAtKeeps(m.table, i); }
    var room := Room(m.table, held, maxLocks);
    assert Do(m, step, maxLocks).table == room + [Slot(step.key, m.next)];
    assert slot !in room && slot == m.table[i];
    forall j | 0 <= j < |room| ensures room[j].key != slot.key {
      assert room[j] in m.table && room[j] != slot;
    }
  }

  /** Only these keys are looked up. */
  predicate KeysIn(steps: seq<Step>, keys: set<Key>) {
    forall i | 0 <= i < |steps| && steps[i].LookUp? :: steps[i].key in keys
  }

  /** Thread t, looking up another key, evicted the lock that thread u was handed. */
  lemma Evicted(m: State, step: Step, maxLocks: nat) returns (u: nat)
    requires WellFormed(m) && Registered(m) && Enabled(m, step) && !Careful(m, step, maxLocks)
    ensures step.LookUp? && u < |m.threads| && u != step.t && m.threads[u].Handed?
    ensures !HasKey(m.table, step.key) && !HasKey(Do(m, step, maxLocks).table, m.threads[u].key)
    ensures m.threads[u].lock !in HeldBy(m.threads) && m.threads[u].lock < m.next
  {
    u :| 0 <= u < |m.threads| && !m.threads[u].Outside? && Slot(m.threads[u].key, m.threads[u].lock) in m.table
         && Slot(m.threads[u].key, m.threads[u].lock) !in Do(m, step, maxLocks).table;
    assert m.threads[u].Inside? ==> m.threads[u].lock in HeldBy(m.threads);
    EvictedSlot(m, step, maxLocks, Slot(m.threads[u].key, m.threads[u].lock));
  }

  /** It uses its new lock and leaves; then it asks for the evicted key itself. */
  lemma ContinueBadly(m: State, step: Step, maxLocks: nat, keys: set<Key>) returns (more: seq<Step>, bad: State)
    requires WellFormed(m) && Registered(m) && Enabled(m, step) && !Careful(m, step, maxLocks)
    requires forall t | 0 <= t < |m.threads| && !m.threads[t].Outside? :: m.threads[t].key in keys
    ensures Runs(Do(m, step, maxLocks), more, maxLocks, bad) && !Exclusive(bad) && KeysIn(more, keys)
  {
    var t := step.t;
    var u := Evicted(m, step, maxLocks);
    var s1 := Do(m, step, maxLocks);
    StepKeepsWellFormed(m, step, maxLocks);
    var s3 := UseAndLeave(m, step, maxLocks);
    var tail;
    tail, bad := SecondLock(s3, t, u, maxLocks, keys);
    RunsFrom(Do(s1, Acquire(t), maxLocks), Leave(t), tail, maxLocks, bad);
    RunsFrom(s1, Acquire(t), [Leave(t)] + tail, maxLocks, bad);
    more := [Acquire(t)] + ([Leave(t)] + tail);
  }

  /** A thread looks up a new key, enters and leaves: only the table has changed. */
  lemma UseAndLeave(m: State, step: Step, maxLocks: nat) returns (s3: State)
    requires WellFormed(m) && Enabled(m, step) && step.LookUp? && !HasKey(m.table, step.key)
    ensures var s1 := Do(m, step, maxLocks);
      && Enabled(s1, Acquire(step.t)) && Enabled(Do(s1, Acquire(step.t), maxLocks), Leave(step.t))
      && s3 == Do(Do(s1, Acquire(step.t), maxLocks), Leave(step.t), maxLocks)
      && s3.threads == m.threads && s3.table == s1.table && s3.next == m.next + 1 && WellFormed(s3)
  {
    var s1 := Do(m, step, maxLocks);
    NewLockIsFree(m, step, maxLocks);
    var s2 := Do(s1, Acquire(step.t), maxLocks);
    s3 := Do(s2, Leave(step.t), maxLocks);
    StepKeepsWellFormed(m, step, maxLocks);
    StepKeepsWellFormed(s1, Acquire(step.t), maxLocks);
    StepKeepsWellFormed(s2, Leave(step.t), maxLocks);
    assert s3.threads == m.threads by { assert m.threads[step.t] == Outside; }
  }

  lemma RunsFrom(s: State, step: Step, rest: seq<Step>, maxLocks: nat, s': State)
    requires Enabled(s, step) && Runs(Do(s, step, maxLocks), rest, maxLocks, s')
    ensures Runs(s, [step] + rest, maxLocks, s')
  {
    assert ([step] + rest)[1..] == rest;
  }

  /** A thread holding a lock that is no longer registered does not keep another out of its key. */
  lemma SecondLock(s: State, t: nat, u: nat, maxLocks: nat, keys: set<Key>) returns (more: seq<Step>, bad: State)
    requires WellFormed(s) && t < |s.threads| && u < |s.threads| && t != u
    requires s.threads[t].Outside? && s.threads[u].Handed? && s.threads[u].lock !in HeldBy(s.threads)
    requires !HasKey(s.table, s.threads[u].key) && s.threads[u].key in keys
    ensures Runs(s, more, maxLocks, bad) && !Exclusive(bad) && KeysIn(more, keys)
  {
    var k, l := s.threads[u].key, s.threads[u].lock;
    var s4 := Do(s, LookUp(t, k), maxLocks);
    NewLockIsFree(s, LookUp(t, k), maxLocks);
    assert s4.threads[u] == s.threads[u];
    var s5 := Do(s4, Acquire(u), maxLocks);
    assert s.next !in HeldBy(s5.threads) by {
      forall v | 0 <= v < |s5.threads| && s5.threads[v].Inside? ensures s5.threads[v].lock != s.next {
        if v != u { assert s4.threads[v].lock in HeldBy(s4.threads); }
      }
    }
    var s6 := Do(s5, Acquire(t), maxLocks);
    more, bad := [LookUp(t, k), Acquire(u), Acquire(t)], s6;
    assert s6.threads[t] == Inside(k, s.next) && s6.threads[u] == Inside(k, l);
    assert Runs(s6, [], maxLocks, s6);
    assert [Acquire(t)][1..] == [];
    assert Runs(s5, [Acquire(t)], maxLocks, s6);
    assert [Acquire(u), Acquire(t)][1..] == [Acquire(t)];
    assert Runs(s4, [Acquire(u), Acquire(t)], maxLocks, s6);
    assert more[1..] == [Acquire(u), Acquire(t)];
  }

  lemma NewLockIsFree(m: State, step: Step, maxLocks: nat)
    requires WellFormed(m) && Enabled(m, step) && step.LookUp? && !HasKey(m.table, step.key)
    ensures Do(m, step, maxLocks).threads[step.t] == Handed(step.key, m.next)
    ensures m.next !in HeldBy(Do(m, step, maxLocks).threads)
    ensures HeldBy(Do(m, step, maxLocks).threads) == HeldBy(m.threads)
  {
    var s1 := Do(m, step, maxLocks);
    forall v | 0 <= v < |m.threads| ensures s1.threads[v].Inside? <==> m.threads[v].Inside?
      ensures m.threads[v].Inside? ==> s1.threads[v] == m.threads[v] {
    }
  }

  /** Runs over at most `maxLocks` distinct keys never evict, so they are careful. */
  lemma {:induction false} FewKeysAreCareful(s: State, steps: seq<Step>, maxLocks: nat, s': State, keys: set<Key>)
    requires WellFormed(s) && Runs(s, steps, maxLocks, s') && |keys| <= maxLocks
    requires forall i | 0 <= i < |s.table| :: s.table[i].key in keys
    requires KeysIn(steps, keys)
    ensures CarefulRun(s, steps, maxLocks)
    decreases |steps|
  {
    if steps != [] {
      var step := steps[0];
      var next := Do(s, step, maxLocks);
      if step.LookUp? && !HasKey(s.table, step.key) {
        TableFits(s.table, keys - {step.key});
        assert next.table == s.table + [Slot(step.key, s.next)];
      } else if step.LookUp? {
        LookUpKeepsTable(s.table, HeldBy(s.threads), maxLocks, step.key, s.next);
      }
      StepKeepsWellFormed(s, step, maxLocks);
      forall i | 0 <= i < |next.table| ensures next.table[i].key in keys {
        if next.table[i] !in s.table { assert next.table[i].key == step.key; }
      }
      assert forall i | 0 <= i < |steps[1..]| :: steps[1..][i] == steps[i + 1];
      FewKeysAreCareful(next, steps[1..], maxLocks, s', keys);
    }
  }

  lemma {:induction false} TableFits(table: seq<Slot>, keys: set<Key>)
    requires Distinct(table)
    requires forall i | 0 <= i < |table| :: table[i].key in keys
    ensures |table| <= |keys|
  {
    if table != [] {
      assert forall i | 0 <= i < |table[1..]| :: table[1..][i] == table[i + 1];
      TableFits(table[1..], keys - {table[0].key});
    }
  }

  /** With at most `maxLocks` distinct keys in use, mutual exclusion holds unconditionally. */
  lemma MutualExclusionForFewKeys(s: State, steps: seq<Step>, maxLocks: nat, s': State, keys: set<Key>)
    requires Initial(s) && Runs(s, steps, maxLocks, s') && |keys| <= maxLocks
    requires KeysIn(steps, keys)
    ensures Exclusive(s')
  {
    FewKeysAreCareful(s, steps, maxLocks, s', keys);
    MutualExclusion(s, steps, maxLocks, s');
  }

  /** No run of so many threads over these keys ever has two of them inside one key. */
  ghost predicate AllExclusive(threads: nat, keys: set<Key>, maxLocks: nat) {
    forall s, steps, s' | Initial(s) && |s.threads| == threads && KeysIn(steps, keys) && Runs(s, steps, maxLocks, s') ::
      Exclusive(s')
  }

  /** Thread 0 has been handed the oldest lock, nobody else has one, and the table holds the first keys. */
  predicate Filling(s: State, ks: seq<Key>) {
    && WellFormed(s) && |s.threads| >= 2 && 0 < |s.table| <= |ks|
    && (forall i | 0 <= i < |s.table| :: s.table[i].key == ks[i])
    && s.threads[0] == Handed(ks[0], s.table[0].lock)
    && forall t | 1 <= t < |s.threads| :: s.threads[t] == Outside
  }

  predicate AllDistinct(ks: seq<Key>) {
    forall i, j | 0 <= i < j < |ks| :: ks[i] != ks[j]
  }

  /** The first key is the oldest, so it is evicted first. */
  lemma FirstIsEvicted(s: State, ks: seq<Key>, maxLocks: nat)
    requires Filling(s, ks) && AllDistinct(ks) && |s.table| < |ks| && |s.table| == maxLocks
    ensures Enabled(s, LookUp(1, ks[|s.table|])) && Registered(s) && !Careful(s, LookUp(1, ks[|s.table|]), maxLocks)
  {
    var step := LookUp(1, ks[|s.table|]);
    var room := Room(s.table, HeldBy(s.threads), maxLocks);
    assert HeldBy(s.threads) == {} && FirstIdle(s.table, {}) == 0 && room == RemoveAt(s.table, 0);
    assert !HasKey(s.table, step.key);
    RemoveAtKeeps(s.table, 0);
    assert s.table[0] == Slot(s.threads[0].key, s.threads[0].lock);
    assert s.table[0] !in Do(s, step, maxLocks).table by {
      assert Do(s, step, maxLocks).table == room + [Slot(step.key, s.next)];
    }
  }

  lemma FillNext(s: State, ks: seq<Key>, maxLocks: nat) returns (s': State)
    requires Filling(s, ks) && AllDistinct(ks) && |s.table| < |ks| && |s.table| < maxLocks
    ensures var step := LookUp(1, ks[|s.table|]);
      && Enabled(s, step) && Enabled(Do(s, step, maxLocks), Acquire(1))
      && Enabled(Do(Do(s, step, maxLocks), Acquire(1), maxLocks), Leave(1))
      && s' == Do(Do(Do(s, step, maxLocks), Acquire(1), maxLocks), Leave(1), maxLocks)
    ensures Filling(s', ks) && |s'.table| == |s.table| + 1
  {
    var step := LookUp(1, ks[|s.table|]);
    assert !HasKey(s.table, step.key);
    s' := UseAndLeave(s, step, maxLocks);
    assert s'.table == s.table + [Slot(step.key, s.next)];
  }

  lemma {:induction false} FillAndBreak(s: State, ks: seq<Key>, maxLocks: nat, keys: set<Key>) returns (steps: seq<Step>, bad: State)
    requires Filling(s, ks) && AllDistinct(ks) && |ks| > maxLocks >= |s.table| && forall i | 0 <= i < |ks| :: ks[i] in keys
    ensures Runs(s, steps, maxLocks, bad) && !Exclusive(bad) && KeysIn(steps, keys)
    decreases maxLocks - |s.table|
  {
    var step := LookUp(1, ks[|s.table|]);
    if |s.table| == maxLocks {
      FirstIsEvicted(s, ks, maxLocks);
      var more;
      more, bad := ContinueBadly(s, step, maxLocks, keys);
      RunsFrom(s, step, more, maxLocks, bad);
      steps := [step] + more;
    } else {
      var s3 := FillNext(s, ks, maxLocks);
      var more;
      more, bad := FillAndBreak(s3, ks, maxLocks, keys);
      var s1 := Do(s, step, maxLocks);
      RunsFrom(Do(s1, Acquire(1), maxLocks), Leave(1), more, maxLocks, bad);
      RunsFrom(s1, Acquire(1), [Leave(1)] + more, maxLocks, bad);
      RunsFrom(s, step, [Acquire(1)] + ([Leave(1)] + more), maxLocks, bad);
      steps := [step] + ([Acquire(1)] + ([Leave(1)] + more));
    }
  }

  lemma {:induction false} Pick(keys: set<Key>, n: nat) returns (ks: seq<Key>)
    requires n <= |keys|
    ensures |ks| == n && AllDistinct(ks) && forall i | 0 <= i < n :: ks[i] in keys
    decreases n
  {
    ks := [];
    if n > 0 {
      var key :| key in keys;
      var rest := Pick(keys - {key}, n - 1);
      ks := [key] + rest;
    }
  }

  /** One key too many, and two threads can get inside one. */
  lemma ManyKeysBreak(threads: nat, keys: set<Key>, maxLocks: nat)
    requires threads >= 2 && 1 <= maxLocks < |keys|
    ensures !AllExclusive(threads, keys, maxLocks)
  {
    var ks := Pick(keys, maxLocks + 1);
    var s := State([], 0, seq(threads, _ => Outside));
    var first := LookUp(0, ks[0]);
    assert !HasKey(s.table, ks[0]);
    var s1 := Do(s, first, maxLocks);
    assert s1.table == [Slot(ks[0], 0)];
    assert Filling(s1, ks);
    var more, bad := FillAndBreak(s1, ks, maxLocks, keys);
    RunsFrom(s, first, more, maxLocks, bad);
    assert Initial(s) && KeysIn([first] + more, keys);
  }

  lemma {:induction false} SameThreads(s: State, steps: seq<Step>, maxLocks: nat, s': State)
    requires Runs(s, steps, maxLocks, s')
    ensures |s'.threads| == |s.threads|
    decreases |steps|
  {
    if steps != [] { SameThreads(Do(s, steps[0], maxLocks), steps[1..], maxLocks, s'); }
  }

  /** Mutual exclusion holds in all runs over a set of keys if and only if there is one thread at most or
      the table has room for all the keys. */
  lemma ExclusionIff(threads: nat, keys: set<Key>, maxLocks: nat)
    requires maxLocks >= 1
    ensures AllExclusive(threads, keys, maxLocks) <==> threads < 2 || |keys| <= maxLocks
  {
    if threads < 2 || |keys| <= maxLocks {
      forall s, steps, s' | Initial(s) && |s.threads| == threads && KeysIn(steps, keys) && Runs(s, steps, maxLocks, s')
        ensures Exclusive(s')
      {
        SameThreads(s, steps, maxLocks, s');
        if |keys| <= maxLocks { MutualExclusionForFewKeys(s, steps, maxLocks, s', keys); }
      }
    } else {
      ManyKeysBreak(threads, keys, maxLocks);
    }
  }

  // ---------- the size of the table ----------

  lemma {:induction false} HeldCount(threads: seq<Pc>)
    ensures |HeldBy(threads)| <= |threads|
    ensures (exists t | 0 <= t < |threads| :: !threads[t].Inside?) ==> |HeldBy(threads)| < |threads|
  {
    if threads != [] {
      var n := |threads| - 1;
      var rest, last := threads[..n], threads[n];
      HeldCount(rest);
      if last.Inside? {
        assert HeldBy(threads) == HeldBy(rest) + {last.lock};
        if t :| 0 <= t < |threads| && !threads[t].Inside? { assert rest[t] == threads[t]; }
      } else {
        assert HeldBy(threads) == HeldBy(rest);
      }
    }
  }

  lemma {:induction false} AllHeldFits(table: seq<Slot>, held: set<LockId>)
    requires Distinct(table)
    requires forall i | 0 <= i < |table| :: table[i].lock in held
    ensures |table| <= |held|
  {
    if table != [] {
      assert forall i | 0 <= i < |table[1..]| :: table[1..][i] == table[i + 1];
      AllHeldFits(table[1..], held - {table[0].lock});
    }
  }

  function Max(a: nat, b: nat): nat {
    if a < b then b else a
  }

  lemma StepKeepsSize(s: State, step: Step, maxLocks: nat)
    requires WellFormed(s) && Enabled(s, step) && |s.table| <= Max(maxLocks, |s.threads|)
    ensures |Do(s, step, maxLocks).table| <= Max(maxLocks, |s.threads|)
  {
    if step.LookUp? && !HasKey(s.table, step.key) && |s.table| >= maxLocks {
      var held := HeldBy(s.threads);
      if FirstIdle(s.table, held) == |s.table| {
        AllHeldFits(s.table, held);
        assert !s.threads[step.t].Inside?;
        HeldCount(s.threads);
      }
    }
  }

  /** With T threads, each inside at most one key, the table never holds more than the larger of
      `maxLocks` and T locks. */
  lemma {:induction false} TableBounded(s: State, steps: seq<Step>, maxLocks: nat, s': State)
    requires WellFormed(s) && |s.table| <= Max(maxLocks, |s.threads|) && Runs(s, steps, maxLocks, s')
    ensures |s'.table| <= Max(maxLocks, |s.threads|)
    decreases |steps|
  {
    if steps != [] {
      StepKeepsWellFormed(s, steps[0], maxLocks);
      StepKeepsSize(s, steps[0], maxLocks);
      TableBounded(Do(s, steps[0], maxLocks), steps[1..], maxLocks, s');
    }
  }

  // ---------- the order of the table ----------

  /** When the key was last looked up: the position of that step, or -1. */
  function LastLookUp(steps: seq<Step>, key: Key): (i: int)
    ensures -1 <= i < |steps|
    ensures i >= 0 ==> steps[i].LookUp? && steps[i].key == key
    ensures forall j | i < j < |steps| :: !(steps[j].LookUp? && steps[j].key == key)
  {
    if steps == [] then -1
    else
      var n := |steps| - 1;
      if steps[n].LookUp? && steps[n].key == key then n else LastLookUp(steps[..n], key)
  }

  lemma LastLookUpMore(steps: seq<Step>, step: Step, key: Key)
    ensures LastLookUp(steps + [step], key) == if step.LookUp? && step.key == key then |steps| else LastLookUp(steps, key)
  {
    assert (steps + [step])[..|steps|] == steps;
  }

  /** Every entry was looked up, and the entries stand in the order of their last lookups. */
  predicate ByLastUse(table: seq<Slot>, steps: seq<Step>) {
    && (forall i | 0 <= i < |table| :: LastLookUp(steps, table[i].key) >= 0)
    && (forall i, j | 0 <= i < j < |table| :: LastLookUp(steps, table[i].key) < LastLookUp(steps, table[j].key))
  }

  /** `after` is `before` without the entry at `i`, and then the entry `last`. */
  predicate MovedUp(before: seq<Slot>, i: nat, last: Slot, after: seq<Slot>) {
    i < |before| && after == before[..i] + before[i + 1..] + [last]
  }

  /** A lookup leaves the key's entry last and the others in their order; all stay but, where the key had
      no entry and the table is full, the first entry nobody holds. */
  predicate UsedLast(before: seq<Slot>, held: set<LockId>, maxLocks: nat, key: Key, unused: LockId, after: seq<Slot>) {
    if exists i | 0 <= i < |before| :: before[i].key == key then
      exists i | 0 <= i < |before| :: before[i].key == key && MovedUp(before, i, before[i], after)
    else if |before| < maxLocks || forall i | 0 <= i < |before| :: before[i].lock in held then
      after == before + [Slot(key, unused)]
    else
      exists i | 0 <= i < |before| ::
        before[i].lock !in held && (forall j | 0 <= j < i :: before[j].lock in held) && MovedUp(before, i, Slot(key, unused), after)
  }

  lemma LookUpUsesLast(table: seq<Slot>, held: set<LockId>, maxLocks: nat, key: Key, unused: LockId)
    ensures UsedLast(table, held, maxLocks, key, unused, LookUpLock(table, held, maxLocks, key, unused).0)
  {
    var after := LookUpLock(table, held, maxLocks, key, unused).0;
    if HasKey(table, key) {
      var i := IndexOf(table, key);
      assert MovedUp(table, i, table[i], after);
    } else {
      var i := FirstIdle(table, held);
      if |table| >= maxLocks && i < |table| { assert MovedUp(table, i, Slot(key, unused), after); }
    }
  }

  lemma AddedKeepsOrder(before: seq<Slot>, last: Slot, steps: seq<Step>, step: Step)
    requires ByLastUse(before, steps) && step.LookUp? && step.key == last.key
    requires forall j | 0 <= j < |before| :: before[j].key != last.key
    ensures ByLastUse(before + [last], steps + [step])
  {
    var table := before + [last];
    forall key { LastLookUpMore(steps, step, key); }
    forall i, j | 0 <= i < j < |table|
      ensures LastLookUp(steps + [step], table[i].key) < LastLookUp(steps + [step], table[j].key)
    {
      assert table[i] == before[i] && (j < |before| ==> table[j] == before[j]);
    }
  }

  lemma RestKeepsOrder(before: seq<Slot>, i: nat, steps: seq<Step>)
    requires i < |before| && ByLastUse(before, steps)
    ensures ByLastUse(before[..i] + before[i + 1..], steps)
  {
    var rest := before[..i] + before[i + 1..];
    assert forall j | 0 <= j < |rest| :: rest[j] == before[if j < i then j else j + 1];
  }

  lemma MovedUpKeepsOrder(before: seq<Slot>, i: nat, last: Slot, after: seq<Slot>, steps: seq<Step>, step: Step)
    requires MovedUp(before, i, last, after) && ByLastUse(before, steps)
    requires step.LookUp? && step.key == last.key && forall j | 0 <= j < |before| && j != i :: before[j].key != last.key
    ensures ByLastUse(after, steps + [step])
  {
    RestKeepsOrder(before, i, steps);
    AddedKeepsOrder(before[..i] + before[i + 1..], last, steps, step);
  }

  lemma StepKeepsOrder(s: State, steps: seq<Step>, step: Step, maxLocks: nat)
    requires WellFormed(s) && ByLastUse(s.table, steps) && Enabled(s, step)
    ensures ByLastUse(Do(s, step, maxLocks).table, steps + [step])
  {
    var before, after, held := s.table, Do(s, step, maxLocks).table, HeldBy(s.threads);
    if !step.LookUp? {
      forall key { LastLookUpMore(steps, step, key); }
    } else {
      LookUpUsesLast(before, held, maxLocks, step.key, s.next);
      if exists i | 0 <= i < |before| :: before[i].key == step.key {
        var i :| 0 <= i < |before| && before[i].key == step.key && MovedUp(before, i, before[i], after);
        MovedUpKeepsOrder(before, i, before[i], after, steps, step);
      } else if |before| < maxLocks || forall j | 0 <= j < |before| :: before[j].lock in held {
        AddedKeepsOrder(before, Slot(step.key, s.next), steps, step);
      } else {
        var i :| 0 <= i < |before| && MovedUp(before, i, Slot(step.key, s.next), after);
        MovedUpKeepsOrder(before, i, Slot(step.key, s.next), after, steps, step);
      }
    }
  }

  lemma {:induction false} RunsKeepOrder(s: State, before: seq<Step>, steps: seq<Step>, maxLocks: nat, s': State)
    requires WellFormed(s) && ByLastUse(s.table, before) && Runs(s, steps, maxLocks, s')
    ensures WellFormed(s') && ByLastUse(s'.table, before + steps)
    decreases |steps|
  {
    if steps == [] {
      assert before + steps == before;
    } else {
      StepKeepsWellFormed(s, steps[0], maxLocks);
      StepKeepsOrder(s, before, steps[0], maxLocks);
      RunsKeepOrder(Do(s, steps[0], maxLocks), before + [steps[0]], steps[1..], maxLocks, s');
      assert before + [steps[0]] + steps[1..] == before + steps;
    }
  }

  /** Along every run the table stands in the order in which its keys were last looked up. */
  lemma TableByLastUse(s: State, steps: seq<Step>, maxLocks: nat, s': State)
    requires Initial(s) && Runs(s, steps, maxLocks, s')
    ensures ByLastUse(s'.table, steps)
  {
    RunsKeepOrder(s, [], steps, maxLocks, s');
    assert [] + steps == steps;
  }

  /** Whatever the run, a step that drops an entry is the lookup of a new key in a full table, and the entry
      is, of those nobody holds, the one whose last lookup is the longest ago; all others stay. */
  lemma LeastRecentIdleGoes(s: State, steps: seq<Step>, maxLocks: nat, m: State, step: Step, slot: Slot)
    requires Initial(s) && Runs(s, steps, maxLocks, m) && Enabled(m, step)
    requires slot in m.table && slot !in Do(m, step, maxLocks).table
    ensures step.LookUp? && |m.table| >= maxLocks && forall other | other in m.table :: other.key != step.key
    ensures slot.lock !in HeldBy(m.threads)
    ensures forall other | other in m.table && other != slot :: other in Do(m, step, maxLocks).table
    ensures forall other | other in m.table && other != slot && other.lock !in HeldBy(m.threads) ::
              LastLookUp(steps, slot.key) < LastLookUp(steps, other.key)
  {
    RunsKeepOrder(s, [], steps, maxLocks, m);
    assert [] + steps == steps;
    EvictedSlot(m, step, maxLocks, slot);
    var i := EvictedAt(m, step, maxLocks, slot);
    LaterInTable(m.table, steps, HeldBy(m.threads), i);
  }

  lemma LaterInTable(table: seq<Slot>, steps: seq<Step>, held: set<LockId>, i: nat)
    requires ByLastUse(table, steps) && i < |table| && forall j | 0 <= j < i :: table[j].lock in held
    ensures forall other | other in table && other != table[i] && other.lock !in held ::
              LastLookUp(steps, table[i].key) < LastLookUp(steps, other.key)
  {
    forall other | other in table && other != table[i] && other.lock !in held
      ensures LastLookUp(steps, table[i].key) < LastLookUp(steps, other.key)
    {
      var j :| 0 <= j < |table| && table[j] == other;
    }
  }

  /** The evicted entry is the first that nobody holds; all others stay. */
  lemma EvictedAt(m: State, step: Step, maxLocks: nat, slot: Slot) returns (i: nat)
    requires WellFormed(m) && Enabled(m, step) && step.LookUp? && !HasKey(m.table, step.key)
    requires slot in m.table && slot !in Do(m, step, maxLocks).table
    ensures i < |m.table| && m.table[i] == slot && |m.table| >= maxLocks
    ensures forall j | 0 <= j < i :: m.table[j].lock in HeldBy(m.threads)
    ensures forall other | other in m.table && other != slot :: other in Do(m, step, maxLocks).table
  {
    var held, after := HeldBy(m.threads), Do(m, step, maxLocks).table;
    i := FirstIdle(m.table, held);
    assert after == Room(m.table, held, maxLocks) + [Slot(step.key, m.next)];
    assert i < |m.table| && |m.table| >= maxLocks;
    RemoveAtKeeps(m.table, i);
  }
}
