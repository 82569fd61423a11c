/** Node edge lists under concurrent tasks (jvspatial/core/context.py, the path taken by backends
    without atomic list updates). Tasks add or remove an edge id, save a node object with merging, or load
    a node and save it; each advances by one step between two awaits, in any order. */
module EdgeLists {
  type NodeId = string
  type EdgeId = string
  type ObjId = nat

  /** An in-memory node object; the cache hands out references to it. */
  datatype Obj = Obj(node: NodeId, edges: set<EdgeId>)

  datatype Task =
    | AddEdge(node: NodeId, edge: EdgeId)   // atomic_add_edge_id
    | RemoveEdge(node: NodeId, edge: EdgeId) // atomic_remove_edge_id
    | SaveNode(obj: ObjId)                  // save of an object the caller holds
    | LoadAndSave(node: NodeId)             // get, then save

  datatype Holder = Free | HeldBy(task: nat)

  /** What a task does next. */
  datatype Pc =
    | Start
    | ReadCache
    | Fetch
    | Insert(o: ObjId)
    | Export(o: ObjId)
    | Enter(o: ObjId, snap: set<EdgeId>)
    | Wait(o: ObjId, snap: set<EdgeId>)     // a save waits with its snapshot taken
    | WaitToEdit                            // an add or removal waits before it looks at the node
    | ReadDb(o: ObjId, snap: set<EdgeId>)
    | Write(o: ObjId, merged: set<EdgeId>)
    | Mirror(o: ObjId, merged: set<EdgeId>)
    | CacheIn(o: ObjId)
    | Finished(ok: bool)

  /** `locks` is the table of per-node locks, filled on first use and never emptied. */
  datatype State = State(
    db: map<NodeId, set<EdgeId>>,
    cache: map<NodeId, ObjId>,
    objs: seq<Obj>,
    locks: map<NodeId, Holder>,
    tasks: seq<Task>,
    pcs: seq<Pc>)

  function Stored(s: State, n: NodeId): set<EdgeId> {
    if n in s.db then s.db[n] else {}
  }

  // ---------- shape ----------

  predicate HasObj(pc: Pc) {
    pc.Insert? || pc.Export? || pc.Enter? || pc.Wait? || pc.ReadDb? || pc.Write? || pc.Mirror? || pc.CacheIn?
  }

  predicate PcFits(task: Task, pc: Pc) {
    match task
    case AddEdge(_, _) => !pc.Enter? && !pc.Wait?
    case RemoveEdge(_, _) => !pc.Enter? && !pc.Wait? && !pc.ReadDb? && !pc.Mirror?
    case SaveNode(o) =>
      && !pc.ReadCache? && !pc.Fetch? && !pc.Insert? && !pc.WaitToEdit?
      && (HasObj(pc) ==> pc.o == o) && pc != Finished(false)
    case LoadAndSave(_) => !pc.WaitToEdit?
  }

  predicate Shaped(s: State) {
    && |s.pcs| == |s.tasks|
    && CacheShape(s)
    && (forall i {:trigger s.pcs[i]} {:trigger s.tasks[i]} | 0 <= i < |s.tasks| :: OwnShape(s, i))
  }

  predicate OwnShape(s: State, i: nat)
    requires i < |s.tasks| == |s.pcs|
  {
    && PcFits(s.tasks[i], s.pcs[i])
    && (s.tasks[i].SaveNode? ==> s.tasks[i].obj < |s.objs|)
    && (HasObj(s.pcs[i]) ==> s.pcs[i].o < |s.objs| && s.objs[s.pcs[i].o].node == NodeOf(s.tasks[i], s.objs))
  }

  predicate CacheShape(s: State) {
    forall n | n in s.cache :: s.cache[n] < |s.objs| && s.objs[s.cache[n]].node == n
  }

  function NodeOf(task: Task, objs: seq<Obj>): NodeId {
    match task
    case AddEdge(n, _) => n
    case RemoveEdge(n, _) => n
    case SaveNode(o) => if o < |objs| then objs[o].node else ""
    case LoadAndSave(n) => n
  }

  /** Adds and removals look at the node and edit it under one guard. */
  predicate Edits(task: Task) {
    task.AddEdge? || task.RemoveEdge?
  }

  /** Inside the node's guard. */
  predicate Guarded(task: Task, pc: Pc) {
    || pc.ReadDb? || pc.Write? || pc.Mirror?
    || (Edits(task) && (pc.ReadCache? || pc.Fetch? || pc.Insert? || pc.Export? || pc.CacheIn?))
  }

  // ---------- steps ----------

  predicate Enabled(s: State, i: nat)
    requires Shaped(s)
  {
    && i < |s.tasks|
    && !s.pcs[i].Finished?
    && var n := NodeOf(s.tasks[i], s.objs);
       (s.pcs[i].Wait? || s.pcs[i].WaitToEdit? ==> n in s.locks && s.locks[n] == Free)
  }

  function At(s: State, i: nat, pc: Pc): State
    requires i < |s.pcs|
  {
    s.(pcs := s.pcs[i := pc])
  }

  function Release(s: State, n: NodeId): State {
    s.(locks := s.locks[n := Free])
  }

  /** The per-node lock is created under the creation lock; no await comes between. */
  function WithLock(s: State, n: NodeId): State {
    if n in s.locks then s else s.(locks := s.locks[n := Free])
  }

  /** `get` has returned object `o`: an add appends its edge or is done, a removal takes its edge out or is
      done, a save goes on to export. */
  function Loaded(s: State, i: nat, o: ObjId): State
    requires i < |s.tasks| && |s.pcs| == |s.tasks| && o < |s.objs|
  {
    match s.tasks[i]
    case AddEdge(n, e) =>
      if e in s.objs[o].edges then At(Release(s, n), i, Finished(true))
      else At(s.(objs := s.objs[o := Obj(s.objs[o].node, s.objs[o].edges + {e})]), i, Export(o))
    case RemoveEdge(n, e) =>
      if e !in s.objs[o].edges then At(Release(s, n), i, Finished(true))
      else At(s.(objs := s.objs[o := Obj(s.objs[o].node, s.objs[o].edges - {e})]), i, Export(o))
    case _ => At(s, i, Export(o))
  }

  /** A removal writes the list it exported as the authoritative one. */
  function Do(s: State, i: nat): State
    requires Shaped(s) && Enabled(s, i)
  {
    var task := s.tasks[i];
    var n := NodeOf(task, s.objs);
    match s.pcs[i]
    case Start =>
      (match task
       case AddEdge(_, _) => At(WithLock(s, n), i, WaitToEdit)
       case RemoveEdge(_, _) => At(WithLock(s, n), i, WaitToEdit)
       case SaveNode(o) => At(s, i, Export(o))
       case LoadAndSave(_) => At(s, i, ReadCache))
    case WaitToEdit => At(s.(locks := s.locks[n := HeldBy(i)]), i, ReadCache)
    case ReadCache => if n in s.cache then Loaded(s, i, s.cache[n]) else At(s, i, Fetch)
    case Fetch =>
      if n !in s.db then At(if Edits(task) then Release(s, n) else s, i, Finished(false))
      else At(s.(objs := s.objs + [Obj(n, s.db[n])]), i, Insert(|s.objs|))
    case Insert(o) => Loaded(s.(cache := s.cache[n := o]), i, o)
    case Export(o) =>
      At(s, i, if task.AddEdge? then ReadDb(o, s.objs[o].edges)
               else if task.RemoveEdge? then Write(o, s.objs[o].edges)
               else Enter(o, s.objs[o].edges))
    case Enter(o, snap) => At(WithLock(s, n), i, Wait(o, snap))
    case Wait(o, snap) => At(s.(locks := s.locks[n := HeldBy(i)]), i, ReadDb(o, snap))
    case ReadDb(o, snap) => At(s, i, Write(o, snap + Stored(s, n)))
    case Write(o, merged) =>
      At(s.(db := s.db[n := merged]), i, if task.RemoveEdge? then CacheIn(o) else Mirror(o, merged))
    case Mirror(o, merged) =>
      var s' := At(s.(objs := s.objs[o := Obj(s.objs[o].node, merged)]), i, CacheIn(o));
      if task.AddEdge? then s' else Release(s', n)
    case CacheIn(o) =>
      var s' := At(s.(cache := s.cache[n := o]), i, Finished(true));
      if Edits(task) then Release(s', n) else s'
  }

  // ---------- the invariant ----------

  predicate LockOwn(s: State, i: nat)
    requires i < |s.tasks| == |s.pcs|
  {
    var n := NodeOf(s.tasks[i], s.objs);
    && (Guarded(s.tasks[i], s.pcs[i]) ==> n in s.locks && s.locks[n] == HeldBy(i))
    && (s.pcs[i].Wait? || s.pcs[i].WaitToEdit? ==> n in s.locks)
  }

  predicate LockSlot(s: State, n: NodeId)
    requires n in s.locks && |s.tasks| == |s.pcs|
  {
    s.locks[n].HeldBy? ==>
      var i := s.locks[n].task;
      i < |s.tasks| && Guarded(s.tasks[i], s.pcs[i]) && NodeOf(s.tasks[i], s.objs) == n
  }

  /** A task is inside a node's guard exactly when it is recorded as the holder of the node's lock. */
  predicate LocksOk(s: State)
    requires |s.tasks| == |s.pcs|
  {
    && (forall i {:trigger s.pcs[i]} {:trigger s.tasks[i]} | 0 <= i < |s.tasks| :: LockOwn(s, i))
    && (forall n | n in s.locks :: LockSlot(s, n))
  }

  /** The edges an object had before the run; nothing for an object loaded during it. */
  function Before(s0: State, o: ObjId): set<EdgeId> {
    if o < |s0.objs| then s0.objs[o].edges else {}
  }

  /** The edge appended to object `o` by the add that holds its node's guard and has not stored it. */
  function Pending(s: State, o: ObjId): set<EdgeId>
    requires o < |s.objs| && |s.pcs| == |s.tasks|
  {
    var n := s.objs[o].node;
    if n in s.locks && s.locks[n].HeldBy? && s.locks[n].task < |s.tasks| then
      var i := s.locks[n].task;
      if s.tasks[i].AddEdge? && (s.pcs[i].Export? || s.pcs[i].ReadDb? || s.pcs[i].Write?) && s.pcs[i].o == o
      then {s.tasks[i].edge} else {}
    else {}
  }

  predicate ObjOk(s0: State, s: State, o: ObjId)
    requires o < |s.objs| && |s.pcs| == |s.tasks|
  {
    && Before(s0, o) <= s.objs[o].edges
    && s.objs[o].edges <= Stored(s, s.objs[o].node) + Before(s0, o) + Pending(s, o)
    && (o < |s0.objs| ==> s.objs[o].node == s0.objs[o].node)
  }

  predicate ObjsOk(s0: State, s: State)
    requires |s.pcs| == |s.tasks|
  {
    && |s0.objs| <= |s.objs|
    && (forall o {:trigger s.objs[o]} | 0 <= o < |s.objs| :: ObjOk(s0, s, o))
    && (forall n | n in s.cache :: Before(s0, s.cache[n]) <= Stored(s, n))
  }

  /** What holds of a task's own variables at its program point. */
  predicate PcOk(s0: State, s: State, i: nat)
    requires i < |s.tasks| == |s.pcs|
  {
    var task, pc := s.tasks[i], s.pcs[i];
    var stored := Stored(s, NodeOf(task, s.objs));
    && (!task.SaveNode? && HasObj(pc) ==> Before(s0, pc.o) <= stored)
    && match pc
       case Export(o) => task.AddEdge? ==> o < |s.objs| && task.edge in s.objs[o].edges
       case Enter(o, snap) => Before(s0, o) <= snap
       case Wait(o, snap) => Before(s0, o) <= snap
       case ReadDb(o, snap) => Before(s0, o) <= snap && (task.AddEdge? ==> task.edge in snap)
       case Write(o, merged) => Before(s0, o) + stored <= merged && (task.AddEdge? ==> task.edge in merged)
       case Mirror(o, merged) => Before(s0, o) <= merged == stored && (task.AddEdge? ==> task.edge in merged)
       case CacheIn(o) => Before(s0, o) <= stored && (task.AddEdge? ==> task.edge in stored)
       case Finished(ok) =>
         && (task.AddEdge? && ok ==> task.edge in stored)
         && (task.SaveNode? ==> Before(s0, task.obj) <= stored)
       case _ => true
  }

  predicate PcsOk(s0: State, s: State)
    requires |s.tasks| == |s.pcs|
  {
    forall i {:trigger s.pcs[i]} {:trigger s.tasks[i]} | 0 <= i < |s.tasks| :: PcOk(s0, s, i)
  }

  /** An edge id may be stored on a node: it was there before the run, a task that did not fail adds it,
      or a task saves an object that carried it. */
  predicate Justified(s0: State, s: State, n: NodeId, e: EdgeId)
    requires |s.pcs| == |s.tasks|
  {
    || e in Stored(s0, n)
    || (exists i | 0 <= i < |s.tasks| :: s.tasks[i] == AddEdge(n, e) && s.pcs[i] != Finished(false) && !Loading(s.pcs[i]))
    || (exists i | 0 <= i < |s.tasks| :: SavesEdge(s0, s.tasks[i], n, e))
  }

  /** A task that has not yet found its node's object. */
  predicate Loading(pc: Pc) {
    pc.Start? || pc.WaitToEdit? || pc.ReadCache? || pc.Fetch? || pc.Insert?
  }

  predicate SavesEdge(s0: State, task: Task, n: NodeId, e: EdgeId) {
    task.SaveNode? && task.obj < |s0.objs| && s0.objs[task.obj].node == n && e in s0.objs[task.obj].edges
  }

  predicate AllJustified(s0: State, s: State, n: NodeId, es: set<EdgeId>)
    requires |s.pcs| == |s.tasks|
  {
    forall e | e in es :: Justified(s0, s, n, e)
  }

  predicate PcJustified(s0: State, s: State, i: nat)
    requires i < |s.tasks| == |s.pcs|
  {
    var n := NodeOf(s.tasks[i], s.objs);
    match s.pcs[i]
    case Enter(o, snap) => AllJustified(s0, s, n, snap)
    case Wait(o, snap) => AllJustified(s0, s, n, snap)
    case ReadDb(o, snap) => AllJustified(s0, s, n, snap)
    case Write(o, merged) => AllJustified(s0, s, n, merged)
    case Mirror(o, merged) => AllJustified(s0, s, n, merged)
    case _ => true
  }

  /** Nothing is invented: stored edges, those objects gained, and every snapshot are justified. */
  ghost predicate OriginOk(s0: State, s: State)
    requires |s.tasks| == |s.pcs|
  {
    && (forall n :: AllJustified(s0, s, n, Stored(s, n)))
    && (forall o {:trigger s.objs[o]} | 0 <= o < |s.objs| ::
          AllJustified(s0, s, s.objs[o].node, s.objs[o].edges - Before(s0, o)))
    && (forall i {:trigger s.pcs[i]} {:trigger s.tasks[i]} | 0 <= i < |s.tasks| :: PcJustified(s0, s, i))
  }

  ghost predicate Inv(s0: State, s: State) {
    && Shaped(s)
    && LocksOk(s)
    && ObjsOk(s0, s)
    && PcsOk(s0, s)
    && OriginOk(s0, s)
    && s.tasks == s0.tasks
    && (forall i | 0 <= i < |s.tasks| && s.tasks[i].SaveNode? :: s.tasks[i].obj < |s0.objs|)
    && NoRemovals(s)
  }

  predicate NoRemovals(s: State) {
    forall i | 0 <= i < |s.tasks| :: !s.tasks[i].RemoveEdge?
  }

  /** Where runs of adds and saves begin. */
  predicate Initial(s: State) {
    Idle(s) && NoRemovals(s)
  }

  /** No task has started, no lock is held, and every cached copy holds only edges that are stored. Objects
      the callers hold may carry others. */
  predicate Idle(s: State) {
    && Shaped(s)
    && (forall i | 0 <= i < |s.pcs| :: s.pcs[i] == Start)
    && (forall n | n in s.locks :: s.locks[n] == Free)
    && (forall n | n in s.cache :: s.objs[s.cache[n]].edges <= Stored(s, n))
  }

  /** That is all it takes: every task fits its first step. */
  lemma IdleIff(s: State)
    ensures Idle(s) <==>
      && |s.pcs| == |s.tasks| && (forall i | 0 <= i < |s.pcs| :: s.pcs[i] == Start)
      && (forall i | 0 <= i < |s.tasks| && s.tasks[i].SaveNode? :: s.tasks[i].obj < |s.objs|)
      && (forall n | n in s.locks :: s.locks[n] == Free)
      && (forall n | n in s.cache :: s.cache[n] < |s.objs| && s.objs[s.cache[n]].node == n && s.objs[s.cache[n]].edges <= Stored(s, n))
  {
    if Idle(s) {
      forall i | 0 <= i < |s.tasks| && s.tasks[i].SaveNode? ensures s.tasks[i].obj < |s.objs| {
        assert OwnShape(s, i);
      }
    } else if |s.pcs| == |s.tasks| && (forall i | 0 <= i < |s.tasks| && s.tasks[i].SaveNode? :: s.tasks[i].obj < |s.objs|)
              && forall i | 0 <= i < |s.pcs| :: s.pcs[i] == Start {
      forall i | 0 <= i < |s.tasks| ensures OwnShape(s, i) {
        assert s.pcs[i] == Start;
      }
    }
  }

  lemma InitialInv(s: State)
    requires Initial(s)
    ensures Inv(s, s)
  {
    forall i | 0 <= i < |s.tasks| ensures LockOwn(s, i) && PcOk(s, s, i) && PcJustified(s, s, i) {
      assert s.pcs[i] == Start;
    }
    forall o | 0 <= o < |s.objs|
      ensures ObjOk(s, s, o) && AllJustified(s, s, s.objs[o].node, s.objs[o].edges - Before(s, o)) {
    }
    forall i | 0 <= i < |s.tasks| && s.tasks[i].SaveNode? ensures s.tasks[i].obj < |s.objs| {
      assert OwnShape(s, i);
    }
  }

  // ---------- every step keeps it ----------

  /** What a step of task `i` leaves as it was: the other tasks, and the node of every object. */
  predicate Frame(s: State, s': State, i: nat) {
    && i < |s.tasks| == |s.pcs| == |s'.pcs| && s'.tasks == s.tasks
    && (forall j | 0 <= j < |s.pcs| && j != i :: s'.pcs[j] == s.pcs[j])
    && |s.objs| <= |s'.objs|
    && (forall o | 0 <= o < |s.objs| :: s'.objs[o].node == s.objs[o].node)
  }

  lemma LoadedFrame(s: State, s1: State, i: nat, o: ObjId)
    requires i < |s.tasks| == |s.pcs| && o < |s.objs| && s1.tasks == s.tasks && s1.pcs == s.pcs && s1.objs == s.objs
    ensures Frame(s, Loaded(s1, i, o), i)
  {
  }

  lemma LoadingFrame(s: State, i: nat)
    requires Shaped(s) && Enabled(s, i) && Loading(s.pcs[i])
    ensures Frame(s, Do(s, i), i)
  {
    var n := NodeOf(s.tasks[i], s.objs);
    assert OwnShape(s, i);
    match s.pcs[i] {
      case ReadCache => if n in s.cache { LoadedFrame(s, s, i, s.cache[n]); }
      case Insert(o) => LoadedFrame(s, s.(cache := s.cache[n := o]), i, o);
      case _ =>
    }
  }

  lemma SavingFrame(s: State, i: nat)
    requires Shaped(s) && Enabled(s, i) && !Loading(s.pcs[i])
    ensures Frame(s, Do(s, i), i)
  {
  }

  lemma StepFrame(s: State, i: nat)
    requires Shaped(s) && Enabled(s, i)
    ensures Frame(s, Do(s, i), i)
  {
    if Loading(s.pcs[i]) { LoadingFrame(s, i); } else { SavingFrame(s, i); }
  }

  lemma LoadedOwnShape(s: State, i: nat, o: ObjId)
    requires i < |s.tasks| == |s.pcs| && o < |s.objs| && !s.tasks[i].SaveNode?
    requires s.objs[o].node == NodeOf(s.tasks[i], s.objs)
    ensures OwnShape(Loaded(s, i, o), i)
  {
  }

  lemma LoadingOwnShape(s: State, i: nat)
    requires Shaped(s) && Enabled(s, i) && Loading(s.pcs[i])
    ensures OwnShape(Do(s, i), i)
  {
    var n := NodeOf(s.tasks[i], s.objs);
    assert OwnShape(s, i);
    match s.pcs[i] {
      case ReadCache => if n in s.cache { LoadedOwnShape(s, i, s.cache[n]); }
      case Insert(o) => LoadedOwnShape(s.(cache := s.cache[n := o]), i, o);
      case _ =>
    }
  }

  lemma SavingPcFits(s: State, i: nat)
    requires Shaped(s) && Enabled(s, i) && !Loading(s.pcs[i])
    ensures |Do(s, i).pcs| == |s.pcs| && Do(s, i).tasks == s.tasks && PcFits(s.tasks[i], Do(s, i).pcs[i])
  {
    assert OwnShape(s, i);
  }

  lemma SavingOwnShape(s: State, i: nat)
    requires Shaped(s) && Enabled(s, i) && !Loading(s.pcs[i])
    ensures OwnShape(Do(s, i), i)
  {
    assert OwnShape(s, i);
    SavingPcFits(s, i);
  }

  lemma LoadingCacheShape(s: State, i: nat)
    requires Shaped(s) && Enabled(s, i) && Loading(s.pcs[i])
    ensures CacheShape(Do(s, i))
  {
    assert CacheShape(s) && OwnShape(s, i);
    StepFrame(s, i);
  }

  lemma SavingCacheShape(s: State, i: nat)
    requires Shaped(s) && Enabled(s, i) && !Loading(s.pcs[i])
    ensures CacheShape(Do(s, i))
  {
    assert CacheShape(s) && OwnShape(s, i);
    StepFrame(s, i);
  }

  lemma FrameShaped(s: State, s': State, i: nat)
    requires Shaped(s) && Frame(s, s', i) && OwnShape(s', i) && CacheShape(s')
    ensures Shaped(s')
    ensures forall j | 0 <= j < |s.tasks| :: NodeOf(s'.tasks[j], s'.objs) == NodeOf(s.tasks[j], s.objs)
  {
    forall j | 0 <= j < |s.tasks|
      ensures OwnShape(s', j) && NodeOf(s'.tasks[j], s'.objs) == NodeOf(s.tasks[j], s.objs)
    {
      assert OwnShape(s, j);
    }
  }

  lemma StepShaped(s: State, i: nat)
    requires Shaped(s) && Enabled(s, i)
    ensures Shaped(Do(s, i)) && Frame(s, Do(s, i), i)
    ensures forall j | 0 <= j < |s.tasks| :: NodeOf(s.tasks[j], Do(s, i).objs) == NodeOf(s.tasks[j], s.objs)
  {
    StepFrame(s, i);
    if Loading(s.pcs[i]) {
      LoadingOwnShape(s, i);
      LoadingCacheShape(s, i);
    } else {
      SavingOwnShape(s, i);
      SavingCacheShape(s, i);
    }
    FrameShaped(s, Do(s, i), i);
  }

  /** What a step does to the locks: nothing, a release by their holder, or the taking of a free one;
      and its task is inside the guard exactly from the one to the other. */
  predicate LockEffect(s: State, s': State, i: nat)
    requires i < |s.tasks| == |s.pcs| == |s'.pcs|
  {
    var task, n := s.tasks[i], NodeOf(s.tasks[i], s.objs);
    && (s'.pcs[i].Wait? || s'.pcs[i].WaitToEdit? ==> n in s'.locks)
    && (|| (s'.locks == s.locks && Guarded(task, s.pcs[i]) == Guarded(task, s'.pcs[i]))
        || (s'.locks == s.locks[n := Free] && (n in s.locks ==> s.locks[n] == HeldBy(i)) && !Guarded(task, s'.pcs[i]))
        || (s'.locks == s.locks[n := HeldBy(i)] && n in s.locks && s.locks[n] == Free && Guarded(task, s'.pcs[i])))
  }

  lemma LoadedLockEffect(s: State, i: nat, o: ObjId)
    requires i < |s.tasks| == |s.pcs| && o < |s.objs| && !s.tasks[i].SaveNode? && LockOwn(s, i)
    requires s.pcs[i].ReadCache? || s.pcs[i].Insert?
    ensures LockEffect(s, Loaded(s, i, o), i)
  {
  }

  lemma LoadingLockEffect(s: State, i: nat)
    requires Shaped(s) && LocksOk(s) && Enabled(s, i) && Loading(s.pcs[i])
    ensures |Do(s, i).pcs| == |s.pcs| && LockEffect(s, Do(s, i), i)
  {
    var n := NodeOf(s.tasks[i], s.objs);
    assert LockOwn(s, i) && OwnShape(s, i);
    assert n in s.locks ==> LockSlot(s, n);
    match s.pcs[i] {
      case ReadCache => if n in s.cache { LoadedLockEffect(s, i, s.cache[n]); }
      case Insert(o) => LoadedLockEffect(s.(cache := s.cache[n := o]), i, o);
      case _ =>
    }
  }

  lemma SavingLockEffect(s: State, i: nat)
    requires Shaped(s) && LocksOk(s) && Enabled(s, i) && !Loading(s.pcs[i])
    ensures |Do(s, i).pcs| == |s.pcs| && LockEffect(s, Do(s, i), i)
  {
    assert LockOwn(s, i) && OwnShape(s, i);
  }

  lemma StepLockEffect(s: State, i: nat)
    requires Shaped(s) && LocksOk(s) && Enabled(s, i)
    ensures |Do(s, i).pcs| == |s.pcs| && LockEffect(s, Do(s, i), i)
  {
    if Loading(s.pcs[i]) { LoadingLockEffect(s, i); } else { SavingLockEffect(s, i); }
  }

  lemma StepLocks(s: State, i: nat)
    requires Shaped(s) && LocksOk(s) && Enabled(s, i)
    ensures Shaped(Do(s, i)) && LocksOk(Do(s, i))
  {
    StepShaped(s, i);
    StepLockEffect(s, i);
    LocksFollow(s, Do(s, i), i);
  }

  lemma LocksFollow(s: State, s': State, i: nat)
    requires Shaped(s) && Shaped(s') && LocksOk(s) && Frame(s, s', i) && LockEffect(s, s', i)
    ensures LocksOk(s')
  {
    forall j | 0 <= j < |s.tasks| ensures LockOwn(s', j) {
      assert LockOwn(s, j) && OwnShape(s, j);
    }
    forall m | m in s'.locks ensures LockSlot(s', m) {
      assert m in s.locks ==> LockSlot(s, m);
      assert OwnShape(s, i) && LockOwn(s, i);
    }
  }

  /** What a step does to the database, the cache and the objects. */
  predicate DataEffect(s: State, s': State, i: nat)
    requires i < |s.tasks| == |s.pcs| == |s'.pcs|
  {
    var task, n, pc, pc' := s.tasks[i], NodeOf(s.tasks[i], s.objs), s.pcs[i], s'.pcs[i];
    && s'.db == (if pc.Write? then s.db[n := pc.merged] else s.db)
    && s'.cache == (if pc.Insert? || pc.CacheIn? then s.cache[n := pc.o] else s.cache)
    && (|| s'.objs == s.objs
        || (pc.Fetch? && n in s.db && s'.objs == s.objs + [Obj(n, s.db[n])])
        || (pc.Mirror? && pc.o < |s.objs| && s'.objs == s.objs[pc.o := Obj(s.objs[pc.o].node, pc.merged)])
        || (&& task.AddEdge? && pc'.Export? && pc'.o < |s.objs| && s.objs[pc'.o].node == n && Guarded(task, pc)
            && s'.objs == s.objs[pc'.o := Obj(s.objs[pc'.o].node, s.objs[pc'.o].edges + {task.edge})])
        || (&& task.RemoveEdge? && pc'.Export? && pc'.o < |s.objs| && s.objs[pc'.o].node == n && Guarded(task, pc)
            && s'.objs == s.objs[pc'.o := Obj(s.objs[pc'.o].node, s.objs[pc'.o].edges - {task.edge})]))
    && (pc.Mirror? ==> pc.o < |s.objs| && s'.objs == s.objs[pc.o := Obj(s.objs[pc.o].node, pc.merged)])
  }

  lemma LoadedDataEffect(s: State, s1: State, i: nat, o: ObjId)
    requires i < |s.tasks| == |s.pcs| && o < |s.objs| && !s.tasks[i].SaveNode?
    requires s.pcs[i].ReadCache? || s.pcs[i] == Insert(o)
    requires s.objs[o].node == NodeOf(s.tasks[i], s.objs)
    requires s1 == if s.pcs[i].Insert? then s.(cache := s.cache[NodeOf(s.tasks[i], s.objs) := o]) else s
    ensures DataEffect(s, Loaded(s1, i, o), i)
  {
  }

  lemma StepDataEffect(s: State, i: nat)
    requires Shaped(s) && Enabled(s, i)
    ensures |Do(s, i).pcs| == |s.pcs| && DataEffect(s, Do(s, i), i)
  {
    var n := NodeOf(s.tasks[i], s.objs);
    assert OwnShape(s, i);
    match s.pcs[i] {
      case ReadCache => if n in s.cache { LoadedDataEffect(s, s, i, s.cache[n]); }
      case Insert(o) => LoadedDataEffect(s, s.(cache := s.cache[n := o]), i, o);
      case _ =>
    }
  }

  /** Where object `o` takes a task that has just loaded it. */
  predicate LoadedPc(s: State, s': State, i: nat, o: ObjId)
    requires i < |s.tasks| == |s.pcs| == |s'.pcs|
  {
    && o < |s.objs| && |s.objs| <= |s'.objs|
    && match s.tasks[i]
       case AddEdge(_, e) =>
         if e in s.objs[o].edges then s'.pcs[i] == Finished(true)
         else s'.pcs[i] == Export(o) && s'.objs[o].edges == s.objs[o].edges + {e}
       case RemoveEdge(_, e) =>
         if e !in s.objs[o].edges then s'.pcs[i] == Finished(true)
         else s'.pcs[i] == Export(o) && s'.objs[o].edges == s.objs[o].edges - {e}
       case _ => s'.pcs[i] == Export(o)
  }

  /** Where a step takes its own task. */
  predicate PcEffect(s: State, s': State, i: nat)
    requires i < |s.tasks| == |s.pcs| == |s'.pcs|
  {
    var task, n, pc' := s.tasks[i], NodeOf(s.tasks[i], s.objs), s'.pcs[i];
    match s.pcs[i]
    case Start => pc' == (if Edits(task) then WaitToEdit else if task.SaveNode? then Export(task.obj) else ReadCache)
    case WaitToEdit => pc' == ReadCache
    case ReadCache => if n in s.cache then LoadedPc(s, s', i, s.cache[n]) else pc' == Fetch
    case Fetch =>
      if n in s.db then pc' == Insert(|s.objs|) && s'.objs == s.objs + [Obj(n, s.db[n])] else pc' == Finished(false)
    case Insert(o) => LoadedPc(s, s', i, o)
    case Export(o) =>
      o < |s.objs| && pc' == if task.AddEdge? then ReadDb(o, s.objs[o].edges)
                             else if task.RemoveEdge? then Write(o, s.objs[o].edges)
                             else Enter(o, s.objs[o].edges)
    case Enter(o, snap) => pc' == Wait(o, snap)
    case Wait(o, snap) => pc' == ReadDb(o, snap)
    case ReadDb(o, snap) => pc' == Write(o, snap + Stored(s, n))
    case Write(o, merged) => pc' == if task.RemoveEdge? then CacheIn(o) else Mirror(o, merged)
    case Mirror(o, merged) => pc' == CacheIn(o)
    case CacheIn(o) => pc' == Finished(true)
    case Finished(_) => false
  }

  lemma StepPcEffect(s: State, i: nat)
    requires Shaped(s) && Enabled(s, i)
    ensures |Do(s, i).pcs| == |s.pcs| && PcEffect(s, Do(s, i), i)
  {
    assert OwnShape(s, i);
  }

  /** A step as the following lemmas use it. */
  ghost predicate Stepped(s0: State, s: State, s': State, i: nat) {
    && Inv(s0, s) && Shaped(s') && LocksOk(s')
    && Frame(s, s', i) && LockEffect(s, s', i) && DataEffect(s, s', i) && PcEffect(s, s', i)
  }

  /** The stored edges of a node only grow, and only the holder of its guard changes them. */
  lemma StoredGrows(s0: State, s: State, s': State, i: nat, n: NodeId)
    requires Stepped(s0, s, s', i)
    ensures Stored(s, n) <= Stored(s', n)
    ensures Stored(s, n) != Stored(s', n) ==>
              n in s.locks && s.locks[n] == HeldBy(i) && s.pcs[i].Write? && NodeOf(s.tasks[i], s.objs) == n
  {
    assert PcOk(s0, s, i) && LockOwn(s, i);
  }

  /** No object ever loses an edge: what a save mirrors back covers what others appended meanwhile. */
  lemma ObjGrows(s0: State, s: State, s': State, i: nat, o: ObjId)
    requires Stepped(s0, s, s', i) && o < |s.objs|
    ensures o < |s'.objs| && s.objs[o].edges <= s'.objs[o].edges
  {
    if s.pcs[i].Mirror? && s.pcs[i].o == o {
      assert PcOk(s0, s, i) && LockOwn(s, i) && OwnShape(s, i) && ObjOk(s0, s, o);
      assert Pending(s, o) == {};
    }
  }

  /** An edge appended to an object stays pending until it is stored. */
  lemma PendingKept(s0: State, s: State, s': State, i: nat, o: ObjId)
    requires Stepped(s0, s, s', i) && o < |s.objs|
    ensures Pending(s, o) <= Pending(s', o) + Stored(s', s.objs[o].node)
  {
    var n := s.objs[o].node;
    assert n in s.locks ==> LockSlot(s, n);
    assert LockOwn(s, i) && PcOk(s0, s, i);
  }

  lemma ObjsFollow(s0: State, s: State, s': State, i: nat)
    requires Stepped(s0, s, s', i)
    ensures ObjsOk(s0, s')
  {
    forall o | 0 <= o < |s'.objs| ensures ObjOk(s0, s', o) {
      if o < |s.objs| {
        assert ObjOk(s0, s, o) && LockOwn(s', i) && LockOwn(s, i) && PcOk(s0, s, i);
        ObjGrows(s0, s, s', i, o);
        PendingKept(s0, s, s', i, o);
        StoredGrows(s0, s, s', i, s.objs[o].node);
      }
    }
    CacheFollows(s0, s, s', i);
  }

  lemma CacheFollows(s0: State, s: State, s': State, i: nat)
    requires Stepped(s0, s, s', i)
    ensures forall n | n in s'.cache :: Before(s0, s'.cache[n]) <= Stored(s', n)
  {
    assert PcOk(s0, s, i) && OwnShape(s, i);
    forall n | n in s'.cache ensures Before(s0, s'.cache[n]) <= Stored(s', n) {
      StoredGrows(s0, s, s', i, n);
    }
  }

  /** The one that moved, having found its object. */
  lemma LoadedPcFollows(s0: State, s: State, s': State, i: nat, o: ObjId)
    requires Stepped(s0, s, s', i) && o < |s.objs| && s.objs[o].node == NodeOf(s.tasks[i], s.objs)
    requires s.pcs[i] == Insert(o) || (s.pcs[i].ReadCache? && NodeOf(s.tasks[i], s.objs) in s.cache && s.cache[NodeOf(s.tasks[i], s.objs)] == o)
    ensures PcOk(s0, s', i)
  {
    assert PcOk(s0, s, i) && OwnShape(s, i) && OwnShape(s', i) && LockOwn(s, i);
    assert ObjOk(s0, s, o);
    StoredGrows(s0, s, s', i, NodeOf(s.tasks[i], s.objs));
  }

  /** The one that moved, while it looks for its object. */
  lemma LoadingPcFollows(s0: State, s: State, s': State, i: nat)
    requires Stepped(s0, s, s', i) && Loading(s.pcs[i])
    ensures PcOk(s0, s', i)
  {
    var task, pc, n := s.tasks[i], s.pcs[i], NodeOf(s.tasks[i], s.objs);
    assert PcOk(s0, s, i) && OwnShape(s, i) && OwnShape(s', i);
    if pc.ReadCache? && n in s.cache {
      LoadedPcFollows(s0, s, s', i, s.cache[n]);
    } else if pc.Insert? {
      LoadedPcFollows(s0, s, s', i, pc.o);
    } else if pc.Start? && task.SaveNode? {
      assert ObjOk(s0, s, task.obj);
    }
  }

  /** The one that moved, from its export on. */
  lemma SavingPcFollows(s0: State, s: State, s': State, i: nat)
    requires Stepped(s0, s, s', i) && !Loading(s.pcs[i])
    ensures PcOk(s0, s', i)
  {
    assert PcOk(s0, s, i) && OwnShape(s, i) && OwnShape(s', i) && LockOwn(s, i);
    StoredGrows(s0, s, s', i, NodeOf(s.tasks[i], s.objs));
    if HasObj(s.pcs[i]) { assert ObjOk(s0, s, s.pcs[i].o); }
  }

  lemma PcsFollow(s0: State, s: State, s': State, i: nat)
    requires Stepped(s0, s, s', i)
    ensures PcsOk(s0, s')
  {
    forall j | 0 <= j < |s.tasks| ensures PcOk(s0, s', j) {
      if j == i {
        if Loading(s.pcs[i]) { LoadingPcFollows(s0, s, s', i); } else { SavingPcFollows(s0, s, s', i); }
      } else {
        assert PcOk(s0, s, j) && OwnShape(s, j) && LockOwn(s, j);
        StoredGrows(s0, s, s', i, NodeOf(s.tasks[j], s.objs));
        if HasObj(s.pcs[j]) { ObjGrows(s0, s, s', i, s.pcs[j].o); }
      }
    }
  }

  /** An add that has found its node's object does not fail any more. */
  lemma AddGoesOn(s0: State, s: State, s': State, i: nat, j: nat)
    requires Stepped(s0, s, s', i) && j < |s.tasks| && s.tasks[j].AddEdge? && s.pcs[j] != Finished(false) && !Loading(s.pcs[j])
    ensures s'.pcs[j] != Finished(false) && !Loading(s'.pcs[j])
  {
  }

  lemma JustifiedKept(s0: State, s: State, s': State, i: nat, n: NodeId, e: EdgeId)
    requires Stepped(s0, s, s', i) && Justified(s0, s, n, e)
    ensures Justified(s0, s', n, e)
  {
    if j :| 0 <= j < |s.tasks| && s.tasks[j] == AddEdge(n, e) && s.pcs[j] != Finished(false) && !Loading(s.pcs[j]) {
      AddGoesOn(s0, s, s', i, j);
      assert s'.tasks[j] == AddEdge(n, e);
    } else if j :| 0 <= j < |s.tasks| && SavesEdge(s0, s.tasks[j], n, e) {
      assert SavesEdge(s0, s'.tasks[j], n, e);
    }
  }

  lemma AllJustifiedKept(s0: State, s: State, s': State, i: nat, n: NodeId, es: set<EdgeId>)
    requires Stepped(s0, s, s', i) && AllJustified(s0, s, n, es)
    ensures AllJustified(s0, s', n, es)
  {
    forall e | e in es ensures Justified(s0, s', n, e) {
      JustifiedKept(s0, s, s', i, n, e);
    }
  }

  /** The edges of an object a task is about to export are justified on its node. */
  lemma ExportJustified(s0: State, s: State, i: nat, o: ObjId)
    requires Inv(s0, s) && i < |s.tasks| && o < |s.objs| && s.objs[o].node == NodeOf(s.tasks[i], s.objs)
    requires Before(s0, o) <= Stored(s, s.objs[o].node) || s.tasks[i] == SaveNode(o)
    ensures AllJustified(s0, s, s.objs[o].node, s.objs[o].edges)
  {
    var n := s.objs[o].node;
    assert ObjOk(s0, s, o);
    forall e | e in s.objs[o].edges ensures Justified(s0, s, n, e) {
      if e in Before(s0, o) {
        if e in Stored(s, n) { assert AllJustified(s0, s, n, Stored(s, n)); } else { assert SavesEdge(s0, s.tasks[i], n, e); }
      } else {
        assert e in s.objs[o].edges - Before(s0, o);
      }
    }
  }

  lemma StoredJustified(s0: State, s: State, s': State, i: nat, n: NodeId)
    requires Stepped(s0, s, s', i)
    ensures AllJustified(s0, s', n, Stored(s', n))
  {
    assert AllJustified(s0, s, n, Stored(s, n)) && PcJustified(s0, s, i);
    AllJustifiedKept(s0, s, s', i, n, Stored(s', n));
  }

  /** What an object gained by a mirror or an add. */
  lemma GainJustified(s0: State, s: State, s': State, i: nat, o: ObjId)
    requires Stepped(s0, s, s', i) && o < |s.objs| && s'.objs[o].edges != s.objs[o].edges
    ensures AllJustified(s0, s', s'.objs[o].node, s'.objs[o].edges - s.objs[o].edges)
  {
    var n, task := s'.objs[o].node, s.tasks[i];
    if s.pcs[i].Mirror? {
      assert PcJustified(s0, s, i) && OwnShape(s, i);
      AllJustifiedKept(s0, s, s', i, n, s.pcs[i].merged);
    } else {
      assert s'.tasks[i] == AddEdge(n, task.edge) && s'.pcs[i] != Finished(false) && !Loading(s'.pcs[i]);
    }
  }

  lemma ObjJustified(s0: State, s: State, s': State, i: nat, o: ObjId)
    requires Stepped(s0, s, s', i) && o < |s'.objs|
    ensures AllJustified(s0, s', s'.objs[o].node, s'.objs[o].edges - Before(s0, o))
  {
    var n := s'.objs[o].node;
    if o < |s.objs| {
      AllJustifiedKept(s0, s, s', i, n, s.objs[o].edges - Before(s0, o));
      if s'.objs[o].edges != s.objs[o].edges { GainJustified(s0, s, s', i, o); }
    } else {
      StoredJustified(s0, s, s', i, n);
    }
  }

  lemma OwnPcJustified(s0: State, s: State, s': State, i: nat)
    requires Stepped(s0, s, s', i)
    ensures PcJustified(s0, s', i)
  {
    assert OwnShape(s, i) && OwnShape(s', i);
    if s.pcs[i].Export? {
      ExportedJustified(s0, s, s', i);
    } else {
      SnapJustified(s0, s, s', i);
    }
  }

  lemma ExportedJustified(s0: State, s: State, s': State, i: nat)
    requires Stepped(s0, s, s', i) && s.pcs[i].Export?
    ensures PcJustified(s0, s', i)
  {
    var o := s.pcs[i].o;
    assert PcOk(s0, s, i) && OwnShape(s, i);
    ExportJustified(s0, s, i, o);
    AllJustifiedKept(s0, s, s', i, NodeOf(s.tasks[i], s.objs), s.objs[o].edges);
  }

  lemma SnapJustified(s0: State, s: State, s': State, i: nat)
    requires Stepped(s0, s, s', i) && !s.pcs[i].Export?
    ensures PcJustified(s0, s', i)
  {
    var n := NodeOf(s.tasks[i], s.objs);
    assert PcJustified(s0, s, i) && OwnShape(s', i);
    match s.pcs[i] {
      case Enter(o, snap) => AllJustifiedKept(s0, s, s', i, n, snap);
      case Wait(o, snap) => AllJustifiedKept(s0, s, s', i, n, snap);
      case ReadDb(o, snap) =>
        assert AllJustified(s0, s, n, Stored(s, n));
        AllJustifiedKept(s0, s, s', i, n, snap + Stored(s, n));
      case Write(o, merged) => AllJustifiedKept(s0, s, s', i, n, merged);
      case _ =>
    }
  }

  lemma OriginFollows(s0: State, s: State, s': State, i: nat)
    requires Stepped(s0, s, s', i)
    ensures OriginOk(s0, s')
  {
    forall n ensures AllJustified(s0, s', n, Stored(s', n)) {
      StoredJustified(s0, s, s', i, n);
    }
    forall o | 0 <= o < |s'.objs|
      ensures AllJustified(s0, s', s'.objs[o].node, s'.objs[o].edges - Before(s0, o))
    {
      ObjJustified(s0, s, s', i, o);
    }
    forall j | 0 <= j < |s'.tasks| ensures PcJustified(s0, s', j) {
      if j == i {
        OwnPcJustified(s0, s, s', i);
      } else {
        assert PcJustified(s0, s, j) && OwnShape(s, j);
        var n, pc := NodeOf(s.tasks[j], s.objs), s.pcs[j];
        if pc.Enter? || pc.Wait? || pc.ReadDb? { AllJustifiedKept(s0, s, s', i, n, pc.snap); }
        if pc.Write? || pc.Mirror? { AllJustifiedKept(s0, s, s', i, n, pc.merged); }
      }
    }
  }

  /** The invariant is kept by every step of every task. */
  lemma StepKeepsInv(s0: State, s: State, i: nat)
    requires Inv(s0, s) && Enabled(s, i)
    ensures Inv(s0, Do(s, i)) && Stepped(s0, s, Do(s, i), i)
  {
    var s' := Do(s, i);
    StepShaped(s, i);
    StepLocks(s, i);
    StepLockEffect(s, i);
    StepDataEffect(s, i);
    StepPcEffect(s, i);
    ObjsFollow(s0, s, s', i);
    PcsFollow(s0, s, s', i);
    OriginFollows(s0, s, s', i);
  }

  // ---------- runs ----------

  /** Tasks named by the schedule take one step each, in that order, from `s` to `s'`. */
  predicate Runs(s: State, schedule: seq<nat>, s': State)
    requires Shaped(s)
    decreases |schedule|
  {
    if schedule == [] then s == s'
    else
      Enabled(s, schedule[0]) &&
      (StepShaped(s, schedule[0]); Runs(Do(s, schedule[0]), schedule[1..], s'))
  }

  lemma {:induction false} RunsKeep(s0: State, s: State, schedule: seq<nat>, s': State)
    requires Inv(s0, s) && Runs(s, schedule, s')
    ensures Inv(s0, s')
    ensures forall n :: Stored(s, n) <= Stored(s', n)
    decreases |schedule|
  {
    if schedule != [] {
      var i := schedule[0];
      StepKeepsInv(s0, s, i);
      forall n ensures Stored(s, n) <= Stored(Do(s, i), n) {
        StoredGrows(s0, s, Do(s, i), i, n);
      }
      RunsKeep(s0, Do(s, i), schedule[1..], s');
    }
  }

  /** In every interleaving the stored edge set of a node never shrinks. */
  lemma StoredNeverShrinks(s0: State, before: seq<nat>, s: State, after: seq<nat>, s': State, n: NodeId)
    requires Initial(s0) && Runs(s0, before, s) && Shaped(s) && Runs(s, after, s')
    ensures Stored(s0, n) <= Stored(s, n) <= Stored(s', n)
  {
    InitialInv(s0);
    RunsKeep(s0, s0, before, s);
    RunsKeep(s0, s, after, s');
  }

  /** While a node's guard is free its cached copy holds no edge that is not stored. */
  lemma FreeCopyIsStored(s0: State, schedule: seq<nat>, s: State, n: NodeId)
    requires Initial(s0) && Runs(s0, schedule, s) && n in s.cache && (n in s.locks ==> s.locks[n] == Free)
    ensures s.cache[n] < |s.objs| && s.objs[s.cache[n]].edges <= Stored(s, n)
  {
    InitialInv(s0);
    RunsKeep(s0, s0, schedule, s);
    assert ObjOk(s0, s, s.cache[n]);
  }

  /** An edge that must be on the node once every task is done. */
  predicate Owed(s0: State, s: State, n: NodeId, e: EdgeId)
    requires |s.pcs| == |s.tasks|
  {
    || e in Stored(s0, n)
    || (exists i | 0 <= i < |s.tasks| :: s.tasks[i] == AddEdge(n, e) && s.pcs[i] == Finished(true))
    || (exists i | 0 <= i < |s.tasks| :: SavesEdge(s0, s.tasks[i], n, e))
  }

  lemma StoredIsOwed(s0: State, s: State, n: NodeId, e: EdgeId)
    requires Inv(s0, s) && (forall i | 0 <= i < |s.pcs| :: s.pcs[i].Finished?) && e in Stored(s, n)
    ensures Owed(s0, s, n, e)
  {
    assert AllJustified(s0, s, n, Stored(s, n));
  }

  lemma OwedIsStored(s0: State, s: State, n: NodeId, e: EdgeId)
    requires Inv(s0, s) && (forall i | 0 <= i < |s.pcs| :: s.pcs[i].Finished?) && Owed(s0, s, n, e)
    ensures e in Stored(s0, n) || e in Stored(s, n)
  {
    if i :| 0 <= i < |s.tasks| && s.tasks[i] == AddEdge(n, e) && s.pcs[i] == Finished(true) {
      assert PcOk(s0, s, i);
    } else if i :| 0 <= i < |s.tasks| && SavesEdge(s0, s.tasks[i], n, e) {
      assert PcOk(s0, s, i) && ObjOk(s0, s, s.tasks[i].obj);
    }
  }

  /** No edge is lost and none is invented: when every task has finished, a node stores exactly the
      edges it stored before, those whose add succeeded, and those of the objects that were saved. */
  lemma ExactlyTheOwedEdges(s0: State, schedule: seq<nat>, s: State, n: NodeId, e: EdgeId)
    requires Initial(s0) && Runs(s0, schedule, s) && |s.pcs| == |s.tasks|
    requires forall i | 0 <= i < |s.pcs| :: s.pcs[i].Finished?
    ensures e in Stored(s, n) <==> Owed(s0, s, n, e)
  {
    InitialInv(s0);
    RunsKeep(s0, s0, schedule, s);
    if e in Stored(s, n) { StoredIsOwed(s0, s, n, e); } else if Owed(s0, s, n, e) { OwedIsStored(s0, s, n, e); }
  }

  // ---------- progress ----------

  /** As long as a task is unfinished some task can step: the guard never deadlocks. */
  lemma NoDeadlock(s0: State, s: State, i: nat) returns (j: nat)
    requires Inv(s0, s) && i < |s.tasks| && !s.pcs[i].Finished?
    ensures Enabled(s, j)
  {
    var n := NodeOf(s.tasks[i], s.objs);
    j := i;
    if s.pcs[i].Wait? || s.pcs[i].WaitToEdit? {
      assert LockOwn(s, i);
      if s.locks[n].HeldBy? {
        assert LockSlot(s, n);
        j := s.locks[n].task;
      }
    }
  }

  // ---------- what the tasks answer ----------

  predicate Found(s: State, n: NodeId) {
    n in s.cache || n in s.db
  }

  /** What is cached or stored stays so. */
  predicate Kept(s0: State, s: State) {
    s0.cache.Keys <= s.cache.Keys && s0.db.Keys <= s.db.Keys
  }

  /** A task that goes on from looking for its node has found it, and one that gave up did not. */
  predicate AnswerOk(s0: State, s: State, i: nat)
    requires i < |s.tasks| == |s.pcs|
  {
    var n, pc := NodeOf(s.tasks[i], s.objs), s.pcs[i];
    !s.tasks[i].SaveNode? ==>
      && (HasObj(pc) || pc == Finished(true) ==> Found(s, n))
      && (pc.Fetch? ==> n !in s0.cache)
      && (pc == Finished(false) ==> !Found(s0, n))
  }

  ghost predicate AnswersOk(s0: State, s: State) {
    && Shaped(s) && Kept(s0, s)
    && (forall i {:trigger s.pcs[i]} {:trigger s.tasks[i]} | 0 <= i < |s.tasks| :: AnswerOk(s0, s, i))
  }

  lemma StepKeepsFound(s: State, i: nat)
    requires Shaped(s) && Enabled(s, i)
    ensures Kept(s, Do(s, i))
  {
    StepDataEffect(s, i);
  }

  lemma OwnAnswer(s0: State, s: State, i: nat)
    requires AnswersOk(s0, s) && Enabled(s, i)
    ensures |Do(s, i).pcs| == |Do(s, i).tasks| == |s.tasks| && AnswerOk(s0, Do(s, i), i)
  {
    assert AnswerOk(s0, s, i) && OwnShape(s, i);
    StepShaped(s, i);
    StepKeepsFound(s, i);
    StepDataEffect(s, i);
    StepPcEffect(s, i);
  }

  lemma StepKeepsAnswers(s0: State, s: State, i: nat)
    requires AnswersOk(s0, s) && Enabled(s, i)
    ensures AnswersOk(s0, Do(s, i))
  {
    StepShaped(s, i);
    StepKeepsFound(s, i);
    forall j | 0 <= j < |s.tasks| ensures AnswerOk(s0, Do(s, i), j) {
      if j == i { OwnAnswer(s0, s, i); } else { assert AnswerOk(s0, s, j); }
    }
  }

  lemma {:induction false} RunsKeepAnswers(s0: State, s: State, schedule: seq<nat>, s': State)
    requires AnswersOk(s0, s) && Runs(s, schedule, s')
    ensures AnswersOk(s0, s')
    decreases |schedule|
  {
    if schedule != [] {
      StepKeepsAnswers(s0, s, schedule[0]);
      RunsKeepAnswers(s0, Do(s, schedule[0]), schedule[1..], s');
    }
  }

  /** In every interleaving, removals included: an add, a removal or a load that has answered true found its
      node, and one that has answered false did so because the node was neither cached nor stored before the
      run. So for a node that existed before every answer is true. */
  lemma AnswersTell(s0: State, schedule: seq<nat>, s: State, i: nat)
    requires Idle(s0) && Runs(s0, schedule, s) && i < |s.tasks| == |s.pcs|
    requires !s.tasks[i].SaveNode? && s.pcs[i].Finished?
    ensures s.pcs[i] == Finished(true) ==> Found(s, NodeOf(s.tasks[i], s.objs))
    ensures s.pcs[i] == Finished(false) ==> !Found(s0, NodeOf(s.tasks[i], s.objs))
  {
    forall j | 0 <= j < |s0.tasks| ensures AnswerOk(s0, s0, j) {
      assert s0.pcs[j] == Start;
    }
    RunsKeepAnswers(s0, s0, schedule, s);
    assert AnswerOk(s0, s, i);
  }

  // ---------- removal ----------

  datatype Option<T> = None | Some(value: T)

  /** The copy that a removal edits: the cached one if there is one, else what is stored. */
  function Copy(s: State, n: NodeId): Option<set<EdgeId>>
    requires CacheShape(s)
  {
    if n in s.cache then Some(s.objs[s.cache[n]].edges) else if n in s.db then Some(s.db[n]) else None
  }

  /** What a removal with nothing else running leaves stored. */
  function Removed(s: State, n: NodeId, e: EdgeId): map<NodeId, set<EdgeId>>
    requires CacheShape(s)
  {
    var copy := Copy(s, n);
    if copy.Some? && e in copy.value then s.db[n := copy.value - {e}] else s.db
  }

  predicate Alone(s: State, n: NodeId, e: EdgeId) {
    Idle(s) && s.tasks == [RemoveEdge(n, e)]
  }

  /** Where the removal stands. */
  predicate RemovalAt(s0: State, s: State, n: NodeId, e: EdgeId)
    requires CacheShape(s0)
  {
    var copy := Copy(s0, n);
    && s.tasks == [RemoveEdge(n, e)] && |s.pcs| == 1
    && (s.pcs[0].CacheIn? || s.pcs[0].Finished? || s.db == s0.db)
    && match s.pcs[0]
       case Start => s.cache == s0.cache && s.objs == s0.objs
       case WaitToEdit => s.cache == s0.cache && s.objs == s0.objs
       case ReadCache => s.cache == s0.cache && s.objs == s0.objs
       case Fetch => n !in s0.cache
       case Insert(o) => n !in s0.cache && n in s0.db && o < |s.objs| && s.objs[o] == Obj(n, s0.db[n])
       case Export(o) => copy.Some? && e in copy.value && o < |s.objs| && s.objs[o].edges == copy.value - {e}
       case Write(o, merged) => copy.Some? && e in copy.value && merged == copy.value - {e}
       case CacheIn(o) => copy.Some? && s.db == Removed(s0, n, e)
       case Finished(ok) => s.db == Removed(s0, n, e) && ok == copy.Some?
       case _ => false
  }

  lemma RemovalLoads(s0: State, s: State, n: NodeId, e: EdgeId)
    requires CacheShape(s0) && CacheShape(s) && RemovalAt(s0, s, n, e) && OwnShape(s, 0) && Enabled(s, 0)
    requires !s.pcs[0].Export? && !s.pcs[0].Write? && !s.pcs[0].CacheIn?
    ensures RemovalAt(s0, Do(s, 0), n, e)
  {
  }

  lemma RemovalStores(s0: State, s: State, n: NodeId, e: EdgeId)
    requires CacheShape(s0) && CacheShape(s) && RemovalAt(s0, s, n, e) && OwnShape(s, 0) && Enabled(s, 0)
    requires s.pcs[0].Export? || s.pcs[0].Write? || s.pcs[0].CacheIn?
    ensures RemovalAt(s0, Do(s, 0), n, e)
  {
  }

  lemma RemovalStep(s0: State, s: State, n: NodeId, e: EdgeId)
    requires CacheShape(s0) && Shaped(s) && RemovalAt(s0, s, n, e) && Enabled(s, 0)
    ensures RemovalAt(s0, Do(s, 0), n, e)
  {
    assert OwnShape(s, 0);
    if s.pcs[0].Export? || s.pcs[0].Write? || s.pcs[0].CacheIn? {
      RemovalStores(s0, s, n, e);
    } else {
      RemovalLoads(s0, s, n, e);
    }
  }

  lemma {:induction false} RemovalRuns(s0: State, s: State, schedule: seq<nat>, s': State, n: NodeId, e: EdgeId)
    requires CacheShape(s0) && Shaped(s) && RemovalAt(s0, s, n, e) && Runs(s, schedule, s')
    ensures RemovalAt(s0, s', n, e)
    decreases |schedule|
  {
    if schedule != [] {
      StepShaped(s, 0);
      RemovalStep(s0, s, n, e);
      RemovalRuns(s0, Do(s, 0), schedule[1..], s', n, e);
    }
  }

  /** With nothing else running a removal answers whether the node exists, cached or stored, and it leaves
      behind the copy it found without the edge, or what was stored where that copy lacks the edge. */
  lemma RemovalAnswers(s0: State, schedule: seq<nat>, s: State, n: NodeId, e: EdgeId)
    requires Alone(s0, n, e) && Runs(s0, schedule, s) && |s.pcs| == 1 && s.pcs[0].Finished?
    ensures s.pcs[0] == Finished(n in s0.cache || n in s0.db)
    ensures n in s0.cache && e in s0.objs[s0.cache[n]].edges ==> Stored(s, n) == s0.objs[s0.cache[n]].edges - {e}
    ensures n in s0.cache && e !in s0.objs[s0.cache[n]].edges ==> s.db == s0.db
    ensures n !in s0.cache ==> Stored(s, n) == Stored(s0, n) - {e}
    ensures forall m | m != n :: Stored(s, m) == Stored(s0, m)
  {
    RemovalRuns(s0, s0, schedule, s, n, e);
  }

  /** With nothing else running a removal takes away exactly the one edge if and only if the cached copy is
      not stale or the edge is not stored; a stale copy makes it drop other edges or leave the edge in
      place. */
  lemma RemovalExactIff(s0: State, schedule: seq<nat>, s: State, n: NodeId, e: EdgeId)
    requires Alone(s0, n, e) && Runs(s0, schedule, s) && |s.pcs| == 1 && s.pcs[0].Finished?
    ensures Stored(s, n) == Stored(s0, n) - {e} <==>
            (n in s0.cache && e in Stored(s0, n) ==> s0.objs[s0.cache[n]].edges == Stored(s0, n))
  {
    RemovalRuns(s0, s0, schedule, s, n, e);
    var stored, copy := Stored(s0, n), Copy(s0, n);
    if e !in stored { assert stored - {e} == stored; }
    if copy.Some? && e in copy.value && copy.value - {e} == stored - {e} {
      assert copy.value == (stored - {e}) + {e} == stored;
    }
  }
}
