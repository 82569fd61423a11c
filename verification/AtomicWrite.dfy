/** The crash-safe write of jvspatial/db/_atomic.py as a protocol over a file system with volatile and
    durable state: any number of writers, failing system calls, sweeps by other processes, and a crash at
    any point. */
module AtomicWrite {
  import opened TempNames

  newtype byte = x: int | 0 <= x < 256

  type Content = seq<byte>

  /** A crash may leave anything in a file that was not synced. */
  datatype Inode = Inode(content: Content, synced: bool)

  /** What a name has referred to, the present last; a crash may bring back any value from `floor` on. */
  datatype History = History(values: seq<Option<nat>>, floor: nat)

  /** One call of `atomic_write_bytes`; `syncDir` is false in serverless mode. */
  datatype Writer = Writer(target: string, pid: nat, token: string, data: Content, syncDir: bool)

  /** Where a call stands; `at` is the position of its payload in the target's history. */
  datatype Phase =
    | Start
    | Ready
    | Opened(ino: nat)
    | Written(ino: nat)
    | Synced(ino: nat)
    | Replaced(at: nat)
    | Returned(at: nat, dirSynced: bool)
    | Failing
    | Raised

  /** One directory: what its names refer to and, as `dir`, whether it exists itself, which is an entry of
      the directory above. */
  datatype State = State(names: map<string, History>, inodes: seq<Inode>, writers: seq<Writer>, phases: seq<Phase>, dir: History)

  /** What the entry of an existing directory refers to. */
  const THE_DIRECTORY: nat := 0

  function Hist(s: State, name: string): History {
    if name in s.names then s.names[name] else History([None], 0)
  }

  function Last(values: seq<Option<nat>>): Option<nat> {
    if values == [] then None else values[|values| - 1]
  }

  function Current(s: State, name: string): Option<nat> {
    Last(Hist(s, name).values)
  }

  function Temp(w: Writer): string {
    MakeTemp(w.target, w.pid, w.token)
  }

  // ---------- the steps ----------

  datatype Step =
    | Mkdir(w: nat) | MkdirFails(w: nat)
    | Create(w: nat) | CreateFails(w: nat)
    | Write(w: nat) | Fsync(w: nat) | WriteFails(w: nat)
    | Replace(w: nat) | ReplaceFails(w: nat)
    | SyncDir(w: nat) | Return(w: nat)
    | Unlink(w: nat) | Reraise(w: nat)
    | Sweep(name: string, pid: nat)

  predicate Enabled(s: State, step: Step) {
    if step.Sweep? then
      EndsWith(step.name, SUFFIX) && !OwnedBy(step.name, step.pid) && Current(s, step.name).Some?
    else
      step.w < |s.writers| && step.w < |s.phases| &&
      var phase, w := s.phases[step.w], s.writers[step.w];
      match step
      case Mkdir(_) => phase.Start?
      case MkdirFails(_) => phase.Start?
      case Create(_) => phase.Ready? && Current(s, Temp(w)).None?
      case CreateFails(_) => phase.Ready?
      case Write(_) => phase.Opened? && phase.ino < |s.inodes|
      case Fsync(_) => phase.Written? && phase.ino < |s.inodes|
      case WriteFails(_) => phase.Opened? || phase.Written?
      case Replace(_) => phase.Synced? && Current(s, Temp(w)).Some?
      case ReplaceFails(_) => phase.Synced?
      case SyncDir(_) => phase.Replaced? && w.syncDir
      case Return(_) => phase.Replaced?
      case Unlink(_) => phase.Failing? && Current(s, Temp(w)).Some?
      case Reraise(_) => phase.Failing?
  }

  /** A name refers to something else, or to nothing. */
  function Bind(s: State, name: string, value: Option<nat>): State {
    s.(names := s.names[name := History(Hist(s, name).values + [value], Hist(s, name).floor)])
  }

  /** `mkdir` of a directory that may exist already. */
  function MakeDir(dir: History): History {
    if Last(dir.values).Some? then dir else History(dir.values + [Some(THE_DIRECTORY)], dir.floor)
  }

  function Go(s: State, w: nat, phase: Phase): State
    requires w < |s.phases|
  {
    s.(phases := s.phases[w := phase])
  }

  /** `Replace` publishes whatever the temp name refers to; `SyncDir` makes the entries of the directory
      durable, not its own; `Return` covers a directory sync that is not wanted or fails, which
      `_fsync_directory` swallows. */
  function Do(s: State, step: Step): State
    requires Enabled(s, step)
  {
    if step.Sweep? then Bind(s, step.name, None)
    else
      var phase, w := s.phases[step.w], s.writers[step.w];
      match step
      case Mkdir(i) => Go(s.(dir := MakeDir(s.dir)), i, Ready)
      case MkdirFails(i) => Go(s, i, Raised)
      case Create(i) => Go(Bind(s.(inodes := s.inodes + [Inode([], false)]), Temp(w), Some(|s.inodes|)), i, Opened(|s.inodes|))
      case CreateFails(i) => Go(s, i, Failing)
      case Write(i) => Go(s.(inodes := s.inodes[phase.ino := Inode(w.data, false)]), i, Written(phase.ino))
      case Fsync(i) => Go(s.(inodes := s.inodes[phase.ino := s.inodes[phase.ino].(synced := true)]), i, Synced(phase.ino))
      case WriteFails(i) => Go(s, i, Failing)
      case Replace(i) =>
        Go(Bind(Bind(s, w.target, Current(s, Temp(w))), Temp(w), None), i, Replaced(|Hist(s, w.target).values|))
      case ReplaceFails(i) => Go(s, i, Failing)
      case SyncDir(i) => Go(s.(names := map n | n in s.names :: Durable(s.names[n])), i, Returned(phase.at, true))
      case Return(i) => Go(s, i, Returned(phase.at, false))
      case Unlink(i) => Go(Bind(s, Temp(w), None), i, Raised)
      case Reraise(i) => Go(s, i, Raised)
  }

  function Durable(h: History): History {
    if h.values == [] then h else History(h.values, |h.values| - 1)
  }

  predicate Runs(s: State, steps: seq<Step>, s': State)
    decreases |steps|
  {
    if steps == [] then s == s' else Enabled(s, steps[0]) && Runs(Do(s, steps[0]), steps[1..], s')
  }

  // ---------- the invariant ----------

  /** No writer's target looks like a temp file, and no two writers share a temp name. */
  predicate Writers(ws: seq<Writer>) {
    && (forall i | 0 <= i < |ws| :: IsToken(ws[i].token) && !EndsWith(ws[i].target, SUFFIX))
    && (forall i, j | 0 <= i < j < |ws| :: Temp(ws[i]) != Temp(ws[j]))
  }

  /** Where runs begin: the directory is there or not, what its names refer to is durable, and synced unless
      it is a leftover temp file. A directory that is not there is empty. */
  predicate Initial(s: State) {
    && Writers(s.writers) && |s.phases| == |s.writers| && (forall i | 0 <= i < |s.phases| :: s.phases[i] == Start)
    && (forall n | n in s.names ::
          && |s.names[n].values| == 1 && s.names[n].floor == 0
          && (!EndsWith(n, SUFFIX) && s.names[n].values[0].Some? ==> SyncedAt(s, s.names[n].values[0].value))
          && (s.dir.values == [None] ==> s.names[n].values[0] == None))
    && (s.dir == History([None], 0) || s.dir == History([Some(THE_DIRECTORY)], 0))
  }

  predicate SyncedAt(s: State, ino: nat) {
    ino < |s.inodes| && s.inodes[ino].synced
  }

  predicate Holds(s: State, ino: nat, data: Content) {
    SyncedAt(s, ino) && s.inodes[ino].content == data
  }

  /** A complete payload written to the name. */
  predicate Payload(s: State, name: string, ino: nat) {
    exists w | 0 <= w < |s.writers| :: s.writers[w].target == name && Holds(s, ino, s.writers[w].data)
  }

  /** A target's history: its content before the run, then complete payloads. */
  predicate HistoryOk(s0: State, s: State, name: string) {
    var h := Hist(s, name);
    && h.floor < |h.values|
    && (!EndsWith(name, SUFFIX) ==>
          && h.values[0] == Current(s0, name)
          && (h.values[0].Some? ==> h.values[0].value < |s0.inodes| && SyncedAt(s, h.values[0].value))
          && (forall k | 1 <= k < |h.values| :: h.values[k].Some? && Payload(s, name, h.values[k].value)))
  }

  /** The file of a write in progress: its temp name refers to it, unless it was swept away. */
  predicate OwnFile(s0: State, s: State, w: Writer, ino: nat) {
    && |s0.inodes| <= ino < |s.inodes|
    && (Current(s, Temp(w)) == Some(ino) || Current(s, Temp(w)) == None)
  }

  predicate PhaseOk(s0: State, s: State, i: nat)
    requires i < |s.writers| == |s.phases|
  {
    var w := s.writers[i];
    match s.phases[i]
    case Opened(ino) => OwnFile(s0, s, w, ino) && !s.inodes[ino].synced
    case Written(ino) => OwnFile(s0, s, w, ino) && !s.inodes[ino].synced && s.inodes[ino].content == w.data
    case Synced(ino) => OwnFile(s0, s, w, ino) && Holds(s, ino, w.data)
    case Replaced(at) => PublishedAt(s, w, at)
    case Returned(at, synced) => PublishedAt(s, w, at) && (synced ==> Hist(s, w.target).floor >= at)
    case _ => true
  }

  predicate PublishedAt(s: State, w: Writer, at: nat) {
    var values := Hist(s, w.target).values;
    1 <= at < |values| && values[at].Some? && Holds(s, values[at].value, w.data)
  }

  predicate Unsynced(p: Phase) {
    p.Opened? || p.Written?
  }

  ghost predicate Inv(s0: State, s: State) {
    && Initial(s0) && s.writers == s0.writers && |s.phases| == |s.writers|
    && (s.dir == s0.dir || s.dir == MakeDir(s0.dir))
    && |s0.inodes| <= |s.inodes| && s.inodes[..|s0.inodes|] == s0.inodes
    && (forall n :: HistoryOk(s0, s, n))
    && (forall i | 0 <= i < |s.writers| :: PhaseOk(s0, s, i))
    && (forall i, j | 0 <= i < j < |s.phases| && Unsynced(s.phases[i]) && Unsynced(s.phases[j]) :: s.phases[i].ino != s.phases[j].ino)
  }

  lemma InitialInv(s: State)
    requires Initial(s)
    ensures Inv(s, s)
  {
  }

  // ---------- every step keeps it ----------

  /** What was synced stays as it is. */
  predicate Preserves(s: State, s': State) {
    && s'.writers == s.writers && |s'.phases| == |s.phases|
    && |s.inodes| <= |s'.inodes|
    && forall k | 0 <= k < |s.inodes| && s.inodes[k].synced :: s'.inodes[k] == s.inodes[k]
  }

  lemma StepPreserves(s0: State, s: State, step: Step)
    requires Inv(s0, s) && Enabled(s, step)
    ensures Preserves(s, Do(s, step))
    ensures Do(s, step).inodes[..|s0.inodes|] == s0.inodes
  {
    if !step.Sweep? { assert PhaseOk(s0, s, step.w); }
  }

  /** What a step does to a name: at most one new value, and for a target that is a payload of its own. */
  predicate Rebinds(s: State, s': State, n: string) {
    var h, h' := Hist(s, n), Hist(s', n);
    || (h'.values == h.values && h.floor <= h'.floor < |h.values|)
    || (h'.floor == h.floor && |h'.values| == |h.values| + 1 && h'.values[..|h.values|] == h.values
        && (!EndsWith(n, SUFFIX) ==> Last(h'.values).Some? && Payload(s, n, Last(h'.values).value)))
  }

  lemma StepRebinds(s0: State, s: State, step: Step, n: string)
    requires Inv(s0, s) && Enabled(s, step)
    ensures Rebinds(s, Do(s, step), n)
  {
    assert HistoryOk(s0, s, n);
    if step.Sweep? {
    } else {
      assert PhaseOk(s0, s, step.w);
      if step.Replace? { ReplaceRebinds(s0, s, step, n); }
    }
  }

  lemma ReplaceRebinds(s0: State, s: State, step: Step, n: string)
    requires Inv(s0, s) && Enabled(s, step) && step.Replace?
    ensures Rebinds(s, Do(s, step), n)
  {
    var w := s.writers[step.w];
    assert HistoryOk(s0, s, n) && PhaseOk(s0, s, step.w);
    assert Payload(s, w.target, s.phases[step.w].ino);
  }

  lemma PublishedKept(s: State, s': State, w: Writer, at: nat)
    requires PublishedAt(s, w, at) && Preserves(s, s') && Rebinds(s, s', w.target)
    ensures PublishedAt(s', w, at)
  {
  }

  /** Another writer's file is at most swept away. */
  lemma OthersKept(s0: State, s: State, step: Step, i: nat)
    requires Inv(s0, s) && Enabled(s, step) && i < |s.writers| && (step.Sweep? || step.w != i)
    ensures PhaseOk(s0, Do(s, step), i)
  {
    var s', w := Do(s, step), s.writers[i];
    StepPreserves(s0, s, step);
    StepRebinds(s0, s, step, w.target);
    assert PhaseOk(s0, s, i) && s'.phases[i] == s.phases[i];
    if s.phases[i].Opened? || s.phases[i].Written? || s.phases[i].Synced? {
      FileKept(s0, s, step, i);
    } else if s.phases[i].Replaced? || s.phases[i].Returned? {
      PublishedKept(s, s', w, s.phases[i].at);
    }
  }

  lemma FileKept(s0: State, s: State, step: Step, i: nat)
    requires Inv(s0, s) && Enabled(s, step) && i < |s.writers| && (step.Sweep? || step.w != i)
    requires s.phases[i].Opened? || s.phases[i].Written? || s.phases[i].Synced?
    ensures OwnFile(s0, Do(s, step), s.writers[i], s.phases[i].ino)
    ensures s.phases[i].ino < |s.inodes| && Do(s, step).inodes[s.phases[i].ino] == s.inodes[s.phases[i].ino]
  {
    assert PhaseOk(s0, s, i);
    if !step.Sweep? {
      assert PhaseOk(s0, s, step.w);
    }
  }

  lemma OwnFollows(s0: State, s: State, step: Step)
    requires Inv(s0, s) && Enabled(s, step) && !step.Sweep?
    ensures PhaseOk(s0, Do(s, step), step.w)
  {
    assert PhaseOk(s0, s, step.w);
    var w := s.writers[step.w];
    assert HistoryOk(s0, s, w.target);
  }

  lemma InosApart(s0: State, s: State, step: Step)
    requires Inv(s0, s) && Enabled(s, step)
    ensures var ps := Do(s, step).phases;
            forall i, j | 0 <= i < j < |ps| && Unsynced(ps[i]) && Unsynced(ps[j]) :: ps[i].ino != ps[j].ino
  {
    forall i | 0 <= i < |s.phases| && Unsynced(s.phases[i]) ensures s.phases[i].ino < |s.inodes| {
      assert PhaseOk(s0, s, i);
    }
  }

  lemma HistoryFollows(s0: State, s: State, s': State, n: string)
    requires HistoryOk(s0, s, n) && Preserves(s, s') && Rebinds(s, s', n)
    ensures HistoryOk(s0, s', n)
  {
  }

  lemma StepHistories(s0: State, s: State, step: Step)
    requires Inv(s0, s) && Enabled(s, step)
    ensures forall n :: HistoryOk(s0, Do(s, step), n)
  {
    forall n ensures HistoryOk(s0, Do(s, step), n) {
      StepPreserves(s0, s, step);
      StepRebinds(s0, s, step, n);
      HistoryFollows(s0, s, Do(s, step), n);
    }
  }

  lemma StepKeepsInv(s0: State, s: State, step: Step)
    requires Inv(s0, s) && Enabled(s, step)
    ensures Inv(s0, Do(s, step))
  {
    var s' := Do(s, step);
    StepPreserves(s0, s, step);
    StepHistories(s0, s, step);
    forall i | 0 <= i < |s'.writers| ensures PhaseOk(s0, s', i) {
      if step.Sweep? || step.w != i { OthersKept(s0, s, step, i); } else { OwnFollows(s0, s, step); }
    }
    InosApart(s0, s, step);
  }

  lemma {:induction false} RunsKeep(s0: State, s: State, steps: seq<Step>, s': State)
    requires Inv(s0, s) && Runs(s, steps, s')
    ensures Inv(s0, s')
    decreases |steps|
  {
    if steps != [] {
      StepKeepsInv(s0, s, steps[0]);
      RunsKeep(s0, Do(s, steps[0]), steps[1..], s');
    }
  }

  // ---------- crashes ----------

  /** What a reference may turn out to be after a crash. */
  predicate RecoversAs(s: State, v: Option<nat>, c: Option<Content>) {
    match v
    case None => c == None
    case Some(ino) => ino < |s.inodes| && c.Some? && (s.inodes[ino].synced ==> c.value == s.inodes[ino].content)
  }

  /** What a name of the directory may hold after a crash, if the directory is still there. */
  predicate NameMayRecover(s: State, name: string, c: Option<Content>) {
    exists k | Hist(s, name).floor <= k < |Hist(s, name).values| :: RecoversAs(s, Hist(s, name).values[k], c)
  }

  /** What a path may hold after a crash: nothing, if the directory's own entry is lost. */
  predicate MayRecover(s: State, name: string, c: Option<Content>) {
    exists d | s.dir.floor <= d < |s.dir.values| ::
      if s.dir.values[d].None? then c == None else NameMayRecover(s, name, c)
  }

  /** What a name held before the run. */
  function Before(s0: State, name: string): Option<Content> {
    match Current(s0, name)
    case None => None
    case Some(ino) => if ino < |s0.inodes| then Some(s0.inodes[ino].content) else None
  }

  /** Whenever the crash comes, a target then holds what it held before the run or one complete payload
      written to it. */
  lemma CrashSafe(s0: State, steps: seq<Step>, s: State, name: string, c: Option<Content>)
    requires Initial(s0) && Runs(s0, steps, s) && !EndsWith(name, SUFFIX) && MayRecover(s, name, c)
    ensures c == Before(s0, name) || exists w | 0 <= w < |s.writers| :: s.writers[w].target == name && c == Some(s.writers[w].data)
  {
    InitialInv(s0);
    RunsKeep(s0, s0, steps, s);
    assert HistoryOk(s0, s, name);
    if NameMayRecover(s, name, c) { NameRecovers(s0, s, name, c); }
  }

  lemma NameRecovers(s0: State, s: State, name: string, c: Option<Content>)
    requires Inv(s0, s) && !EndsWith(name, SUFFIX) && NameMayRecover(s, name, c)
    ensures c == Before(s0, name) || exists w | 0 <= w < |s.writers| :: s.writers[w].target == name && c == Some(s.writers[w].data)
  {
    assert HistoryOk(s0, s, name);
    var k :| Hist(s, name).floor <= k < |Hist(s, name).values| && RecoversAs(s, Hist(s, name).values[k], c);
    var v := Hist(s, name).values[k];
    if k == 0 {
      assert v.Some? ==> s.inodes[..|s0.inodes|][v.value] == s.inodes[v.value];
    } else {
      var w :| 0 <= w < |s.writers| && s.writers[w].target == name && Holds(s, v.value, s.writers[w].data);
    }
  }

  /** `c` is the payload published at position `at` or a later one. */
  predicate NotOlder(s: State, name: string, at: nat, c: Option<Content>) {
    exists k | at <= k < |Hist(s, name).values| ::
      var v := Hist(s, name).values[k];
      v.Some? && v.value < |s.inodes| && c == Some(s.inodes[v.value].content)
  }

  predicate Existed(s: State) {
    Last(s.dir.values).Some?
  }

  lemma KeptNames(s0: State, s: State, i: nat, c: Option<Content>)
    requires Inv(s0, s) && i < |s.writers| && s.phases[i].Returned? && s.phases[i].dirSynced
    requires NameMayRecover(s, s.writers[i].target, c)
    ensures NotOlder(s, s.writers[i].target, s.phases[i].at, c)
  {
    var w, at := s.writers[i], s.phases[i].at;
    assert PhaseOk(s0, s, i) && HistoryOk(s0, s, w.target);
    var k :| Hist(s, w.target).floor <= k < |Hist(s, w.target).values| && RecoversAs(s, Hist(s, w.target).values[k], c);
    assert k >= at >= 1;
  }

  /** A directory made during the run may be gone after a crash, whatever was synced in it. */
  lemma MadeMayVanish(s0: State, s: State, name: string)
    requires Inv(s0, s) && !Existed(s0)
    ensures MayRecover(s, name, None)
  {
    assert s.dir.floor == 0 && s.dir.values[0] == None;
  }

  /** A write that returned after syncing the directory survives every crash, unless replaced by a later
      one, exactly when the directory existed before the run: `mkdir` is not followed by a sync of the
      directory above. */
  lemma DurableIff(s0: State, steps: seq<Step>, s: State, i: nat)
    requires Initial(s0) && Runs(s0, steps, s) && i < |s.writers| == |s.phases|
    requires s.phases[i].Returned? && s.phases[i].dirSynced
    ensures (forall c :: MayRecover(s, s.writers[i].target, c) ==> NotOlder(s, s.writers[i].target, s.phases[i].at, c)) <==> Existed(s0)
  {
    InitialInv(s0);
    RunsKeep(s0, s0, steps, s);
    var w, at := s.writers[i], s.phases[i].at;
    if Existed(s0) {
      forall c | MayRecover(s, w.target, c) ensures NotOlder(s, w.target, at, c) {
        KeptNames(s0, s, i, c);
      }
    } else {
      MadeMayVanish(s0, s, w.target);
      assert !NotOlder(s, w.target, at, None);
    }
  }

  /** If nothing was published to the target since, that is this write's payload. */
  lemma LastWriteSurvives(s0: State, steps: seq<Step>, s: State, i: nat, c: Option<Content>)
    requires Initial(s0) && Runs(s0, steps, s) && i < |s.writers| == |s.phases| && Existed(s0)
    requires s.phases[i].Returned? && s.phases[i].dirSynced
    requires |Hist(s, s.writers[i].target).values| == s.phases[i].at + 1
    requires MayRecover(s, s.writers[i].target, c)
    ensures c == Some(s.writers[i].data)
  {
    DurableIff(s0, steps, s, i);
    InitialInv(s0);
    RunsKeep(s0, s0, steps, s);
    assert PhaseOk(s0, s, i);
  }

  lemma {:induction false} RunsSnoc(s: State, steps: seq<Step>, mid: State, step: Step)
    requires Runs(s, steps, mid) && Enabled(mid, step)
    ensures Runs(s, steps + [step], Do(mid, step))
    decreases |steps|
  {
    if steps == [] {
      assert [] + [step] == [step] && [step][1..] == [];
    } else {
      assert (steps + [step])[1..] == steps[1..] + [step];
      RunsSnoc(Do(s, steps[0]), steps[1..], mid, step);
    }
  }

  /** A directory that does not exist, and one call. */
  function Absent(w: Writer): State {
    State(map[], [], [w], [Start], History([None], 0))
  }

  /** The state after the call's first `n` system calls, none of them failing. */
  function After(w: Writer, n: nat): State
    requires n <= 6
  {
    var dir := if n == 0 then History([None], 0) else History([None, Some(THE_DIRECTORY)], 0);
    var inode := Inode(if n <= 2 then [] else w.data, n >= 4);
    var temp := if n < 5 then History([None, Some(0)], 0) else History([None, Some(0), None], if n < 6 then 0 else 2);
    var target := History([None, Some(0)], if n < 6 then 0 else 1);
    var names := if n < 2 then map[] else if n < 5 then map[Temp(w) := temp] else map[Temp(w) := temp, w.target := target];
    var phase := if n == 0 then Start else if n == 1 then Ready else if n == 2 then Opened(0) else if n == 3 then Written(0)
                 else if n == 4 then Synced(0) else if n == 5 then Replaced(1) else Returned(1, true);
    State(names, if n < 2 then [] else [inode], [w], [phase], dir)
  }

  const ALL_CALLS: seq<Step> := [Mkdir(0), Create(0), Write(0), Fsync(0), Replace(0), SyncDir(0)]

  lemma FileCall(w: Writer, n: nat)
    requires n < 4
    ensures Enabled(After(w, n), ALL_CALLS[n]) && Do(After(w, n), ALL_CALLS[n]) == After(w, n + 1)
  {
    var none: seq<Option<nat>> := [None];
    assert none + [Some(0)] == [None, Some(0)];
    assert [] + [Inode([], false)] == [Inode([], false)];
  }

  lemma PublishCall(w: Writer, n: nat)
    requires 4 <= n < 6 && w.syncDir && Temp(w) != w.target
    ensures Enabled(After(w, n), ALL_CALLS[n]) && Do(After(w, n), ALL_CALLS[n]) == After(w, n + 1)
  {
    var none: seq<Option<nat>> := [None];
    assert none + [Some(0)] == [None, Some(0)] && [None, Some(0)] + [None] == [None, Some(0), None];
    assert Do(After(w, n), ALL_CALLS[n]).names == After(w, n + 1).names;
  }

  lemma {:induction false} Calls(w: Writer, n: nat)
    requires n <= 6 && w.syncDir && Temp(w) != w.target
    ensures Runs(Absent(w), ALL_CALLS[..n], After(w, n))
  {
    if n > 0 {
      Calls(w, n - 1);
      if n <= 4 { FileCall(w, n - 1); } else { PublishCall(w, n - 1); }
      RunsSnoc(Absent(w), ALL_CALLS[..n - 1], After(w, n - 1), ALL_CALLS[n - 1]);
      assert ALL_CALLS[..n - 1] + [ALL_CALLS[n - 1]] == ALL_CALLS[..n];
    }
  }

  /** The first write into a new directory can return, file and directory synced, and be gone after a crash. */
  lemma FirstWriteMayVanish(w: Writer)
    requires IsToken(w.token) && !EndsWith(w.target, SUFFIX) && w.syncDir
    ensures Initial(Absent(w)) && Runs(Absent(w), ALL_CALLS, After(w, 6))
    ensures After(w, 6).phases[0] == Returned(1, true) && Contains(After(w, 6), w.target, w.data)
    ensures MayRecover(After(w, 6), w.target, None)
  {
    assert EndsWith(Temp(w), SUFFIX);
    Calls(w, 6);
    assert ALL_CALLS[..6] == ALL_CALLS;
    InitialInv(Absent(w));
    RunsKeep(Absent(w), Absent(w), ALL_CALLS, After(w, 6));
    MadeMayVanish(Absent(w), After(w, 6), w.target);
  }

  // ---------- sweeps ----------

  /** No sweep by the writer's own process can touch its file. */
  lemma OwnSweepIsHarmless(s: State, i: nat, step: Step)
    requires Writers(s.writers) && i < |s.writers| && Enabled(s, step)
    requires step.Sweep? && step.name == Temp(s.writers[i])
    ensures step.pid != s.writers[i].pid
  {
    OwnerIsRecovered(s.writers[i].target, s.writers[i].pid, s.writers[i].token, step.pid);
  }

  predicate SweptOnlyBy(steps: seq<Step>, pid: nat) {
    forall k | 0 <= k < |steps| && steps[k].Sweep? :: steps[k].pid == pid
  }

  /** The file of a write in progress is still there. */
  predicate InPlace(s: State, i: nat)
    requires i < |s.writers| && i < |s.phases|
  {
    s.phases[i].Opened? || s.phases[i].Written? || s.phases[i].Synced? ==>
      Current(s, Temp(s.writers[i])) == Some(s.phases[i].ino)
  }

  lemma StepInPlace(s0: State, s: State, step: Step, i: nat)
    requires Inv(s0, s) && Enabled(s, step) && i < |s.writers| && InPlace(s, i)
    requires step.Sweep? ==> step.pid == s.writers[i].pid
    ensures i < |Do(s, step).writers| && i < |Do(s, step).phases| && InPlace(Do(s, step), i)
  {
    if step.Sweep? {
      if step.name == Temp(s.writers[i]) { OwnSweepIsHarmless(s, i, step); }
    } else {
      CallInPlace(s0, s, step, i);
    }
  }

  lemma CallInPlace(s0: State, s: State, step: Step, i: nat)
    requires Inv(s0, s) && Enabled(s, step) && i < |s.writers| && InPlace(s, i) && !step.Sweep?
    ensures i < |Do(s, step).writers| && i < |Do(s, step).phases| && InPlace(Do(s, step), i)
  {
    assert PhaseOk(s0, s, i);
  }

  /** While only its own process sweeps, a synced write can always be published. */
  lemma {:induction false} NotSweptAway(s0: State, s: State, steps: seq<Step>, s': State, i: nat)
    requires Inv(s0, s) && Runs(s, steps, s') && i < |s.writers| && InPlace(s, i)
    requires SweptOnlyBy(steps, s.writers[i].pid)
    ensures i < |s'.writers| && i < |s'.phases| && (s'.phases[i].Synced? ==> Enabled(s', Replace(i)))
    decreases |steps|
  {
    if steps != [] {
      StepKeepsInv(s0, s, steps[0]);
      StepInPlace(s0, s, steps[0], i);
      assert forall k | 0 <= k < |steps[1..]| :: steps[1..][k] == steps[k + 1];
      StepPreserves(s0, s, steps[0]);
      NotSweptAway(s0, Do(s, steps[0]), steps[1..], s', i);
    }
  }

  // ---------- one call, uninterrupted ----------

  /** Which system calls fail; anything may. `unlink` is the removal of the temp file. */
  datatype Failures = Failures(mkdir: bool, create: bool, write: bool, fsync: bool, replace: bool, dirSync: bool, unlink: bool)

  /** All calls up to the replacement work, and the temp name is free. */
  predicate Publishes(f: Failures, free: bool) {
    free && !f.mkdir && !f.create && !f.write && !f.fsync && !f.replace
  }

  /** Only these names may refer to something else. */
  ghost predicate OthersSame(s: State, s': State, names: set<string>) {
    forall n | n !in names :: Hist(s', n).values == Hist(s, n).values
  }

  class Disk {
    var state: State

    constructor (s: State)
      ensures state == s
    {
      state := s;
    }

    /** One system call; `steps` is what has been done since `start`. */
    method Take(step: Step, ghost start: State, ghost steps: seq<Step>) returns (ghost more: seq<Step>)
      requires Enabled(state, step) && Runs(start, steps, state)
      modifies this
      ensures state == Do(old(state), step) && more == steps + [step] && Runs(start, more, state)
    {
      RunsSnoc(start, steps, state, step);
      more := steps + [step];
      state := Do(state, step);
    }

    /** The temp file is removed, if there is one and that works. */
    method CleanUp(i: nat, f: Failures, ghost start: State, ghost steps: seq<Step>) returns (ghost more: seq<Step>)
      requires Enabled(state, Reraise(i)) && Runs(start, steps, state) && Writers(state.writers)
      modifies this
      ensures Runs(start, more, state) && |state.phases| == |old(state).phases| && state.phases[i].Raised?
      ensures TargetKept(old(state), state, i) && OthersSame(old(state), state, {Temp(state.writers[i])})
      ensures !f.unlink ==> Current(state, Temp(state.writers[i])).None?
      ensures f.unlink ==> state.names == old(state).names
    {
      if Current(state, Temp(state.writers[i])).Some? && !f.unlink {
        more := Take(Unlink(i), start, steps);
      } else {
        more := Take(Reraise(i), start, steps);
      }
    }

    /** The open temp file is written and synced. */
    method Fill(i: nat, f: Failures, ghost start: State, ghost steps: seq<Step>) returns (ok: bool, ghost more: seq<Step>)
      requires Enabled(state, Write(i)) && Runs(start, steps, state) && |state.writers| == |state.phases|
      requires Current(state, Temp(state.writers[i])).Some?
      modifies this
      ensures Runs(start, more, state) && |state.phases| == |old(state).phases|
      ensures state.writers == old(state).writers && state.names == old(state).names
      ensures ok == (!f.write && !f.fsync)
      ensures if ok then state.phases[i].Synced? else state.phases[i].Failing?
    {
      more := steps;
      if !f.write {
        more := Take(Write(i), start, more);
        if !f.fsync {
          more := Take(Fsync(i), start, more);
          return true, more;
        }
      }
      more := Take(WriteFails(i), start, more);
      ok := false;
    }

    /** `parent.mkdir(parents=True, exist_ok=True)`. */
    method MakeDirectory(i: nat, f: Failures, ghost start: State) returns (ok: bool, ghost steps: seq<Step>)
      requires Enabled(state, Mkdir(i)) && start == state && |state.writers| == |state.phases|
      modifies this
      ensures Runs(start, steps, state) && |state.writers| == |state.phases| == |old(state).phases|
      ensures TargetKept(old(state), state, i) && state.names == old(state).names
      ensures ok == !f.mkdir
      ensures if ok then state.phases[i].Ready? && Existed(state) else state.phases[i].Raised?
    {
      if f.mkdir {
        steps := Take(MkdirFails(i), start, []);
      } else {
        steps := Take(Mkdir(i), start, []);
      }
      ok := !f.mkdir;
    }

    /** The temp file is created, written and synced; any of the calls may fail. */
    method Prepare(i: nat, f: Failures, ghost start: State, ghost made: seq<Step>) returns (ok: bool, ghost steps: seq<Step>)
      requires i < |state.writers| == |state.phases| && state.phases[i].Ready? && Runs(start, made, state) && Writers(state.writers)
      modifies this
      ensures Runs(start, steps, state) && |state.writers| == |state.phases| == |old(state).phases|
      ensures TargetKept(old(state), state, i) && OthersSame(old(state), state, {Temp(state.writers[i])})
      ensures ok == (Current(old(state), Temp(state.writers[i])).None? && !f.create && !f.write && !f.fsync)
      ensures if ok then state.phases[i].Synced? && Current(state, Temp(state.writers[i])).Some? else state.phases[i].Failing?
    {
      steps := made;
      if f.create || Current(state, Temp(state.writers[i])).Some? {
        steps := Take(CreateFails(i), start, steps);
        ok := false;
      } else {
        steps := Take(Create(i), start, steps);
        ok, steps := Fill(i, f, start, steps);
      }
    }

    /** The file takes the target's place and, where wanted and possible, the directory is synced. */
    method Publish(i: nat, f: Failures, ghost start: State, ghost steps: seq<Step>) returns (ok: bool, ghost more: seq<Step>)
      requires Enabled(state, Replace(i)) && Runs(start, steps, state) && |state.phases| == |state.writers| && Writers(state.writers)
      modifies this
      ensures Runs(start, more, state) && |state.phases| == |old(state).phases| && state.writers == old(state).writers
      ensures ok == !f.replace
      ensures !ok ==> state.phases[i].Failing? && TargetKept(old(state), state, i) && state.names == old(state).names
      ensures ok ==> Appended(old(state), state, i) && Current(state, Temp(state.writers[i])).None?
      ensures ok ==> state.phases[i] == Returned(|Hist(old(state), state.writers[i].target).values|, state.writers[i].syncDir && !f.dirSync)
      ensures OthersSame(old(state), state, {Temp(state.writers[i]), state.writers[i].target})
    {
      if f.replace {
        more := Take(ReplaceFails(i), start, steps);
        return false, more;
      }
      more := Take(Replace(i), start, steps);
      if state.writers[i].syncDir && !f.dirSync {
        more := Take(SyncDir(i), start, more);
      } else {
        more := Take(Return(i), start, more);
      }
      ok := true;
    }

    /** `atomic_write_bytes` with nothing else running is a run of the protocol. It returns exactly if no call
        up to the replacement fails, with the target holding exactly the data; else it raises with the target
        untouched. The temp file is gone unless its removal failed, and no other name is touched. Where the
        directory existed and syncing it was wanted and worked, the data survives every crash. */
    method AtomicWriteBytes(i: nat, f: Failures, ghost s0: State) returns (ok: bool, ghost steps: seq<Step>)
      requires Inv(s0, state) && i < |state.writers| && state.phases[i].Start?
      modifies this
      ensures Runs(old(state), steps, state) && |state.phases| == |old(state).phases| && state.writers == old(state).writers
      ensures ok == Publishes(f, Current(old(state), Temp(state.writers[i])).None?)
      ensures ok ==> Appended(old(state), state, i) && Contains(state, state.writers[i].target, state.writers[i].data)
      ensures ok ==> state.phases[i].dirSynced == (state.writers[i].syncDir && !f.dirSync)
      ensures !ok ==> state.phases[i].Raised? && TargetKept(old(state), state, i)
      ensures ok || (!f.mkdir && !f.unlink) ==> Current(state, Temp(state.writers[i])).None?
      ensures f.mkdir ==> state.names == old(state).names
      ensures OthersSame(old(state), state, {Temp(state.writers[i]), state.writers[i].target})
      ensures ok && state.writers[i].syncDir && !f.dirSync && Existed(s0) ==>
                forall c :: MayRecover(state, state.writers[i].target, c) ==> c == Some(state.writers[i].data)
    {
      ghost var start := state;
      ok, steps := MakeDirectory(i, f, start);
      if !ok {
        return;
      }
      ok, steps := Prepare(i, f, start, steps);
      if ok {
        ok, steps := Publish(i, f, start, steps);
      }
      if !ok {
        steps := CleanUp(i, f, start, steps);
      }
      ReturnedContains(s0, start, steps, state, i);
    }
  }

  predicate TargetKept(s: State, s': State, i: nat)
    requires i < |s.writers|
  {
    s'.writers == s.writers && Hist(s', s.writers[i].target) == Hist(s, s.writers[i].target)
  }

  /** One value more at the target, the last one. */
  predicate Appended(s: State, s': State, i: nat)
    requires i < |s.writers| && i < |s'.phases|
  {
    var h, h' := Hist(s, s.writers[i].target), Hist(s', s.writers[i].target);
    && |h'.values| == |h.values| + 1 && h'.values[..|h.values|] == h.values
    && s'.phases[i].Returned? && s'.phases[i].at == |h.values|
  }

  predicate Contains(s: State, name: string, data: Content) {
    Current(s, name).Some? && Holds(s, Current(s, name).value, data)
  }

  lemma ReturnedContains(s0: State, s: State, steps: seq<Step>, s': State, i: nat)
    requires Inv(s0, s) && Runs(s, steps, s') && i < |s.writers| && s'.writers == s.writers && |s'.phases| == |s.phases|
    ensures s'.phases[i].Returned? && Appended(s, s', i) ==> Contains(s', s.writers[i].target, s.writers[i].data)
    ensures s'.phases[i].Returned? && Appended(s, s', i) && s'.phases[i].dirSynced && Existed(s0) ==>
              forall c :: MayRecover(s', s.writers[i].target, c) ==> c == Some(s.writers[i].data)
  {
    RunsKeep(s0, s, steps, s');
    assert PhaseOk(s0, s', i);
    if s'.phases[i].Returned? && Appended(s, s', i) && s'.phases[i].dirSynced && Existed(s0) {
      forall c | MayRecover(s', s.writers[i].target, c) ensures c == Some(s.writers[i].data) {
        JustWritten(s0, s', i, c);
      }
    }
  }

  /** The payload published last survives, its directory entry synced. */
  lemma JustWritten(s0: State, s: State, i: nat, c: Option<Content>)
    requires Inv(s0, s) && i < |s.writers| && s.phases[i].Returned? && s.phases[i].dirSynced && Existed(s0)
    requires |Hist(s, s.writers[i].target).values| == s.phases[i].at + 1 && MayRecover(s, s.writers[i].target, c)
    ensures c == Some(s.writers[i].data)
  {
    KeptNames(s0, s, i, c);
    assert PhaseOk(s0, s, i);
  }
}
