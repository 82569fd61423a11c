/** Schema migrations: the registry, the inheritance-aware chain and its application
    (jvspatial/core/migrations.py). */
module Migrations {
  datatype Option<+T> = None | Some(value: T)

  /** A persisted record: its version stamp, absent in legacy records, and everything else. */
  datatype Record = Record(version: Option<int>, body: map<string, string>)

  /** A step gets the record with the stamp it was stored under. */
  type Migrate = Record -> Record

  type Class = string

  datatype Registration = Registration(cls: Class, start: int, end: int, fn: Migrate)

  datatype Chain = Steps(steps: seq<Registration>) | Downgrade | Missing(version: int)

  const LEGACY_VERSION := 1

  // ---------- one step ----------

  /** The steps a class registers from a version. */
  function Candidates(regs: seq<Registration>, cls: Class, version: int): (r: seq<Registration>)
    ensures forall i | 0 <= i < |r| :: r[i].cls == cls && r[i].start == version
  {
    if regs == [] then []
    else
      var n := |regs| - 1;
      Candidates(regs[..n], cls, version) + if regs[n].cls == cls && regs[n].start == version then [regs[n]] else []
  }

  /** The first of those with the smallest end. */
  function Smallest(regs: seq<Registration>): (k: nat)
    requires regs != []
    ensures k < |regs| && forall i | 0 <= i < |regs| :: regs[k].end <= regs[i].end
  {
    if |regs| == 1 then 0
    else
      var n := |regs| - 1;
      var k := Smallest(regs[..n]);
      if regs[n].end < regs[k].end then n else k
  }

  /** `_resolve_step`: the class nearest in the method resolution order decides alone. */
  function StepAt(regs: seq<Registration>, mro: seq<Class>, version: int): Option<Registration>
    decreases |mro|
  {
    if mro == [] then None
    else
      var own := Candidates(regs, mro[0], version);
      if own != [] then Some(own[Smallest(own)]) else StepAt(regs, mro[1..], version)
  }

  /** What the step is: of the nearest class that registers anything from the version, the registration
      with the smallest end. */
  ghost predicate IsStep(regs: seq<Registration>, mro: seq<Class>, version: int, k: nat, i: nat) {
    && k < |mro| && i < |regs| && regs[i].cls == mro[k] && regs[i].start == version
    && (forall j | 0 <= j < |regs| && regs[j].start == version :: regs[j].cls !in mro[..k])
    && (forall j | 0 <= j < |regs| && regs[j].start == version && regs[j].cls == mro[k] :: regs[i].end <= regs[j].end)
  }

  lemma {:induction false} CandidateIndex(regs: seq<Registration>, cls: Class, version: int, c: nat) returns (i: nat)
    requires c < |Candidates(regs, cls, version)|
    ensures i < |regs| && regs[i] == Candidates(regs, cls, version)[c]
    decreases |regs|
  {
    var n := |regs| - 1;
    if c < |Candidates(regs[..n], cls, version)| {
      i := CandidateIndex(regs[..n], cls, version, c);
    } else {
      i := n;
    }
  }

  lemma {:induction false} CandidateOf(regs: seq<Registration>, cls: Class, version: int, i: nat) returns (c: nat)
    requires i < |regs| && regs[i].cls == cls && regs[i].start == version
    ensures c < |Candidates(regs, cls, version)| && Candidates(regs, cls, version)[c] == regs[i]
    decreases |regs|
  {
    var n := |regs| - 1;
    if i < n {
      c := CandidateOf(regs[..n], cls, version, i);
    } else {
      c := |Candidates(regs[..n], cls, version)|;
    }
  }

  /** The step taken from a version is the override-aware one, and there is none only where no class of
      the resolution order registers any. */
  lemma {:induction false} StepAtIs(regs: seq<Registration>, mro: seq<Class>, version: int) returns (k: nat, i: nat)
    ensures match StepAt(regs, mro, version)
            case Some(r) => IsStep(regs, mro, version, k, i) && r == regs[i]
            case None => forall j | 0 <= j < |regs| && regs[j].start == version :: regs[j].cls !in mro
    decreases |mro|
  {
    k, i := 0, 0;
    if mro != [] {
      var own := Candidates(regs, mro[0], version);
      forall j | 0 <= j < |regs| && regs[j].start == version && regs[j].cls == mro[0]
        ensures own != [] && own[Smallest(own)].end <= regs[j].end
      {
        var c := CandidateOf(regs, mro[0], version, j);
        assert own[c] == regs[j];
      }
      if own != [] {
        i := CandidateIndex(regs, mro[0], version, Smallest(own));
      } else {
        k, i := StepAtIs(regs, mro[1..], version);
        assert mro == [mro[0]] + mro[1..];
        k := k + 1;
        if StepAt(regs, mro, version).Some? {
          assert mro[..k] == [mro[0]] + mro[1..][..k - 1];
        }
      }
    }
  }

  // ---------- the chain ----------

  predicate Ascending(regs: seq<Registration>) {
    forall i | 0 <= i < |regs| :: regs[i].start < regs[i].end
  }

  lemma StepAscends(regs: seq<Registration>, mro: seq<Class>, version: int)
    requires Ascending(regs) && StepAt(regs, mro, version).Some?
    ensures StepAt(regs, mro, version).value.start == version < StepAt(regs, mro, version).value.end
  {
    var k, i := StepAtIs(regs, mro, version);
  }

  /** The steps taken from a version until the target is reached or passed. */
  function ChainFrom(regs: seq<Registration>, mro: seq<Class>, cursor: int, target: int): Chain
    requires Ascending(regs)
    decreases target - cursor
  {
    if cursor >= target then Steps([])
    else
      match StepAt(regs, mro, cursor)
      case None => Missing(cursor)
      case Some(r) =>
        StepAscends(regs, mro, cursor);
        match ChainFrom(regs, mro, r.end, target)
        case Steps(rest) => Steps([r] + rest)
        case other => other
  }

  /** `get_chain`. */
  function GetChain(regs: seq<Registration>, mro: seq<Class>, start: int, target: int): Chain
    requires Ascending(regs)
  {
    if start > target then Downgrade else ChainFrom(regs, mro, start, target)
  }

  /** The version a chain ends at. */
  function Landing(start: int, steps: seq<Registration>): int {
    if steps == [] then start else steps[|steps| - 1].end
  }

  /** The chain is a strictly ascending walk: each step starts where the one before ended. */
  predicate Walks(start: int, steps: seq<Registration>) {
    && (steps != [] ==> steps[0].start == start)
    && (forall i | 0 <= i < |steps| :: steps[i].start < steps[i].end)
    && (forall i, j | 0 <= i && j == i + 1 < |steps| :: steps[j].start == steps[i].end)
  }

  /** The steps are those the registry takes at their versions, all below the target. */
  ghost predicate Taken(regs: seq<Registration>, mro: seq<Class>, steps: seq<Registration>, target: int) {
    forall i | 0 <= i < |steps| :: steps[i].start < target && StepAt(regs, mro, steps[i].start) == Some(steps[i])
  }

  /** A chain starts at its version and ascends strictly; its steps are those the registry takes there;
      only the last may reach or pass the target. */
  lemma {:induction false} ChainWalks(regs: seq<Registration>, mro: seq<Class>, cursor: int, target: int)
    requires Ascending(regs) && ChainFrom(regs, mro, cursor, target).Steps? && cursor <= target
    ensures var steps := ChainFrom(regs, mro, cursor, target).steps;
      && Walks(cursor, steps) && Landing(cursor, steps) >= target
      && Taken(regs, mro, steps, target)
    decreases target - cursor
  {
    if cursor < target {
      var r := StepAt(regs, mro, cursor).value;
      StepAscends(regs, mro, cursor);
      var rest := ChainFrom(regs, mro, r.end, target).steps;
      if r.end < target {
        ChainWalks(regs, mro, r.end, target);
      }
    }
  }

  lemma {:induction false} NeverDowngrade(regs: seq<Registration>, mro: seq<Class>, cursor: int, target: int)
    requires Ascending(regs)
    ensures !ChainFrom(regs, mro, cursor, target).Downgrade?
    ensures cursor >= target ==> ChainFrom(regs, mro, cursor, target).Steps?
    decreases target - cursor
  {
    if cursor < target && StepAt(regs, mro, cursor).Some? {
      StepAscends(regs, mro, cursor);
      NeverDowngrade(regs, mro, StepAt(regs, mro, cursor).value.end, target);
    }
  }

  // ---------- stages ----------

  /** Going to an intermediate version and on from where that chain lands. */
  lemma {:induction false} ChainSplits(regs: seq<Registration>, mro: seq<Class>, a: int, b: int, c: int)
    requires Ascending(regs) && a <= b <= c && ChainFrom(regs, mro, a, b).Steps?
    ensures var first := ChainFrom(regs, mro, a, b).steps;
            var rest := ChainFrom(regs, mro, Landing(a, first), c);
            ChainFrom(regs, mro, a, c) == if rest.Steps? then Steps(first + rest.steps) else rest
    decreases b - a
  {
    if a < b {
      var r := StepAt(regs, mro, a).value;
      StepAscends(regs, mro, a);
      var more := ChainFrom(regs, mro, r.end, b).steps;
      assert ([r] + more)[|more|] == if more == [] then r else more[|more| - 1];
      if r.end <= b {
        ChainSplits(regs, mro, r.end, b, c);
        assert forall rest: seq<Registration> :: [r] + more + rest == [r] + (more + rest);
      } else {
        assert more == [];
      }
    } else {
      assert forall rest: seq<Registration> :: [] + rest == rest;
    }
  }

  /** Upgrading in stages takes the same steps as upgrading at once exactly when the first stage lands on
      the intermediate version, unless that is already the last one: a step that jumps past it is
      followed by steps meant for older records. */
  lemma StagedIff(regs: seq<Registration>, mro: seq<Class>, a: int, b: int, c: int)
    requires Ascending(regs) && a <= b <= c
    requires ChainFrom(regs, mro, a, b).Steps? && ChainFrom(regs, mro, b, c).Steps?
    ensures ChainFrom(regs, mro, a, c) == Steps(ChainFrom(regs, mro, a, b).steps + ChainFrom(regs, mro, b, c).steps) <==>
            Landing(a, ChainFrom(regs, mro, a, b).steps) == b || b == c
  {
    var first, second := ChainFrom(regs, mro, a, b).steps, ChainFrom(regs, mro, b, c).steps;
    var landing := Landing(a, first);
    ChainSplits(regs, mro, a, b, c);
    ChainWalks(regs, mro, a, b);
    var rest := ChainFrom(regs, mro, landing, c);
    if landing != b && b != c {
      ChainWalks(regs, mro, b, c);
      assert second != [] && second[0].start == b;
      if rest.Steps? && rest.steps != [] {
        ChainWalks(regs, mro, landing, c);
        assert rest.steps[0].start == landing;
      }
      assert rest.Steps? ==> first + rest.steps != first + second by { SameTail(first, rest, second); }
    }
  }

  lemma SameTail(first: seq<Registration>, rest: Chain, second: seq<Registration>)
    ensures rest.Steps? && first + rest.steps == first + second ==> rest.steps == second
  {
    if rest.Steps? && first + rest.steps == first + second {
      assert (first + rest.steps)[|first|..] == rest.steps && (first + second)[|first|..] == second;
    }
  }

  /** No step starts below the version and ends above it. */
  predicate NoStepCrosses(regs: seq<Registration>, b: int) {
    forall i | 0 <= i < |regs| && regs[i].start < b :: regs[i].end <= b
  }

  lemma NothingCrossesLands(regs: seq<Registration>, mro: seq<Class>, a: int, b: int)
    requires Ascending(regs) && a <= b && NoStepCrosses(regs, b) && ChainFrom(regs, mro, a, b).Steps?
    ensures Landing(a, ChainFrom(regs, mro, a, b).steps) == b
  {
    var steps := ChainFrom(regs, mro, a, b).steps;
    ChainWalks(regs, mro, a, b);
    if steps != [] {
      var k, i := StepAtIs(regs, mro, steps[|steps| - 1].start);
    }
  }

  // ---------- application ----------

  /** `for step in chain: out = step(out)`. */
  function Run(steps: seq<Registration>, r: Record): Record {
    if steps == [] then r else Run(steps[1..], steps[0].fn(r))
  }

  /** The step does not look at the version stamp. */
  ghost predicate IgnoresVersion(fn: Migrate) {
    forall r: Record, q: Record | r.body == q.body :: fn(r).body == fn(q).body
  }

  ghost predicate AllIgnoreVersion(steps: seq<Registration>) {
    forall i | 0 <= i < |steps| :: IgnoresVersion(steps[i].fn)
  }

  datatype Applied = Applied(record: Record, migrated: bool) | MigrationError

  function VersionOf(r: Record): int {
    if r.version.Some? then r.version.value else LEGACY_VERSION
  }

  function Upgraded(regs: seq<Registration>, mro: seq<Class>, target: int, r: Record): Applied
    requires Ascending(regs)
  {
    if VersionOf(r) == target then Applied(r, false)
    else
      match GetChain(regs, mro, VersionOf(r), target)
      case Steps(steps) => Applied(Run(steps, r).(version := Some(target)), true)
      case _ => MigrationError
  }

  lemma {:induction false} RunSplits(a: seq<Registration>, b: seq<Registration>, r: Record)
    ensures Run(a + b, r) == Run(b, Run(a, r))
    decreases |a|
  {
    if a == [] {
      assert a + b == b;
    } else {
      assert (a + b)[1..] == a[1..] + b;
      RunSplits(a[1..], b, a[0].fn(r));
    }
  }

  /** Steps that ignore the stamp compute the same from records that differ only in it. */
  lemma {:induction false} RunIgnoresVersion(steps: seq<Registration>, r: Record, q: Record)
    requires r.body == q.body && forall i | 0 <= i < |steps| :: IgnoresVersion(steps[i].fn)
    ensures Run(steps, r).body == Run(steps, q).body
    decreases |steps|
  {
    if steps != [] {
      assert IgnoresVersion(steps[0].fn);
      assert forall i | 0 <= i < |steps[1..]| :: steps[1..][i] == steps[i + 1];
      RunIgnoresVersion(steps[1..], steps[0].fn(r), steps[0].fn(q));
    }
  }

  /** Stamping the record between two runs of steps does not show. */
  lemma StampBetween(first: seq<Registration>, second: seq<Registration>, r: Record, b: int, c: int)
    requires forall i | 0 <= i < |second| :: IgnoresVersion(second[i].fn)
    ensures Run(first + second, r).(version := Some(c)) == Run(second, Run(first, r).(version := Some(b))).(version := Some(c))
  {
    RunSplits(first, second, r);
    RunIgnoresVersion(second, Run(first, r), Run(first, r).(version := Some(b)));
  }

  lemma UpgradedBy(regs: seq<Registration>, mro: seq<Class>, target: int, r: Record, steps: seq<Registration>)
    requires Ascending(regs) && VersionOf(r) < target
    ensures ChainFrom(regs, mro, VersionOf(r), target) == Steps(steps) ==>
              Upgraded(regs, mro, target, r) == Applied(Run(steps, r).(version := Some(target)), true)
    ensures Upgraded(regs, mro, target, r).Applied? ==> ChainFrom(regs, mro, VersionOf(r), target).Steps?
  {
  }

  /** A record brought to an intermediate version and saved, and later to the final one, ends up as if
      brought there at once, if the first chain lands on the intermediate version and the steps after it
      do not look at the stamp. */
  lemma StagesAgree(regs: seq<Registration>, mro: seq<Class>, b: int, c: int, r: Record)
    requires Ascending(regs) && VersionOf(r) < b < c
    requires ChainFrom(regs, mro, VersionOf(r), b).Steps? && Landing(VersionOf(r), ChainFrom(regs, mro, VersionOf(r), b).steps) == b
    requires ChainFrom(regs, mro, b, c).Steps? && AllIgnoreVersion(ChainFrom(regs, mro, b, c).steps)
    ensures Upgraded(regs, mro, c, r) == Upgraded(regs, mro, c, Upgraded(regs, mro, b, r).record)
  {
    var mid := Upgraded(regs, mro, b, r).record;
    var first, second := ChainFrom(regs, mro, VersionOf(r), b).steps, ChainFrom(regs, mro, b, c).steps;
    UpgradedBy(regs, mro, b, r, first);
    UpgradedBy(regs, mro, c, mid, second);
    StagedIff(regs, mro, VersionOf(r), b, c);
    UpgradedBy(regs, mro, c, r, first + second);
    StampBetween(first, second, r, b, c);
  }

  // ---------- whatever the steps do ----------

  /** The same registrations, their functions aside. */
  ghost predicate SameShape(regs: seq<Registration>, others: seq<Registration>) {
    |regs| == |others| && forall i | 0 <= i < |regs| :: others[i] == regs[i].(fn := others[i].fn)
  }

  /** Whatever the steps do to the records of version `a`, as long as those from `b` on do not look at the
      stamp, stages and one upgrade give the same. */
  ghost predicate StagesAlwaysAgree(regs: seq<Registration>, mro: seq<Class>, a: int, b: int, c: int) {
    forall others, r | SameShape(regs, others) && Ascending(others) && VersionOf(r) == a && LaterIgnoreVersion(others, mro, b, c) ::
      Upgraded(others, mro, b, r).Applied?
      && Upgraded(others, mro, c, r) == Upgraded(others, mro, c, Upgraded(others, mro, b, r).record)
  }

  ghost predicate LaterIgnoreVersion(regs: seq<Registration>, mro: seq<Class>, b: int, c: int)
    requires Ascending(regs)
  {
    ChainFrom(regs, mro, b, c).Steps? ==> AllIgnoreVersion(ChainFrom(regs, mro, b, c).steps)
  }

  lemma {:induction false} CandidatesShape(regs: seq<Registration>, others: seq<Registration>, cls: Class, version: int)
    requires SameShape(regs, others)
    ensures SameShape(Candidates(regs, cls, version), Candidates(others, cls, version))
  {
    if regs != [] {
      var n := |regs| - 1;
      CandidatesShape(regs[..n], others[..n], cls, version);
    }
  }

  lemma {:induction false} SmallestShape(regs: seq<Registration>, others: seq<Registration>)
    requires SameShape(regs, others) && regs != []
    ensures Smallest(regs) == Smallest(others)
  {
    if |regs| > 1 {
      var n := |regs| - 1;
      SmallestShape(regs[..n], others[..n]);
    }
  }

  lemma {:induction false} StepShape(regs: seq<Registration>, others: seq<Registration>, mro: seq<Class>, version: int)
    requires SameShape(regs, others)
    ensures match StepAt(regs, mro, version)
            case None => StepAt(others, mro, version).None?
            case Some(r) => StepAt(others, mro, version).Some? && SameShape([r], [StepAt(others, mro, version).value])
    decreases |mro|
  {
    if mro != [] {
      var own, theirs := Candidates(regs, mro[0], version), Candidates(others, mro[0], version);
      CandidatesShape(regs, others, mro[0], version);
      if own != [] {
        SmallestShape(own, theirs);
      } else {
        StepShape(regs, others, mro[1..], version);
      }
    }
  }

  lemma {:induction false} ChainShape(regs: seq<Registration>, others: seq<Registration>, mro: seq<Class>, cursor: int, target: int)
    requires SameShape(regs, others) && Ascending(regs) && Ascending(others)
    ensures match ChainFrom(regs, mro, cursor, target)
            case Steps(steps) =>
              ChainFrom(others, mro, cursor, target).Steps? && SameShape(steps, ChainFrom(others, mro, cursor, target).steps)
            case other => ChainFrom(others, mro, cursor, target) == other
    decreases target - cursor
  {
    if cursor < target {
      StepShape(regs, others, mro, cursor);
      if StepAt(regs, mro, cursor).Some? {
        var r, q := StepAt(regs, mro, cursor).value, StepAt(others, mro, cursor).value;
        StepAscends(regs, mro, cursor);
        assert [r][0].end == [q][0].end;
        ChainShape(regs, others, mro, r.end, target);
      }
    }
  }

  /** A mark left by the steps from version `b`. */
  const MARK := "mark"

  function Marking(start: int, b: int): Migrate {
    if start == b then (r: Record) => r.(body := r.body[MARK := ""]) else (r: Record) => r
  }

  function Marked(regs: seq<Registration>, b: int): seq<Registration> {
    seq(|regs|, i requires 0 <= i < |regs| => regs[i].(fn := Marking(regs[i].start, b)))
  }

  ghost predicate AllMark(steps: seq<Registration>, b: int) {
    forall i | 0 <= i < |steps| :: steps[i].fn == Marking(steps[i].start, b)
  }

  predicate StartsAt(steps: seq<Registration>, b: int) {
    exists i | 0 <= i < |steps| :: steps[i].start == b
  }

  lemma {:induction false} RunMarks(steps: seq<Registration>, b: int, r: Record)
    requires AllMark(steps, b)
    ensures MARK in Run(steps, r).body <==> MARK in r.body || StartsAt(steps, b)
    decreases |steps|
  {
    if steps != [] {
      var rest := steps[1..];
      assert forall i | 0 <= i < |rest| :: rest[i] == steps[i + 1];
      RunMarks(rest, b, steps[0].fn(r));
      if i :| 0 <= i < |steps| && steps[i].start == b {
        assert i > 0 ==> rest[i - 1].start == b;
      }
      if i :| 0 <= i < |rest| && rest[i].start == b {
        assert steps[i + 1].start == b;
      }
    }
  }

  lemma ChainMarks(regs: seq<Registration>, mro: seq<Class>, steps: seq<Registration>, target: int, b: int)
    requires Taken(regs, mro, steps, target) && AllMark(regs, b)
    ensures AllMark(steps, b) && AllIgnoreVersion(steps)
  {
    forall i | 0 <= i < |steps| ensures steps[i].fn == Marking(steps[i].start, b) && IgnoresVersion(steps[i].fn) {
      var k, j := StepAtIs(regs, mro, steps[i].start);
    }
  }

  lemma MarkedShape(regs: seq<Registration>, b: int)
    requires Ascending(regs)
    ensures SameShape(regs, Marked(regs, b)) && Ascending(Marked(regs, b)) && AllMark(Marked(regs, b), b)
  {
  }

  /** A chain from above `b` has no step from `b`. */
  lemma {:induction false} NoneStartsAt(start: int, steps: seq<Registration>, b: int, i: nat)
    requires Walks(start, steps) && b < start && i < |steps|
    ensures b < steps[i].start
  {
    if i > 0 {
      NoneStartsAt(start, steps, b, i - 1);
      assert steps[i].start == steps[i - 1].end;
    }
  }

  /** Upgraded at once past `b`, no step from `b` runs. */
  lemma DirectIsUnmarked(regs: seq<Registration>, mro: seq<Class>, a: int, b: int, c: int)
    requires Ascending(regs) && AllMark(regs, b) && a < b < c && ChainFrom(regs, mro, a, b).Steps?
    requires Landing(a, ChainFrom(regs, mro, a, b).steps) != b
    ensures var u := Upgraded(regs, mro, c, Record(Some(a), map[])); u.Applied? ==> MARK !in u.record.body
  {
    var first := ChainFrom(regs, mro, a, b).steps;
    var landing := Landing(a, first);
    ChainWalks(regs, mro, a, b);
    ChainSplits(regs, mro, a, b, c);
    var rest := ChainFrom(regs, mro, landing, c);
    NeverDowngrade(regs, mro, landing, c);
    if rest.Steps? {
      var steps := first + rest.steps;
      RestWalks(regs, mro, landing, c);
      assert Taken(regs, mro, steps, c);
      ChainMarks(regs, mro, steps, c, b);
      forall i | 0 <= i < |rest.steps| ensures rest.steps[i].start != b { NoneStartsAt(landing, rest.steps, b, i); }
      RunMarks(steps, b, Record(Some(a), map[]));
    }
  }

  lemma RestWalks(regs: seq<Registration>, mro: seq<Class>, cursor: int, target: int)
    requires Ascending(regs) && ChainFrom(regs, mro, cursor, target).Steps?
    ensures Walks(cursor, ChainFrom(regs, mro, cursor, target).steps) && Taken(regs, mro, ChainFrom(regs, mro, cursor, target).steps, target)
  {
    if cursor <= target { ChainWalks(regs, mro, cursor, target); }
  }

  /** Upgraded to `b` first, the step from `b` runs. */
  lemma StagedIsMarked(regs: seq<Registration>, mro: seq<Class>, b: int, c: int, mid: Record)
    requires Ascending(regs) && AllMark(regs, b) && VersionOf(mid) == b < c && ChainFrom(regs, mro, b, c).Steps?
    ensures var u := Upgraded(regs, mro, c, mid); u.Applied? && MARK in u.record.body
  {
    var second := ChainFrom(regs, mro, b, c).steps;
    ChainWalks(regs, mro, b, c);
    ChainMarks(regs, mro, second, c, b);
    assert second[0].start == b;
    RunMarks(second, b, mid);
  }

  /** Stages and one upgrade give every record the same, whatever the steps do, if and only if the first
      chain lands on the intermediate version. */
  lemma StagesAgreeIff(regs: seq<Registration>, mro: seq<Class>, a: int, b: int, c: int)
    requires Ascending(regs) && a < b < c && ChainFrom(regs, mro, a, b).Steps? && ChainFrom(regs, mro, b, c).Steps?
    ensures StagesAlwaysAgree(regs, mro, a, b, c) <==> Landing(a, ChainFrom(regs, mro, a, b).steps) == b
  {
    if Landing(a, ChainFrom(regs, mro, a, b).steps) == b {
      forall others, r | SameShape(regs, others) && Ascending(others) && VersionOf(r) == a && LaterIgnoreVersion(others, mro, b, c)
        ensures Upgraded(others, mro, b, r).Applied?
        ensures Upgraded(others, mro, c, r) == Upgraded(others, mro, c, Upgraded(others, mro, b, r).record)
      {
        ChainShape(regs, others, mro, a, b);
        ChainShape(regs, others, mro, b, c);
        StagesAgree(others, mro, b, c, r);
      }
    } else {
      var others, r := Marked(regs, b), Record(Some(a), map[]);
      MarkedShape(regs, b);
      ChainShape(regs, others, mro, a, b);
      ChainShape(regs, others, mro, b, c);
      RestWalks(others, mro, b, c);
      ChainMarks(others, mro, ChainFrom(others, mro, b, c).steps, c, b);
      UpgradedBy(others, mro, b, r, ChainFrom(others, mro, a, b).steps);
      DirectIsUnmarked(others, mro, a, b, c);
      StagedIsMarked(others, mro, b, c, Upgraded(others, mro, b, r).record);
    }
  }

  /** Bringing a record up a second time changes nothing. */
  lemma UpgradeTwice(regs: seq<Registration>, mro: seq<Class>, target: int, r: Record)
    requires Ascending(regs) && Upgraded(regs, mro, target, r).Applied?
    ensures VersionOf(Upgraded(regs, mro, target, r).record) == target
    ensures Upgraded(regs, mro, target, Upgraded(regs, mro, target, r).record)
            == Applied(Upgraded(regs, mro, target, r).record, false)
  {
  }

  /** `needs_migration`. */
  predicate Needs(r: Record, target: int) {
    VersionOf(r) < target
  }

  /** The version a record counts as: its stamp, or 1 where it has none. */
  predicate Counts(r: Record, version: int) {
    match r.version
    case Some(v) => v == version
    case None => version == 1
  }

  /** A record goes through these steps: each is the one the registry takes at the version reached so far, all
      but the last end below the target, and each gets what the one before returned. */
  ghost predicate GoesThrough(regs: seq<Registration>, mro: seq<Class>, start: int, target: int, steps: seq<Registration>, states: seq<Record>) {
    && steps != [] && |states| == |steps| + 1
    && steps[0].start == start && steps[|steps| - 1].end >= target
    && (forall i | 0 <= i < |steps| :: steps[i].start < target && (exists k: nat, j: nat :: IsStep(regs, mro, steps[i].start, k, j) && regs[j] == steps[i]))
    && (forall i, j | 0 <= i && j == i + 1 < |steps| :: steps[j].start == steps[i].end)
    && (forall i, j | 0 <= i && j == i + 1 < |states| :: states[j] == steps[i].fn(states[i]))
  }

  lemma {:induction false} RunStates(steps: seq<Registration>, r: Record) returns (states: seq<Record>)
    ensures |states| == |steps| + 1 && states[0] == r && states[|steps|] == Run(steps, r)
    ensures forall i, j | 0 <= i && j == i + 1 < |states| :: states[j] == steps[i].fn(states[i])
    decreases |steps|
  {
    states := [r];
    if steps != [] {
      var rest := RunStates(steps[1..], steps[0].fn(r));
      states := [r] + rest;
      forall i, j | 0 <= i && j == i + 1 < |states| ensures states[j] == steps[i].fn(states[i]) {
        if i > 0 { assert rest[i] == steps[1..][i - 1].fn(rest[i - 1]); }
      }
    }
  }

  /** A migrated record is what the last of its steps returned, stamped with the target. */
  lemma MigratedThrough(regs: seq<Registration>, mro: seq<Class>, target: int, r: Record, v: int)
    returns (steps: seq<Registration>, states: seq<Record>)
    requires Ascending(regs) && Counts(r, v) && Upgraded(regs, mro, target, r).Applied? && Upgraded(regs, mro, target, r).migrated
    ensures GoesThrough(regs, mro, v, target, steps, states) && states[0] == r
    ensures Upgraded(regs, mro, target, r).record == states[|steps|].(version := Some(target))
  {
    steps := ChainFrom(regs, mro, v, target).steps;
    ChainWalks(regs, mro, v, target);
    states := RunStates(steps, r);
    forall i | 0 <= i < |steps| ensures exists k: nat, j: nat :: IsStep(regs, mro, steps[i].start, k, j) && regs[j] == steps[i] {
      var k, j := StepAtIs(regs, mro, steps[i].start);
    }
  }

  /** Only a record below its class's version is migrated, and then no step was missing; one at that version is
      left as it is; it fails when the record is ahead of its class, or a step is missing. */
  lemma MigratedIff(regs: seq<Registration>, mro: seq<Class>, target: int, r: Record, v: int)
    requires Ascending(regs) && Counts(r, v)
    ensures var u := Upgraded(regs, mro, target, r);
      && (u.Applied? && u.migrated <==> v < target && ChainFrom(regs, mro, v, target).Steps?)
      && (u == Applied(r, false) <==> v == target)
      && (u.MigrationError? <==> v > target || ChainFrom(regs, mro, v, target).Missing?)
      && (u.Applied? ==> Counts(u.record, target))
      && (Needs(r, target) <==> v < target)
  {
    NeverDowngrade(regs, mro, v, target);
  }

  // ---------- the registry ----------

  /** A persisted record in memory, changed in place; `stepsRun` counts the steps it went through. */
  class Document {
    var record: Record
    ghost var stepsRun: nat

    constructor (r: Record)
      ensures record == r && stepsRun == 0
    {
      record := r;
      stepsRun := 0;
    }
  }

  class Registry {
    var migrations: seq<Registration>

    constructor ()
      ensures Valid() && migrations == []
    {
      migrations := [];
    }

    /** Steps go up, and no class has two between the same versions. */
    predicate Valid()
      reads this
    {
      Ascending(migrations) && forall i, j | 0 <= i < j < |migrations| ::
        (migrations[i].cls, migrations[i].start, migrations[i].end) != (migrations[j].cls, migrations[j].start, migrations[j].end)
    }

    predicate Registered(cls: Class, start: int, end: int)
      reads this
    {
      exists i | 0 <= i < |migrations| :: migrations[i].cls == cls && migrations[i].start == start && migrations[i].end == end
    }

    method Register(cls: Class, start: int, end: int, fn: Migrate) returns (ok: bool)
      requires Valid()
      modifies this
      ensures Valid() && (ok <==> start < end && !old(Registered(cls, start, end)))
      ensures migrations == if ok then old(migrations) + [Registration(cls, start, end, fn)] else old(migrations)
    {
      if start >= end {
        return false;
      }
      if Registered(cls, start, end) {
        return false;
      }
      migrations := migrations + [Registration(cls, start, end, fn)];
      ok := true;
    }

    /** What one class registers from a version. */
    method Collect(cls: Class, version: int) returns (candidates: seq<Registration>)
      ensures candidates == Candidates(migrations, cls, version)
    {
      candidates := [];
      for i := 0 to |migrations|
        invariant candidates == Candidates(migrations[..i], cls, version)
      {
        assert migrations[..i + 1][..i] == migrations[..i];
        if migrations[i].cls == cls && migrations[i].start == version {
          candidates := candidates + [migrations[i]];
        }
      }
      assert migrations[..|migrations|] == migrations;
    }

    method ResolveStep(mro: seq<Class>, version: int) returns (step: Option<Registration>)
      ensures step == StepAt(migrations, mro, version)
    {
      for k := 0 to |mro|
        invariant StepAt(migrations, mro, version) == StepAt(migrations, mro[k..], version)
      {
        assert mro[k..][1..] == mro[k + 1..];
        var candidates := Collect(mro[k], version);
        if candidates != [] {
          return Some(candidates[Smallest(candidates)]);
        }
      }
      step := None;
    }

    method ChainOf(mro: seq<Class>, start: int, target: int) returns (chain: Chain)
      requires Valid()
      ensures chain == GetChain(migrations, mro, start, target)
      ensures start == target ==> chain == Steps([])
      ensures start > target <==> chain == Downgrade
    {
      if start == target {
        return Steps([]);
      }
      if start > target {
        return Downgrade;
      }
      var steps: seq<Registration>, cursor := [], start;
      while cursor < target
        invariant GetChain(migrations, mro, start, target) == After(steps, ChainFrom(migrations, mro, cursor, target))
        decreases target - cursor
      {
        var step := ResolveStep(mro, cursor);
        if step.None? {
          return Missing(cursor);
        }
        StepAscends(migrations, mro, cursor);
        steps, cursor := steps + [step.value], step.value.end;
      }
      assert steps + [] == steps;
      chain := Steps(steps);
    }

    /** `apply_migrations`: the whole chain is found before any of it runs, so a failure leaves the record
        as it was. */
    method Apply(doc: Document, mro: seq<Class>, target: int) returns (ok: bool, migrated: bool)
      requires Valid()
      modifies doc
      ensures match Upgraded(migrations, mro, target, old(doc.record))
              case Applied(r, m) => ok && migrated == m && doc.record == r
              case MigrationError => !ok && !migrated && doc.record == old(doc.record) && doc.stepsRun == old(doc.stepsRun)
      ensures ok && !migrated ==> doc.stepsRun == old(doc.stepsRun)
      ensures migrated ==>
                var chain := GetChain(migrations, mro, VersionOf(old(doc.record)), target);
                chain.Steps? && doc.stepsRun == old(doc.stepsRun) + |chain.steps|
    {
      var version := VersionOf(doc.record);
      if version == target {
        return true, false;
      }
      if version > target {
        return false, false;
      }
      var chain := ChainOf(mro, version, target);
      if !chain.Steps? {
        return false, false;
      }
      for i := 0 to |chain.steps|
        invariant Run(chain.steps, old(doc.record)) == Run(chain.steps[i..], doc.record)
        invariant doc.stepsRun == old(doc.stepsRun) + i
      {
        assert chain.steps[i..][1..] == chain.steps[i + 1..];
        doc.record := chain.steps[i].fn(doc.record);
        doc.stepsRun := doc.stepsRun + 1;
      }
      doc.record := doc.record.(version := Some(target));
      return true, true;
    }
  }

  /** Steps already collected, then the rest of a chain. */
  function After(steps: seq<Registration>, rest: Chain): Chain {
    if rest.Steps? then Steps(steps + rest.steps) else rest
  }

  // ---------- where stages differ ----------

  /** With a step from 1 to 3 and one from 2 to 3, a record taken to 2 and then to 3 goes through both;
      taken to 3 at once it goes through the first alone. */
  lemma OvershootRunsTwice(cls: Class, jump: Migrate, small: Migrate)
    ensures var regs := [Registration(cls, 1, 3, jump), Registration(cls, 2, 3, small)];
      && ChainFrom(regs, [cls], 1, 2) == Steps([regs[0]]) && ChainFrom(regs, [cls], 2, 3) == Steps([regs[1]])
      && ChainFrom(regs, [cls], 1, 3) == Steps([regs[0]])
  {
    var regs := [Registration(cls, 1, 3, jump), Registration(cls, 2, 3, small)];
    assert regs[..1] == [regs[0]] && regs[..1][..0] == [];
    assert Candidates(regs[..1], cls, 1) == [regs[0]] && Candidates(regs[..1], cls, 2) == [];
    assert Candidates(regs, cls, 1) == [regs[0]] && Candidates(regs, cls, 2) == [regs[1]];
    assert StepAt(regs, [cls], 1) == Some(regs[0]) && StepAt(regs, [cls], 2) == Some(regs[1]);
  }

  /** A class that registers any step from a version hides its parents' steps from there, also those to
      other versions: here the child jumps to 3 and the parent's step to 2 is not taken. */
  lemma OverrideHidesAll(child: Class, parent: Class, jump: Migrate, small: Migrate)
    requires child != parent
    ensures var regs := [Registration(parent, 1, 2, small), Registration(child, 1, 3, jump)];
            StepAt(regs, [child, parent], 1) == Some(regs[1])
  {
    var regs := [Registration(parent, 1, 2, small), Registration(child, 1, 3, jump)];
    assert regs[..1] == [regs[0]] && regs[..1][..0] == [];
    assert Candidates(regs[..1], child, 1) == [];
    assert Candidates(regs, child, 1) == [regs[1]];
  }
}
