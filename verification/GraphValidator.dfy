/** The graph audit of jvspatial/core/validate.py: two worklist searches against what they look for. */
module GraphValidator {
  import opened SetListing

  datatype Option<+T> = None | Some(value: T)

  type Id = string

  /** An edge record; its ends are read from the record or, for older ones, from its context. */
  datatype Edge = Edge(id: string, source: Option<Id>, target: Option<Id>, bidirectional: bool)

  datatype Node = Node(id: Id, isRoot: bool)

  datatype Report = Report(orphans: set<Id>, cycleNodes: set<Id>, dangling: set<string>, nodesVisited: nat, edgesVisited: nat)

  // ---------- what is looked for ----------

  type Arrows = seq<(Id, Id)>

  /** An edge that enters the graph: both ends given and, where that is checked, both existing. */
  predicate Counted(e: Edge, ids: set<Id>, check: bool) {
    e.source.Some? && e.target.Some? && (check ==> e.source.value in ids && e.target.value in ids)
  }

  function EdgeLinks(e: Edge, ids: set<Id>, check: bool): Arrows {
    if !Counted(e, ids, check) then []
    else [(e.source.value, e.target.value)] + if e.bidirectional then [(e.target.value, e.source.value)] else []
  }

  function EdgeDirected(e: Edge, ids: set<Id>, check: bool): Arrows {
    if Counted(e, ids, check) && !e.bidirectional then [(e.source.value, e.target.value)] else []
  }

  /** The strictly directed edges. */
  function Directed(edges: seq<Edge>, ids: set<Id>, check: bool): Arrows {
    if edges == [] then []
    else
      var n := |edges| - 1;
      Directed(edges[..n], ids, check) + EdgeDirected(edges[n], ids, check)
  }

  /** All edges, those marked bidirectional in both directions. */
  function Links(edges: seq<Edge>, ids: set<Id>, check: bool): Arrows {
    if edges == [] then []
    else
      var n := |edges| - 1;
      Links(edges[..n], ids, check) + EdgeLinks(edges[n], ids, check)
  }

  function Swapped(arrows: Arrows): (r: Arrows)
    ensures |r| == |arrows| && forall k | 0 <= k < |r| :: r[k] == (arrows[k].1, arrows[k].0)
  {
    seq(|arrows|, k requires 0 <= k < |arrows| => (arrows[k].1, arrows[k].0))
  }

  predicate IsPath(arrows: Arrows, p: seq<Id>) {
    p != [] && forall k | 0 <= k < |p| - 1 :: (p[k], p[k + 1]) in arrows
  }

  predicate Leads(arrows: Arrows, p: seq<Id>, u: Id, v: Id) {
    IsPath(arrows, p) && p[0] == u && p[|p| - 1] == v
  }

  ghost predicate Reaches(arrows: Arrows, u: Id, v: Id) {
    exists p :: Leads(arrows, p, u, v)
  }

  /** In the same undirected component. */
  ghost predicate Connected(links: Arrows, u: Id, v: Id) {
    Reaches(links + Swapped(links), u, v)
  }

  /** A neighbour of a Root on a directed cycle through it: the cycle leaves the Root by it, or enters by it. */
  ghost predicate BesideRootOnCycle(arrows: Arrows, roots: set<Id>, v: Id) {
    exists r | r in roots :: ((r, v) in arrows && Reaches(arrows, v, r)) || ((v, r) in arrows && Reaches(arrows, r, v))
  }

  ghost predicate CycleThrough(arrows: Arrows, r: Id, p: seq<Id>) {
    |p| > 1 && Leads(arrows, p, r, r)
  }

  // ---------- paths ----------

  lemma PathSnoc(arrows: Arrows, u: Id, v: Id, w: Id)
    requires Reaches(arrows, u, v) && (v, w) in arrows
    ensures Reaches(arrows, u, w)
  {
    var p :| Leads(arrows, p, u, v);
    assert Leads(arrows, p + [w], u, w);
  }

  lemma PathStart(arrows: Arrows, u: Id)
    ensures Reaches(arrows, u, u)
  {
    assert Leads(arrows, [u], u, u);
  }

  /** A set that arrows do not leave holds everything its members reach. */
  lemma {:induction false} ClosedHolds(arrows: Arrows, inside: set<Id>, p: seq<Id>)
    requires IsPath(arrows, p) && p[0] in inside
    requires forall u, v | (u, v) in arrows && u in inside :: v in inside
    ensures p[|p| - 1] in inside
    decreases |p|
  {
    if |p| > 1 {
      assert (p[0], p[1]) in arrows;
      var rest := p[1..];
      forall k | 0 <= k < |rest| - 1 ensures (rest[k], rest[k + 1]) in arrows {
        assert (p[k + 1], p[k + 2]) in arrows;
      }
      ClosedHolds(arrows, inside, rest);
    }
  }

  lemma ClosedNotLeft(arrows: Arrows, inside: set<Id>, u: Id, v: Id)
    requires u in inside && v !in inside
    requires forall a, b | (a, b) in arrows && a in inside :: b in inside
    ensures !Reaches(arrows, u, v)
  {
    if Reaches(arrows, u, v) {
      var p :| Leads(arrows, p, u, v);
      ClosedHolds(arrows, inside, p);
    }
  }

  lemma {:induction false} PathSwapped(arrows: Arrows, p: seq<Id>)
    requires IsPath(arrows, p)
    ensures Reaches(Swapped(arrows), p[|p| - 1], p[0])
    decreases |p|
  {
    if |p| == 1 {
      PathStart(Swapped(arrows), p[0]);
    } else {
      assert IsPath(arrows, p[1..]) by {
        assert forall k | 0 <= k < |p[1..]| - 1 :: (p[1..][k], p[1..][k + 1]) == (p[k + 1], p[k + 2]);
      }
      PathSwapped(arrows, p[1..]);
      var k :| 0 <= k < |arrows| && arrows[k] == (p[0], p[1]);
      assert Swapped(arrows)[k] == (p[1], p[0]);
      PathSnoc(Swapped(arrows), p[|p| - 1], p[1], p[0]);
    }
  }

  /** Following the arrows backwards. */
  lemma ReachesSwapped(arrows: Arrows, u: Id, v: Id)
    ensures Reaches(Swapped(arrows), u, v) <==> Reaches(arrows, v, u)
  {
    if Reaches(arrows, v, u) {
      var p :| Leads(arrows, p, v, u);
      PathSwapped(arrows, p);
    }
    if Reaches(Swapped(arrows), u, v) {
      var p :| Leads(Swapped(arrows), p, u, v);
      PathSwapped(Swapped(arrows), p);
      assert Swapped(Swapped(arrows)) == arrows;
    }
  }

  // ---------- adjacency ----------

  type Adjacency = map<Id, seq<Id>>

  function Adj(m: Adjacency, u: Id): seq<Id> {
    if u in m then m[u] else []
  }

  /** Where the arrows from `u` lead, in order. */
  function Targets(arrows: Arrows, u: Id): seq<Id> {
    if arrows == [] then []
    else
      var n := |arrows| - 1;
      Targets(arrows[..n], u) + if arrows[n].0 == u then [arrows[n].1] else []
  }

  ghost predicate Lists(m: Adjacency, arrows: Arrows) {
    forall u :: Adj(m, u) == Targets(arrows, u)
  }

  lemma {:induction false} TargetsAre(arrows: Arrows, u: Id, v: Id)
    ensures v in Targets(arrows, u) <==> (u, v) in arrows
  {
    if arrows != [] {
      var n := |arrows| - 1;
      TargetsAre(arrows[..n], u, v);
      assert arrows == arrows[..n] + [arrows[n]];
    }
  }

  /** `adj.setdefault(u, []).append(v)`. */
  method Append(m: Adjacency, u: Id, v: Id, ghost arrows: Arrows) returns (m': Adjacency)
    requires Lists(m, arrows)
    ensures Lists(m', arrows + [(u, v)])
  {
    m' := m[u := Adj(m, u) + [v]];
    assert (arrows + [(u, v)])[..|arrows|] == arrows;
  }

  datatype Adjacencies = Adjacencies(reachOut: Adjacency, reachIn: Adjacency, directedOut: Adjacency, directedIn: Adjacency)

  ghost predicate ListsAll(a: Adjacencies, links: Arrows, directed: Arrows) {
    && Lists(a.reachOut, links) && Lists(a.reachIn, Swapped(links))
    && Lists(a.directedOut, directed) && Lists(a.directedIn, Swapped(directed))
  }

  lemma SwappedSnoc(arrows: Arrows, a: (Id, Id))
    ensures Swapped(arrows + [a]) == Swapped(arrows) + [(a.1, a.0)]
  {
  }

  method AddLink(a: Adjacencies, u: Id, v: Id, ghost links: Arrows, ghost directed: Arrows) returns (a': Adjacencies)
    requires ListsAll(a, links, directed)
    ensures ListsAll(a', links + [(u, v)], directed)
  {
    var reachOut := Append(a.reachOut, u, v, links);
    var reachIn := Append(a.reachIn, v, u, Swapped(links));
    SwappedSnoc(links, (u, v));
    a' := a.(reachOut := reachOut, reachIn := reachIn);
  }

  method AddDirected(a: Adjacencies, u: Id, v: Id, ghost links: Arrows, ghost directed: Arrows) returns (a': Adjacencies)
    requires ListsAll(a, links, directed)
    ensures ListsAll(a', links, directed + [(u, v)])
  {
    var directedOut := Append(a.directedOut, u, v, directed);
    var directedIn := Append(a.directedIn, v, u, Swapped(directed));
    SwappedSnoc(directed, (u, v));
    a' := a.(directedOut := directedOut, directedIn := directedIn);
  }

  // ---------- the path search ----------

  /** How many arrows start in the set. */
  function CountFrom(arrows: Arrows, from: set<Id>): (n: nat)
    ensures n <= |arrows|
  {
    if arrows == [] then 0
    else
      var n := |arrows| - 1;
      CountFrom(arrows[..n], from) + if arrows[n].0 in from then 1 else 0
  }

  lemma {:induction false} CountOneMore(arrows: Arrows, from: set<Id>, u: Id)
    requires u !in from
    ensures CountFrom(arrows, from + {u}) == CountFrom(arrows, from) + |Targets(arrows, u)|
  {
    if arrows != [] { CountOneMore(arrows[..|arrows| - 1], from, u); }
  }

  /** The search so far: what was seen or waits was reached, what was seen has passed everything on,
      and the target is not among it. */
  ghost predicate Searched(arrows: Arrows, start: Id, target: Id, seen: set<Id>, queue: seq<Id>) {
    && (forall u | u in seen :: Reaches(arrows, start, u))
    && (forall k | 0 <= k < |queue| :: Reaches(arrows, start, queue[k]) && queue[k] != target)
    && target !in seen
    && (start in seen || start in queue)
    && (forall u, v | u in seen && (u, v) in arrows :: v in seen || v in queue)
  }

  /** The first waiting node is taken: known already, or expanded with `added` of its targets new. */
  lemma Expanded(arrows: Arrows, start: Id, target: Id, seen: set<Id>, queue: seq<Id>, added: seq<Id>)
    requires queue != [] && Searched(arrows, start, target, seen, queue)
    requires forall v :: v in added ==> (queue[0], v) in arrows && v != target
    requires forall v | (queue[0], v) in arrows :: v in seen || v in queue || v in added
    ensures Searched(arrows, start, target, seen + {queue[0]}, queue[1..] + added)
  {
    var u, rest := queue[0], queue[1..];
    assert queue == [u] + rest;
    assert queue[0] != target && Reaches(arrows, start, u);
    forall k | 0 <= k < |rest + added| ensures Reaches(arrows, start, (rest + added)[k]) && (rest + added)[k] != target {
      if k < |rest| {
        assert rest[k] == queue[k + 1];
      } else {
        assert (rest + added)[k] in added;
        PathSnoc(arrows, start, u, (rest + added)[k]);
      }
    }
  }

  /** The targets of one node: either the goal is among them, or those not seen yet. */
  method NewTargets(targets: seq<Id>, target: Id, seen: set<Id>) returns (found: bool, added: seq<Id>)
    ensures found <==> target in targets
    ensures !found ==> |added| <= |targets| && (forall v :: v in added ==> v in targets && v != target)
    ensures !found ==> forall v | v in targets :: v in seen || v in added
  {
    added := [];
    for i := 0 to |targets|
      invariant target !in targets[..i] && |added| <= i
      invariant forall v :: v in added ==> v in targets && v != target
      invariant forall v | v in targets[..i] :: v in seen || v in added
    {
      assert targets[..i + 1] == targets[..i] + [targets[i]];
      if targets[i] == target {
        return true, added;
      }
      if targets[i] !in seen {
        added := added + [targets[i]];
      }
    }
    assert targets[..|targets|] == targets;
    found := false;
  }

  const MAX_STEPS: nat := 10000

  /** `_path_exists`. A path that is found exists; one that is not found does not, unless the search was
      given up, which takes at least as many arrows as steps. */
  method PathExists(adj: Adjacency, start: Id, target: Id, ghost arrows: Arrows) returns (found: bool, gaveUp: bool)
    requires Lists(adj, arrows)
    ensures found ==> Reaches(arrows, start, target)
    ensures !found && !gaveUp ==> !Reaches(arrows, start, target)
    ensures gaveUp ==> !found && |arrows| >= 10000
  {
    if start == target {
      PathStart(arrows, start);
      return true, false;
    }
    var seen: set<Id>, queue, steps := {}, [start], 0;
    PathStart(arrows, start);
    while queue != []
      invariant Searched(arrows, start, target, seen, queue)
      invariant steps <= MAX_STEPS && steps + |queue| <= 1 + CountFrom(arrows, seen)
      decreases MAX_STEPS - steps
    {
      steps := steps + 1;
      if steps > MAX_STEPS {
        return false, true;
      }
      found, seen, queue := SearchOne(adj, start, target, arrows, seen, queue);
      if found {
        return true, false;
      }
    }
    ClosedNotLeft(arrows, seen, start, target);
    return false, false;
  }

  /** One step of the search. */
  method SearchOne(adj: Adjacency, start: Id, target: Id, ghost arrows: Arrows, seen: set<Id>, queue: seq<Id>)
    returns (found: bool, seen': set<Id>, queue': seq<Id>)
    requires Lists(adj, arrows) && queue != [] && Searched(arrows, start, target, seen, queue)
    ensures found ==> Reaches(arrows, start, target)
    ensures !found ==> Searched(arrows, start, target, seen', queue')
    ensures !found ==> |queue'| - CountFrom(arrows, seen') <= |queue| - 1 - CountFrom(arrows, seen)
  {
    var current := queue[0];
    seen', queue' := seen, queue[1..];
    if current in seen {
      assert seen + {current} == seen && queue[1..] + [] == queue[1..];
      Expanded(arrows, start, target, seen, queue, []);
      return false, seen', queue';
    }
    seen' := seen + {current};
    forall v ensures v in Targets(arrows, current) <==> (current, v) in arrows {
      TargetsAre(arrows, current, v);
    }
    var added;
    found, added := NewTargets(Adj(adj, current), target, seen');
    if found {
      PathSnoc(arrows, start, current, target);
    } else {
      Expanded(arrows, start, target, seen, queue, added);
      CountOneMore(arrows, seen, current);
      queue' := queue' + added;
    }
  }

  // ---------- the component search ----------

  ghost predicate Rooted(both: Arrows, roots: set<Id>, v: Id) {
    exists r | r in roots :: Reaches(both, r, v)
  }

  /** The walk from the Roots over edges in either direction. */
  ghost predicate Spreading(both: Arrows, roots: set<Id>, reachable: set<Id>, queue: seq<Id>) {
    && (forall u | u in reachable :: Rooted(both, roots, u))
    && (forall k | 0 <= k < |queue| :: Rooted(both, roots, queue[k]))
    && (forall r | r in roots :: r in reachable || r in queue)
    && (forall u, v | u in reachable && (u, v) in both :: v in reachable || v in queue)
  }

  lemma Spread(both: Arrows, roots: set<Id>, reachable: set<Id>, queue: seq<Id>, added: seq<Id>)
    requires queue != [] && Spreading(both, roots, reachable, queue)
    requires forall v :: v in added ==> (queue[0], v) in both
    requires forall v | (queue[0], v) in both :: v in reachable || v in queue || v in added
    ensures Spreading(both, roots, reachable + {queue[0]}, queue[1..] + added)
  {
    var u, rest := queue[0], queue[1..];
    assert queue == [u] + rest;
    assert Rooted(both, roots, queue[0]);
    var r :| r in roots && Reaches(both, r, u);
    forall k | 0 <= k < |rest + added| ensures Rooted(both, roots, (rest + added)[k]) {
      if k < |rest| {
        assert rest[k] == queue[k + 1];
      } else {
        assert (rest + added)[k] in added;
        PathSnoc(both, r, u, (rest + added)[k]);
      }
    }
  }

  function Heads(arrows: Arrows): set<Id> {
    set k | 0 <= k < |arrows| :: arrows[k].1
  }

  lemma EitherWay(links: Arrows, u: Id)
    ensures forall v :: (u, v) in links + Swapped(links) <==> v in Targets(links, u) || v in Targets(Swapped(links), u)
  {
    forall v ensures (u, v) in links + Swapped(links) <==> v in Targets(links, u) || v in Targets(Swapped(links), u) {
      TargetsAre(links, u, v);
      TargetsAre(Swapped(links), u, v);
    }
  }

  /** The targets not reached yet. */
  method Unreached(targets: seq<Id>, reachable: set<Id>) returns (added: seq<Id>)
    ensures forall v :: v in added <==> v in targets && v !in reachable
  {
    added := [];
    for i := 0 to |targets|
      invariant forall v :: v in added <==> v in targets[..i] && v !in reachable
    {
      assert targets[..i + 1] == targets[..i] + [targets[i]];
      if targets[i] !in reachable {
        added := added + [targets[i]];
      }
    }
    assert targets[..|targets|] == targets;
  }

  /** Everything connected to a Root, and nothing else. */
  method Component(reachOut: Adjacency, reachIn: Adjacency, roots: set<Id>, ghost links: Arrows) returns (reachable: set<Id>)
    requires Lists(reachOut, links) && Lists(reachIn, Swapped(links))
    ensures forall v :: v in reachable <==> Rooted(links + Swapped(links), roots, v)
  {
    ghost var both := links + Swapped(links);
    ghost var all := roots + Heads(both);
    reachable := {};
    var queue := ListOf(roots);
    RootsSpread(both, roots, queue);
    while queue != []
      invariant Spreading(both, roots, reachable, queue)
      invariant reachable <= all && forall k | 0 <= k < |queue| :: queue[k] in all
      decreases |all - reachable|, |queue|
    {
      ghost var before := all - reachable;
      ghost var new_ := queue[0] !in reachable;
      reachable, queue := SpreadOne(reachOut, reachIn, links, roots, reachable, queue, all);
      if new_ { Fewer(before, all - reachable); }
    }
    AllSpread(both, roots, reachable);
  }

  lemma RootsSpread(both: Arrows, roots: set<Id>, queue: seq<Id>)
    requires forall r :: r in queue <==> r in roots
    ensures Spreading(both, roots, {}, queue) && forall k | 0 <= k < |queue| :: queue[k] in roots
  {
    forall k | 0 <= k < |queue| ensures queue[k] in roots && Rooted(both, roots, queue[k]) {
      assert queue[k] in queue;
      PathStart(both, queue[k]);
    }
  }

  lemma AllSpread(both: Arrows, roots: set<Id>, reachable: set<Id>)
    requires Spreading(both, roots, reachable, [])
    ensures forall v :: v in reachable <==> Rooted(both, roots, v)
  {
    forall v | v !in reachable ensures !Rooted(both, roots, v) {
      forall r | r in roots ensures !Reaches(both, r, v) {
        ClosedNotLeft(both, reachable, r, v);
      }
    }
  }

  lemma Fewer(a: set<Id>, b: set<Id>)
    requires b < a
    ensures |b| < |a|
  {
    assert |a| == |b| + |a - b|;
    assert a - b != {};
  }

  method SpreadOne(reachOut: Adjacency, reachIn: Adjacency, ghost links: Arrows, ghost roots: set<Id>,
                   reachable: set<Id>, queue: seq<Id>, ghost all: set<Id>)
    returns (reachable': set<Id>, queue': seq<Id>)
    requires Lists(reachOut, links) && Lists(reachIn, Swapped(links)) && queue != []
    requires Spreading(links + Swapped(links), roots, reachable, queue)
    requires reachable <= all && Heads(links + Swapped(links)) <= all && forall k | 0 <= k < |queue| :: queue[k] in all
    ensures Spreading(links + Swapped(links), roots, reachable', queue')
    ensures reachable' <= all && forall k | 0 <= k < |queue'| :: queue'[k] in all
    ensures if queue[0] in reachable then reachable' == reachable && |queue'| < |queue| else reachable' == reachable + {queue[0]}
  {
    var current := queue[0];
    ghost var both := links + Swapped(links);
    EitherWay(links, current);
    reachable', queue' := reachable, queue[1..];
    if current in reachable {
      assert reachable + {current} == reachable && queue[1..] + [] == queue[1..];
      Spread(both, roots, reachable, queue, []);
      return;
    }
    reachable' := reachable + {current};
    var nexts := Unreached(Adj(reachOut, current), reachable');
    var prevs := Unreached(Adj(reachIn, current), reachable');
    var added := nexts + prevs;
    Spread(both, roots, reachable, queue, added);
    queue' := queue' + added;
    forall v | v in added ensures v in all {
      assert (current, v) in both;
      var k :| 0 <= k < |both| && both[k] == (current, v);
      assert v in Heads(both);
    }
  }

  // ---------- reading the edges ----------

  /** The ids of the edges that do not enter the graph. */
  function Dangling(edges: seq<Edge>, ids: set<Id>, check: bool): set<string> {
    set k | 0 <= k < |edges| && !Counted(edges[k], ids, check) :: edges[k].id
  }

  method ReadEdges(edges: seq<Edge>, ids: set<Id>, check: bool) returns (a: Adjacencies, dangling: set<string>)
    ensures ListsAll(a, Links(edges, ids, check), Directed(edges, ids, check))
    ensures dangling == Dangling(edges, ids, check)
  {
    a := Adjacencies(map id | id in ids :: [], map id | id in ids :: [], map id | id in ids :: [], map id | id in ids :: []);
    dangling := {};
    for i := 0 to |edges|
      invariant ListsAll(a, Links(edges[..i], ids, check), Directed(edges[..i], ids, check))
      invariant dangling == Dangling(edges[..i], ids, check)
    {
      ReadMore(edges, i, ids, check);
      var counted;
      a, counted := ReadEdge(edges[i], ids, check, a, Links(edges[..i], ids, check), Directed(edges[..i], ids, check));
      if !counted {
        dangling := dangling + {edges[i].id};
      }
    }
    assert edges[..|edges|] == edges;
  }

  lemma ReadMore(edges: seq<Edge>, i: nat, ids: set<Id>, check: bool)
    requires i < |edges|
    ensures Links(edges[..i + 1], ids, check) == Links(edges[..i], ids, check) + EdgeLinks(edges[i], ids, check)
    ensures Directed(edges[..i + 1], ids, check) == Directed(edges[..i], ids, check) + EdgeDirected(edges[i], ids, check)
    ensures Dangling(edges[..i + 1], ids, check) ==
            Dangling(edges[..i], ids, check) + if Counted(edges[i], ids, check) then {} else {edges[i].id}
  {
    assert edges[..i + 1][..i] == edges[..i] && edges[..i + 1][i] == edges[i];
    forall k | 0 <= k < i ensures edges[..i + 1][k] == edges[..i][k] {
    }
    DanglingMore(edges[..i], edges[i], ids, check);
    assert edges[..i] + [edges[i]] == edges[..i + 1];
  }

  lemma DanglingMore(edges: seq<Edge>, e: Edge, ids: set<Id>, check: bool)
    ensures Dangling(edges + [e], ids, check) == Dangling(edges, ids, check) + if Counted(e, ids, check) then {} else {e.id}
  {
    var all := edges + [e];
    assert all[|edges|] == e && forall k | 0 <= k < |edges| :: all[k] == edges[k];
  }

  /** One edge record: left out, or entered for reachability and, if strictly directed, for cycles. */
  method ReadEdge(e: Edge, ids: set<Id>, check: bool, a: Adjacencies, ghost links: Arrows, ghost directed: Arrows)
    returns (a': Adjacencies, counted: bool)
    requires ListsAll(a, links, directed)
    ensures ListsAll(a', links + EdgeLinks(e, ids, check), directed + EdgeDirected(e, ids, check))
    ensures counted <==> Counted(e, ids, check)
  {
    assert links + [] == links && directed + [] == directed;
    if e.source.None? || e.target.None? {
      return a, false;
    }
    if check && (e.source.value !in ids || e.target.value !in ids) {
      return a, false;
    }
    var u, v := e.source.value, e.target.value;
    a' := AddLink(a, u, v, links, directed);
    if e.bidirectional {
      a' := AddLink(a', v, u, links + [(u, v)], directed);
      assert links + [(u, v)] + [(v, u)] == links + EdgeLinks(e, ids, check);
    } else {
      a' := AddDirected(a', u, v, links + [(u, v)], directed);
      assert EdgeLinks(e, ids, check) == [(u, v)];
    }
    counted := true;
  }

  // ---------- Root cycles ----------

  /** The neighbours from which the Root is reached. */
  method CycleNeighbours(adj: Adjacency, root: Id, ghost arrows: Arrows) returns (found: set<Id>, gaveUp: bool)
    requires Lists(adj, arrows)
    ensures forall v | v in found :: (root, v) in arrows && Reaches(arrows, v, root)
    ensures !gaveUp ==> forall v | (root, v) in arrows && Reaches(arrows, v, root) :: v in found
    ensures gaveUp ==> |arrows| >= 10000
  {
    found, gaveUp := {}, false;
    var neighbours := Adj(adj, root);
    forall v ensures v in neighbours <==> (root, v) in arrows {
      TargetsAre(arrows, root, v);
    }
    for i := 0 to |neighbours|
      invariant forall v | v in found :: (root, v) in arrows && Reaches(arrows, v, root)
      invariant !gaveUp ==> forall v | v in neighbours[..i] && Reaches(arrows, v, root) :: v in found
      invariant gaveUp ==> |arrows| >= MAX_STEPS
    {
      assert neighbours[..i + 1] == neighbours[..i] + [neighbours[i]];
      var exists_, aborted := PathExists(adj, neighbours[i], root, arrows);
      if exists_ {
        found := found + {neighbours[i]};
      }
      gaveUp := gaveUp || aborted;
    }
    assert neighbours[..|neighbours|] == neighbours;
  }

  /** The neighbours of all Roots that lie on a directed cycle through them. */
  method RootCycles(a: Adjacencies, roots: set<Id>, ghost links: Arrows, ghost arrows: Arrows)
    returns (cycleNodes: set<Id>, gaveUp: bool)
    requires ListsAll(a, links, arrows)
    ensures forall v | v in cycleNodes :: BesideRootOnCycle(arrows, roots, v)
    ensures !gaveUp ==> forall v | BesideRootOnCycle(arrows, roots, v) :: v in cycleNodes
    ensures gaveUp ==> |arrows| >= 10000
  {
    cycleNodes, gaveUp := {}, false;
    var rest := ListOf(roots);
    forall u, v ensures (u, v) in Swapped(arrows) <==> (v, u) in arrows
      ensures Reaches(Swapped(arrows), u, v) <==> Reaches(arrows, v, u) {
      ReachesSwapped(arrows, u, v);
    }
    for i := 0 to |rest|
      invariant forall v | v in cycleNodes :: BesideRootOnCycle(arrows, roots, v)
      invariant !gaveUp ==> forall r, v | r in rest[..i] && BesideRootOnCycle(arrows, {r}, v) :: v in cycleNodes
      invariant gaveUp ==> |arrows| >= MAX_STEPS
    {
      assert rest[..i + 1] == rest[..i] + [rest[i]] && rest[i] in roots;
      var children, childAbort := CycleNeighbours(a.directedOut, rest[i], arrows);
      var parents, parentAbort := CycleNeighbours(a.directedIn, rest[i], Swapped(arrows));
      cycleNodes := cycleNodes + children + parents;
      gaveUp := gaveUp || childAbort || parentAbort;
    }
    assert rest[..|rest|] == rest;
    forall v | BesideRootOnCycle(arrows, roots, v) ensures !gaveUp ==> v in cycleNodes {
      var r :| r in roots && (((r, v) in arrows && Reaches(arrows, v, r)) || ((v, r) in arrows && Reaches(arrows, r, v)));
      assert r in rest && BesideRootOnCycle(arrows, {r}, v);
    }
  }

  // ---------- the report ----------

  function NodeIds(nodes: seq<Node>): set<Id> {
    set k | 0 <= k < |nodes| :: nodes[k].id
  }

  function RootIds(nodes: seq<Node>): set<Id> {
    set k | 0 <= k < |nodes| && nodes[k].isRoot :: nodes[k].id
  }

  /** The nodes outside the undirected component of every Root. */
  ghost predicate Orphaned(links: Arrows, ids: set<Id>, roots: set<Id>, v: Id) {
    v in ids && forall r | r in roots :: !Connected(links, r, v)
  }

  /** `validate_graph`. Without a Root neither orphans nor cycles are reported. */
  method ValidateGraph(nodes: seq<Node>, edges: seq<Edge>, checkOrphans: bool, checkRootCycles: bool, checkDangling: bool)
    returns (report: Report, gaveUp: bool)
    ensures report.dangling == Dangling(edges, NodeIds(nodes), checkDangling)
    ensures var links := Links(edges, NodeIds(nodes), checkDangling);
            forall v :: v in report.orphans <==>
              checkOrphans && RootIds(nodes) != {} && Orphaned(links, NodeIds(nodes), RootIds(nodes), v)
    ensures var arrows := Directed(edges, NodeIds(nodes), checkDangling);
            && (forall v | v in report.cycleNodes :: checkRootCycles && BesideRootOnCycle(arrows, RootIds(nodes), v))
            && (checkRootCycles && !gaveUp ==> forall v | BesideRootOnCycle(arrows, RootIds(nodes), v) :: v in report.cycleNodes)
    ensures |edges| < 10000 ==> !gaveUp
    ensures report.nodesVisited == |NodeIds(nodes)| && report.edgesVisited == |edges|
  {
    var ids, roots := NodeIds(nodes), RootIds(nodes);
    ghost var links, arrows := Links(edges, ids, checkDangling), Directed(edges, ids, checkDangling);
    var a, dangling := ReadEdges(edges, ids, checkDangling);
    var orphans: set<Id>, cycleNodes: set<Id> := {}, {};
    gaveUp := false;
    if checkOrphans && roots != {} {
      var reachable := Component(a.reachOut, a.reachIn, roots, links);
      forall r | r in roots ensures Connected(links, r, r) {
        PathStart(links + Swapped(links), r);
      }
      orphans := ids - reachable - roots;
    }
    if checkRootCycles && roots != {} {
      cycleNodes, gaveUp := RootCycles(a, roots, links, arrows);
      FewerDirected(edges, ids, checkDangling);
    }
    report := Report(orphans, cycleNodes, dangling, |ids|, |edges|);
  }

  // ---------- the arrows in terms of the edge records ----------

  /** The edge joins two nodes; where that is checked, both exist. */
  predicate Joins(e: Edge, ids: set<Id>, check: bool, u: Id, v: Id) {
    e.source == Some(u) && e.target == Some(v) && (check ==> u in ids && v in ids)
  }

  /** A cycle may go from `u` to `v`: along an edge that is not bidirectional. */
  lemma {:induction false} DirectedAre(edges: seq<Edge>, ids: set<Id>, check: bool, u: Id, v: Id)
    ensures (u, v) in Directed(edges, ids, check) <==>
            exists k | 0 <= k < |edges| :: !edges[k].bidirectional && Joins(edges[k], ids, check, u, v)
  {
    if edges != [] {
      var n := |edges| - 1;
      DirectedAre(edges[..n], ids, check, u, v);
      assert forall k | 0 <= k < n :: edges[..n][k] == edges[k];
    }
  }

  /** A walk to a Root may go from `u` to `v`: along an edge, or against one that is bidirectional. */
  lemma {:induction false} LinksAre(edges: seq<Edge>, ids: set<Id>, check: bool, u: Id, v: Id)
    ensures (u, v) in Links(edges, ids, check) <==>
            exists k | 0 <= k < |edges| ::
              Joins(edges[k], ids, check, u, v) || (edges[k].bidirectional && Joins(edges[k], ids, check, v, u))
  {
    if edges != [] {
      var n := |edges| - 1;
      LinksAre(edges[..n], ids, check, u, v);
      assert forall k | 0 <= k < n :: edges[..n][k] == edges[k];
    }
  }

  /** An edge is dangling if it lacks an end, or one that does not exist where that is checked. */
  lemma DanglingAre(edges: seq<Edge>, ids: set<Id>, check: bool, id: string)
    ensures id in Dangling(edges, ids, check) <==>
            exists k | 0 <= k < |edges| :: edges[k].id == id && forall u, v :: !Joins(edges[k], ids, check, u, v)
  {
    forall k | 0 <= k < |edges| ensures Counted(edges[k], ids, check) <==> exists u, v :: Joins(edges[k], ids, check, u, v) {
      if Counted(edges[k], ids, check) { assert Joins(edges[k], ids, check, edges[k].source.value, edges[k].target.value); }
    }
  }

  lemma {:induction false} FewerDirected(edges: seq<Edge>, ids: set<Id>, check: bool)
    ensures |Directed(edges, ids, check)| <= |edges|
  {
    if edges != [] { FewerDirected(edges[..|edges| - 1], ids, check); }
  }

  // ---------- what the cycle report means ----------

  /** Something is reported for a Root exactly when a directed cycle passes through it. */
  lemma ReportedIffCycle(arrows: Arrows, r: Id)
    ensures (exists v :: BesideRootOnCycle(arrows, {r}, v)) <==> exists p :: CycleThrough(arrows, r, p)
  {
    if p :| CycleThrough(arrows, r, p) {
      var rest := p[1..];
      assert (p[0], p[1]) in arrows;
      assert Leads(arrows, rest, p[1], r) by {
        forall k | 0 <= k < |rest| - 1 ensures (rest[k], rest[k + 1]) in arrows {
          assert (p[k + 1], p[k + 2]) in arrows;
        }
      }
      assert BesideRootOnCycle(arrows, {r}, p[1]);
    }
    if v :| BesideRootOnCycle(arrows, {r}, v) {
      if (r, v) in arrows && Reaches(arrows, v, r) {
        var q :| Leads(arrows, q, v, r);
        CycleFrom(arrows, r, v, q);
      } else {
        var q :| Leads(arrows, q, r, v);
        assert CycleThrough(arrows, r, q + [r]);
      }
    }
  }

  lemma CycleFrom(arrows: Arrows, r: Id, v: Id, q: seq<Id>)
    requires (r, v) in arrows && Leads(arrows, q, v, r)
    ensures CycleThrough(arrows, r, [r] + q)
  {
  }

  lemma PathsJoin(arrows: Arrows, u: Id, v: Id, w: Id)
    requires Reaches(arrows, u, v) && Reaches(arrows, v, w)
    ensures Reaches(arrows, u, w)
  {
    var p :| Leads(arrows, p, u, v);
    var q :| Leads(arrows, q, v, w);
    var joined := p + q[1..];
    forall k | 0 <= k < |joined| - 1 ensures (joined[k], joined[k + 1]) in arrows {
      assert k < |p| - 1 ==> (p[k], p[k + 1]) in arrows;
      assert k >= |p| - 1 ==> joined[k] == q[k - (|p| - 1)] && joined[k + 1] == q[k + 1 - (|p| - 1)];
    }
    assert Leads(arrows, joined, u, w);
  }

  lemma ArrowReaches(arrows: Arrows, u: Id, v: Id)
    requires (u, v) in arrows
    ensures Reaches(arrows, u, v)
  {
    assert Leads(arrows, [u, v], u, v);
  }

  /** On a common directed cycle, or the same node. */
  ghost predicate OneCycle(arrows: Arrows, r: Id, v: Id) {
    Reaches(arrows, r, v) && Reaches(arrows, v, r)
  }

  predicate Adjacent(arrows: Arrows, r: Id, v: Id) {
    (r, v) in arrows || (v, r) in arrows
  }

  /** What the audit promises to report: the nodes, other than Roots, on a cycle through a Root. */
  ghost predicate OnRootCycle(arrows: Arrows, roots: set<Id>, v: Id) {
    v !in roots && exists r | r in roots :: OneCycle(arrows, r, v)
  }

  /** What it reports: the nodes on a cycle through a Root next to which they stand. */
  lemma CycleReportIff(arrows: Arrows, roots: set<Id>, v: Id)
    ensures BesideRootOnCycle(arrows, roots, v) <==> exists r | r in roots :: OneCycle(arrows, r, v) && Adjacent(arrows, r, v)
  {
    forall r | r in roots && Adjacent(arrows, r, v) ensures OneCycle(arrows, r, v) <==> BesideRootOnCycle(arrows, {r}, v) {
      if (r, v) in arrows { ArrowReaches(arrows, r, v); }
      if (v, r) in arrows { ArrowReaches(arrows, v, r); }
    }
  }

  /** A node on a cycle through a Root is missed exactly if it is next to no Root it shares a cycle with. */
  lemma MissedIff(arrows: Arrows, roots: set<Id>, v: Id)
    ensures OnRootCycle(arrows, roots, v) && !BesideRootOnCycle(arrows, roots, v) <==>
            OnRootCycle(arrows, roots, v) && forall r | r in roots && OneCycle(arrows, r, v) :: !Adjacent(arrows, r, v)
  {
    CycleReportIff(arrows, roots, v);
  }

  /** A Root is named exactly if an edge leads from it to itself or a Root next to it shares a cycle with it. */
  lemma RootNamedIff(arrows: Arrows, roots: set<Id>, v: Id)
    requires v in roots
    ensures BesideRootOnCycle(arrows, roots, v) <==>
            (v, v) in arrows || exists r | r in roots && r != v :: OneCycle(arrows, r, v) && Adjacent(arrows, r, v)
  {
    CycleReportIff(arrows, roots, v);
    PathStart(arrows, v);
    assert OneCycle(arrows, v, v);
    if (v, v) in arrows { assert Adjacent(arrows, v, v); }
  }

  /** No two Roots, and no Root and itself, are next to one another on a cycle. */
  ghost predicate RootsApart(arrows: Arrows, roots: set<Id>) {
    forall r, v | r in roots && v in roots && OneCycle(arrows, r, v) :: !Adjacent(arrows, r, v)
  }

  /** Every node on a cycle through a Root is next to a Root it shares a cycle with. */
  ghost predicate NoneBetween(arrows: Arrows, roots: set<Id>) {
    forall v | OnRootCycle(arrows, roots, v) :: exists r | r in roots :: OneCycle(arrows, r, v) && Adjacent(arrows, r, v)
  }

  /** The report is what is promised exactly if no Root is named and nothing is missed. */
  lemma CyclesExactIff(arrows: Arrows, roots: set<Id>)
    ensures (forall v :: BesideRootOnCycle(arrows, roots, v) <==> OnRootCycle(arrows, roots, v)) <==>
            RootsApart(arrows, roots) && NoneBetween(arrows, roots)
  {
    forall v ensures BesideRootOnCycle(arrows, roots, v) <==> exists r | r in roots :: OneCycle(arrows, r, v) && Adjacent(arrows, r, v) {
      CycleReportIff(arrows, roots, v);
    }
    if forall v :: BesideRootOnCycle(arrows, roots, v) <==> OnRootCycle(arrows, roots, v) {
      forall r, v | r in roots && v in roots && OneCycle(arrows, r, v) ensures !Adjacent(arrows, r, v) {
        assert !OnRootCycle(arrows, roots, v) && !BesideRootOnCycle(arrows, roots, v);
      }
    }
  }

  /** Of a cycle of four the node across from the Root is missed. */
  lemma MiddleIsNotReported(r: Id, a: Id, b: Id, c: Id)
    requires b != r && a != r && c != r && a != b && b != c
    ensures var arrows := [(r, a), (a, b), (b, c), (c, r)];
      && CycleThrough(arrows, r, [r, a, b, c, r])
      && BesideRootOnCycle(arrows, {r}, a) && BesideRootOnCycle(arrows, {r}, c) && !BesideRootOnCycle(arrows, {r}, b)
      && OnRootCycle(arrows, {r}, b)
  {
    var arrows := [(r, a), (a, b), (b, c), (c, r)];
    assert arrows[0] in arrows && arrows[1] in arrows && arrows[2] in arrows && arrows[3] in arrows;
    assert Leads(arrows, [a, b, c, r], a, r) && Leads(arrows, [r, a, b, c], r, c);
    assert Leads(arrows, [r, a, b], r, b) && Leads(arrows, [b, c, r], b, r);
    assert OneCycle(arrows, r, b);
  }

  /** Two Roots with edges to one another are both named, though neither has an edge to itself. */
  lemma RootsNamed(r: Id, s: Id)
    requires r != s
    ensures var arrows := [(r, s), (s, r)];
      BesideRootOnCycle(arrows, {r, s}, r) && BesideRootOnCycle(arrows, {r, s}, s) && (r, r) !in arrows && (s, s) !in arrows
  {
    var arrows := [(r, s), (s, r)];
    assert arrows[0] in arrows && arrows[1] in arrows;
    ArrowReaches(arrows, r, s);
    ArrowReaches(arrows, s, r);
  }

  // ---------- what the orphan report means ----------

  /** A path to some Root along outbound and bidirectional edges, which is what the documentation asks for. */
  ghost predicate LeadsToRoot(links: Arrows, roots: set<Id>, v: Id) {
    exists r | r in roots :: Reaches(links, v, r)
  }

  lemma {:induction false} PathInMore(arrows: Arrows, more: Arrows, u: Id, v: Id)
    requires Reaches(arrows, u, v) && forall a | a in arrows :: a in more
    ensures Reaches(more, u, v)
  {
    var p :| Leads(arrows, p, u, v);
    assert Leads(more, p, u, v);
  }

  lemma BothWays(links: Arrows, u: Id, v: Id)
    ensures (u, v) in links + Swapped(links) <==> (u, v) in links || (v, u) in links
  {
    forall a, b ensures (a, b) in Swapped(links) <==> (b, a) in links {
      if (b, a) in links {
        var k :| 0 <= k < |links| && links[k] == (b, a);
        assert Swapped(links)[k] == (a, b);
      }
    }
  }

  lemma LeadingIsConnected(links: Arrows, roots: set<Id>, v: Id)
    requires LeadsToRoot(links, roots, v)
    ensures exists r | r in roots :: Connected(links, r, v)
  {
    var r :| r in roots && Reaches(links, v, r);
    ReachesSwapped(links, r, v);
    PathInMore(Swapped(links), links + Swapped(links), r, v);
    assert Connected(links, r, v);
  }

  /** No edge leads from a node that has a path to a Root to one that has none. */
  ghost predicate NoneLeftBehind(links: Arrows, roots: set<Id>) {
    forall u, v | (u, v) in links && LeadsToRoot(links, roots, u) :: LeadsToRoot(links, roots, v)
  }

  lemma StepBack(links: Arrows, roots: set<Id>, u: Id, v: Id)
    requires (u, v) in links && LeadsToRoot(links, roots, v)
    ensures LeadsToRoot(links, roots, u)
  {
    var r :| r in roots && Reaches(links, v, r);
    ArrowReaches(links, u, v);
    PathsJoin(links, u, v, r);
  }

  lemma {:induction false} AllLead(links: Arrows, roots: set<Id>, p: seq<Id>)
    requires NoneLeftBehind(links, roots) && IsPath(links + Swapped(links), p) && p[0] in roots
    ensures LeadsToRoot(links, roots, p[|p| - 1])
    decreases |p|
  {
    var n := |p| - 1;
    if n == 0 {
      PathStart(links, p[0]);
    } else {
      var init := p[..n];
      assert forall k | 0 <= k < |init| - 1 :: (init[k], init[k + 1]) == (p[k], p[k + 1]);
      AllLead(links, roots, init);
      assert (p[n - 1], p[n]) in links + Swapped(links);
      BothWays(links, p[n - 1], p[n]);
      if (p[n], p[n - 1]) in links {
        StepBack(links, roots, p[n], p[n - 1]);
      }
    }
  }

  /** Every node connected to a Root has a path to one exactly if no edge leads away to a node that has none. */
  lemma ConnectedLeadsIff(links: Arrows, roots: set<Id>)
    ensures (forall r, v | r in roots && Connected(links, r, v) :: LeadsToRoot(links, roots, v)) <==> NoneLeftBehind(links, roots)
  {
    if NoneLeftBehind(links, roots) {
      forall r, v | r in roots && Connected(links, r, v) ensures LeadsToRoot(links, roots, v) {
        var p :| Leads(links + Swapped(links), p, r, v);
        AllLead(links, roots, p);
      }
    }
    if forall r, v | r in roots && Connected(links, r, v) :: LeadsToRoot(links, roots, v) {
      forall u, v | (u, v) in links && LeadsToRoot(links, roots, u) ensures LeadsToRoot(links, roots, v) {
        LeadingIsConnected(links, roots, u);
        var r :| r in roots && Connected(links, r, u);
        BothWays(links, u, v);
        PathSnoc(links + Swapped(links), r, u, v);
        assert Connected(links, r, v);
      }
    }
  }

  /** An orphan as documented. */
  ghost predicate WithoutPath(links: Arrows, ids: set<Id>, roots: set<Id>, v: Id) {
    v in ids && !LeadsToRoot(links, roots, v)
  }

  predicate EndsIn(links: Arrows, ids: set<Id>) {
    forall k | 0 <= k < |links| :: links[k].0 in ids && links[k].1 in ids
  }

  /** What is reported is an orphan as documented, too. */
  lemma OrphansHaveNoPath(links: Arrows, ids: set<Id>, roots: set<Id>, v: Id)
    requires Orphaned(links, ids, roots, v)
    ensures WithoutPath(links, ids, roots, v)
  {
    if LeadsToRoot(links, roots, v) {
      LeadingIsConnected(links, roots, v);
    }
  }

  lemma {:induction false} PathStaysIn(arrows: Arrows, ids: set<Id>, u: Id, v: Id)
    requires Reaches(arrows, u, v) && u in ids && forall a | a in arrows :: a.1 in ids
    ensures v in ids
  {
    var p :| Leads(arrows, p, u, v);
    ClosedHolds(arrows, ids, p);
  }

  /** The orphans reported are those documented exactly if no edge leads from a node that has a path to a
      Root to one that has none. */
  lemma OrphansExactIff(links: Arrows, ids: set<Id>, roots: set<Id>)
    requires EndsIn(links, ids) && roots <= ids
    ensures (forall v :: Orphaned(links, ids, roots, v) <==> WithoutPath(links, ids, roots, v)) <==> NoneLeftBehind(links, roots)
  {
    ConnectedLeadsIff(links, roots);
    forall r, v | r in roots && Connected(links, r, v) ensures v in ids {
      forall a | a in links + Swapped(links) ensures a.1 in ids { BothWays(links, a.0, a.1); }
      PathStaysIn(links + Swapped(links), ids, r, v);
    }
    forall v | Orphaned(links, ids, roots, v) ensures WithoutPath(links, ids, roots, v) {
      OrphansHaveNoPath(links, ids, roots, v);
    }
    if forall v :: Orphaned(links, ids, roots, v) <==> WithoutPath(links, ids, roots, v) {
      forall r, v | r in roots && Connected(links, r, v) ensures LeadsToRoot(links, roots, v) {
        assert v in ids && !Orphaned(links, ids, roots, v) && !WithoutPath(links, ids, roots, v);
      }
    }
    if NoneLeftBehind(links, roots) {
      forall v | WithoutPath(links, ids, roots, v) ensures Orphaned(links, ids, roots, v) {
        assert forall r | r in roots :: !Connected(links, r, v);
      }
    }
  }

  /** With dangling edges left out, the ends of all edges exist. */
  lemma {:induction false} CheckedEndsExist(edges: seq<Edge>, ids: set<Id>)
    ensures EndsIn(Links(edges, ids, true), ids)
  {
    if edges != [] {
      CheckedEndsExist(edges[..|edges| - 1], ids);
    }
  }

  /** A child below the Root has no path to it, and is not reported. */
  lemma ChildIsNoOrphan(r: Id, v: Id)
    requires r != v
    ensures WithoutPath([(r, v)], {r, v}, {r}, v) && !Orphaned([(r, v)], {r, v}, {r}, v)
  {
    var links := [(r, v)];
    assert links[0] == (r, v);
    BothWays(links, r, v);
    ArrowReaches(links + Swapped(links), r, v);
    ClosedNotLeft(links, {v}, v, r);
    assert Connected(links, r, v);
  }
}
