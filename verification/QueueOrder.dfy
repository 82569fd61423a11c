/** The queue of `subgraph_bfs` (jvspatial/core/graph_expansion.py) over time, and what it ever holds in
    terms of edge lists and layers. */
module QueueOrder {
  import opened BfsLayers
  import opened FollowedEdges

  /** The entries that following the edges of `v` appends to the queue. */
  function Offers(g: Graph, es: seq<EdgeId>, v: Id, depth: nat, seen: set<Id>): seq<Visit> {
    if es == [] then []
    else
      var n := |es| - 1;
      var other := FarEnd(g, es[n], v);
      Offers(g, es[..n], v, depth, seen) + if other.Some? && other.value !in seen then [Visit(other.value, depth + 1)] else []
  }

  lemma OffersSnoc(g: Graph, es: seq<EdgeId>, i: nat, v: Id, depth: nat, seen: set<Id>)
    requires i < |es|
    ensures var other := FarEnd(g, es[i], v);
            Offers(g, es[..i + 1], v, depth, seen)
            == Offers(g, es[..i], v, depth, seen) + if other.Some? && other.value !in seen then [Visit(other.value, depth + 1)] else []
  {
    assert es[..i + 1][..i] == es[..i];
  }

  /** What taking the front of the queue appends to it. */
  function NewEntries(g: Graph, cap: nat, maxDepth: nat, front: Visit, seen: set<Id>): seq<Visit> {
    if front.id in seen || front.depth >= maxDepth then []
    else Offers(g, Selected(g, cap, front.id), front.id, front.depth, seen + {front.id})
  }

  /** All entries queued while `n` are taken, without a node limit. */
  function Log(g: Graph, cap: nat, root: Id, maxDepth: nat, n: nat): (log: seq<Visit>)
    ensures log != []
  {
    if n == 0 then [Visit(root, 0)]
    else
      var log := Log(g, cap, root, maxDepth, n - 1);
      if n > |log| then log else log + NewEntries(g, cap, maxDepth, log[n - 1], Queued(log[..n - 1]))
  }

  /** With all its entries taken the queue is empty: these are all it ever held. */
  predicate Emptied(g: Graph, cap: nat, root: Id, maxDepth: nat, log: seq<Visit>) {
    log == Log(g, cap, root, maxDepth, |log|)
  }

  /** The last entry's id was queued before. */
  predicate LastRepeats(log: seq<Visit>)
    requires log != []
  {
    log[|log| - 1].id in Queued(log[..|log| - 1])
  }

  /** The queue after `n` entries are taken, and the ids taken from it. */
  predicate AtStep(g: Graph, cap: nat, root: Id, maxDepth: nat, n: nat, q: seq<Visit>, seen: set<Id>) {
    var log := Log(g, cap, root, maxDepth, n);
    n <= |log| && q == log[n..] && seen == Queued(log[..n])
  }

  lemma OneFurther(log: seq<Visit>, more: seq<Visit>, n: nat)
    requires n < |log|
    ensures (log + more)[n + 1..] == log[n..][1..] + more && (log + more)[n] == log[n] == log[n..][0]
    ensures (log + more)[..n] == log[..n]
    ensures Queued((log + more)[..n + 1]) == Queued(log[..n]) + {log[n].id}
  {
    var next := (log + more)[..n + 1];
    assert next == log[..n] + [log[n]];
    QueueAppend(log[..n], [log[n]], 0);
    assert Queued([log[n]]) == {log[n].id} by { assert [log[n]][0] == log[n]; }
  }

  lemma NextStep(g: Graph, cap: nat, root: Id, maxDepth: nat, n: nat, q: seq<Visit>, seen: set<Id>)
    requires AtStep(g, cap, root, maxDepth, n, q, seen) && q != []
    ensures AtStep(g, cap, root, maxDepth, n + 1, q[1..] + NewEntries(g, cap, maxDepth, q[0], seen), seen + {q[0].id})
    ensures Log(g, cap, root, maxDepth, n + 1)[n] == q[0] && Log(g, cap, root, maxDepth, n + 1)[..n] == Log(g, cap, root, maxDepth, n)[..n]
  {
    var log := Log(g, cap, root, maxDepth, n);
    OneFurther(log, NewEntries(g, cap, maxDepth, log[n], Queued(log[..n])), n);
    assert Log(g, cap, root, maxDepth, n + 1) == log + NewEntries(g, cap, maxDepth, log[n], Queued(log[..n]));
  }

  /** Once everything queued is known, the rest of the queue adds nothing and repeats. */
  lemma {:induction false} KnownRest(g: Graph, cap: nat, root: Id, maxDepth: nat, n: nat, q: seq<Visit>, seen: set<Id>)
    requires AtStep(g, cap, root, maxDepth, n, q, seen) && Queued(q) <= seen
    ensures Emptied(g, cap, root, maxDepth, Log(g, cap, root, maxDepth, n))
    decreases |q|
  {
    if q != [] {
      NextStep(g, cap, root, maxDepth, n, q, seen);
      QueueTail(q, 0);
      assert seen + {q[0].id} == seen && q[1..] + [] == q[1..];
      assert Log(g, cap, root, maxDepth, n + 1) == Log(g, cap, root, maxDepth, n);
      KnownRest(g, cap, root, maxDepth, n + 1, q[1..], seen);
    }
  }

  lemma RestRepeats(log: seq<Visit>, n: nat)
    requires n < |log| && Queued(log[n..]) <= Queued(log[..n])
    ensures LastRepeats(log)
  {
    var m := |log| - 1;
    assert log[n..][m - n] == log[m];
    assert log[m].id in Queued(log[n..]);
    var k :| 0 <= k < n && log[..n][k].id == log[m].id;
    assert log[..m][k] == log[..n][k];
  }

  // ---------- the layers ----------

  function Among(ids: seq<Id>): set<Id> {
    set id | id in ids
  }

  /** Each id once, where it occurs first. */
  function Firsts(ids: seq<Id>): seq<Id> {
    if ids == [] then []
    else
      var n := |ids| - 1;
      var r := Firsts(ids[..n]);
      if ids[n] in r then r else r + [ids[n]]
  }

  /** The far ends of the edges of `v` in their order, without the ids that are known. */
  function EndsOutside(g: Graph, es: seq<EdgeId>, v: Id, known: set<Id>): seq<Id> {
    if es == [] then []
    else
      var n := |es| - 1;
      var other := FarEnd(g, es[n], v);
      EndsOutside(g, es[..n], v, known) + if other.Some? && other.value !in known then [other.value] else []
  }

  /** The root, then for each id of the list the far ends of its followed edges that are not in the list
      up to it. */
  function Reached(g: Graph, cap: nat, root: Id, ids: seq<Id>): (r: seq<Id>)
    ensures r != []
  {
    if ids == [] then [root]
    else
      var v := ids[|ids| - 1];
      Reached(g, cap, root, ids[..|ids| - 1]) + EndsOutside(g, Selected(g, cap, v), v, Among(ids))
  }

  /** The ids fewer than `k` hops away, layer by layer: the root, then what the followed edges of the
      layers before lead to, in the order of those layers and of their sorted edge lists. */
  function Layers(g: Graph, cap: nat, root: Id, k: nat): seq<Id> {
    if k == 0 then [] else Firsts(Reached(g, cap, root, Layers(g, cap, root, k - 1)))
  }

  lemma AmongSnoc(ids: seq<Id>, id: Id)
    ensures Among(ids + [id]) == Among(ids) + {id}
  {
  }

  lemma {:induction false} FirstsSame(ids: seq<Id>)
    ensures Among(Firsts(ids)) == Among(ids)
  {
    if ids != [] {
      var n := |ids| - 1;
      FirstsSame(ids[..n]);
      assert ids == ids[..n] + [ids[n]];
      AmongSnoc(ids[..n], ids[n]);
      AmongSnoc(Firsts(ids[..n]), ids[n]);
      assert ids[n] in Firsts(ids[..n]) <==> ids[n] in Among(Firsts(ids[..n]));
    }
  }

  lemma FirstsSnoc(ids: seq<Id>, id: Id)
    ensures Firsts(ids + [id]) == if id in Among(ids) then Firsts(ids) else Firsts(ids) + [id]
  {
    FirstsSame(ids);
    assert (ids + [id])[..|ids|] == ids;
  }

  lemma ReachedSnoc(g: Graph, cap: nat, root: Id, ids: seq<Id>, v: Id)
    ensures Reached(g, cap, root, ids + [v]) == Reached(g, cap, root, ids) + EndsOutside(g, Selected(g, cap, v), v, Among(ids) + {v})
  {
    assert (ids + [v])[..|ids|] == ids && Among(ids + [v]) == Among(ids) + {v};
  }

  lemma {:induction false} FirstsDistinct(ids: seq<Id>)
    ensures forall i, j | 0 <= i < j < |Firsts(ids)| :: Firsts(ids)[i] != Firsts(ids)[j]
  {
    if ids != [] { FirstsDistinct(ids[..|ids| - 1]); }
  }

  lemma {:induction false} FirstsLonger(a: seq<Id>, b: seq<Id>)
    requires a <= b
    ensures Firsts(a) <= Firsts(b)
    decreases |b|
  {
    if |a| == |b| {
      assert a == b;
    } else {
      assert a <= b[..|b| - 1];
      FirstsLonger(a, b[..|b| - 1]);
    }
  }

  lemma {:induction false} ReachedLonger(g: Graph, cap: nat, root: Id, a: seq<Id>, b: seq<Id>)
    requires a <= b
    ensures Reached(g, cap, root, a) <= Reached(g, cap, root, b)
    decreases |b|
  {
    if |a| == |b| {
      assert a == b;
    } else {
      assert a <= b[..|b| - 1];
      ReachedLonger(g, cap, root, a, b[..|b| - 1]);
    }
  }

  lemma LayerLonger(g: Graph, cap: nat, root: Id, a: seq<Id>, b: seq<Id>, c: seq<Id>)
    requires a <= b && b == Firsts(Reached(g, cap, root, a)) && c == Firsts(Reached(g, cap, root, b))
    ensures b <= c
  {
    ReachedLonger(g, cap, root, a, b);
    FirstsLonger(Reached(g, cap, root, a), Reached(g, cap, root, b));
  }

  /** The list after `heads[k]` is what that one reaches, each id once. */
  predicate NextHead(g: Graph, cap: nat, root: Id, heads: seq<seq<Id>>, k: nat)
    requires k + 1 < |heads|
  {
    heads[k + 1] == Firsts(Reached(g, cap, root, heads[k]))
  }

  lemma {:induction false} HeadsGrow(g: Graph, cap: nat, root: Id, heads: seq<seq<Id>>, k: nat)
    requires k + 1 < |heads| && heads[0] == [] && forall j: nat | j < |heads| - 1 :: NextHead(g, cap, root, heads, j)
    ensures heads[k] <= heads[k + 1]
  {
    if k > 0 {
      HeadsGrow(g, cap, root, heads, k - 1);
      assert NextHead(g, cap, root, heads, k - 1) && NextHead(g, cap, root, heads, k);
      LayerLonger(g, cap, root, heads[k - 1], heads[k], heads[k + 1]);
    }
  }

  function LayerHeads(g: Graph, cap: nat, root: Id, n: nat): (heads: seq<seq<Id>>)
    ensures |heads| == n + 1
  {
    seq(n + 1, k requires 0 <= k <= n => Layers(g, cap, root, k))
  }

  lemma LayerHeadsFollow(g: Graph, cap: nat, root: Id, n: nat)
    ensures var heads := LayerHeads(g, cap, root, n); heads[0] == [] && forall j: nat | j < |heads| - 1 :: NextHead(g, cap, root, heads, j)
  {
    var heads := LayerHeads(g, cap, root, n);
    forall j: nat | j < |heads| - 1 ensures NextHead(g, cap, root, heads, j) {
      assert heads[j + 1] == Layers(g, cap, root, j + 1);
    }
  }

  /** More layers only append. */
  lemma LayersGrow(g: Graph, cap: nat, root: Id, k: nat)
    ensures Layers(g, cap, root, k) <= Layers(g, cap, root, k + 1)
  {
    LayerHeadsFollow(g, cap, root, k + 1);
    var heads := LayerHeads(g, cap, root, k + 1);
    HeadsGrow(g, cap, root, heads, k);
    assert heads[k] == Layers(g, cap, root, k) && heads[k + 1] == Layers(g, cap, root, k + 1);
  }

  lemma {:induction false} EndsOutsideAre(g: Graph, es: seq<EdgeId>, v: Id, known: set<Id>, w: Id)
    ensures w in EndsOutside(g, es, v, known) <==> w !in known && exists k | 0 <= k < |es| :: FarEnd(g, es[k], v) == Some(w)
  {
    if es != [] {
      var n := |es| - 1;
      EndsOutsideAre(g, es[..n], v, known, w);
      assert forall k | 0 <= k < n :: es[..n][k] == es[k];
    }
  }

  lemma EndsOutsideNext(g: Graph, cap: nat, v: Id, known: set<Id>, w: Id)
    ensures w in EndsOutside(g, Selected(g, cap, v), v, known) <==> w !in known && w in Next(Followed(g, cap), v)
  {
    EndsOutsideAre(g, Selected(g, cap, v), v, known, w);
  }

  /** What is reached is the root or a neighbour, and every neighbour is reached or in the list. */
  lemma {:induction false} ReachedAre(g: Graph, cap: nat, root: Id, ids: seq<Id>, w: Id)
    ensures w in Reached(g, cap, root, ids) ==> w == root || exists u | u in ids :: w in Next(Followed(g, cap), u)
    ensures (exists u | u in ids :: w in Next(Followed(g, cap), u)) ==> w in Reached(g, cap, root, ids) || w in ids
  {
    if ids != [] {
      var n := |ids| - 1;
      ReachedAre(g, cap, root, ids[..n], w);
      EndsOutsideNext(g, cap, ids[n], Among(ids), w);
      assert forall u :: u in ids <==> u in ids[..n] || u == ids[n];
    }
  }

  lemma NextLayer(g: Graph, cap: nat, root: Id, ids: seq<Id>)
    requires root in ids && ids <= Firsts(Reached(g, cap, root, ids))
    ensures Among(Firsts(Reached(g, cap, root, ids))) == Widen(Followed(g, cap), Among(ids))
  {
    var next := Firsts(Reached(g, cap, root, ids));
    FirstsSame(Reached(g, cap, root, ids));
    assert forall w :: w in next <==> w in Among(next);
    forall w ensures w in next <==> w in Widen(Followed(g, cap), Among(ids)) {
      ReachedAre(g, cap, root, ids, w);
      if w in ids {
        assert w in next by {
          var i :| 0 <= i < |ids| && ids[i] == w;
          assert next[i] == w;
        }
      }
    }
  }

  /** The layers list exactly the ids within so many hops, each once. */
  lemma {:induction false} LayersAreBall(g: Graph, cap: nat, root: Id, k: nat)
    ensures Among(Layers(g, cap, root, k + 1)) == Ball(Followed(g, cap), root, k)
    ensures var ids := Layers(g, cap, root, k + 1); forall i, j | 0 <= i < j < |ids| :: ids[i] != ids[j]
  {
    var ids := Layers(g, cap, root, k);
    FirstsDistinct(Reached(g, cap, root, ids));
    if k == 0 {
      FirstsSame([root]);
      assert Layers(g, cap, root, 1) == Firsts([root]) && Among([root]) == {root};
    } else {
      LayersAreBall(g, cap, root, k - 1);
      BallGrows(Followed(g, cap), root, 0, k - 1);
      assert root in Among(ids);
      LayersGrow(g, cap, root, k);
      NextLayer(g, cap, root, ids);
    }
  }

  // ---------- the queue in terms of the layers ----------

  function Ids(q: seq<Visit>): (ids: seq<Id>)
    ensures |ids| == |q|
  {
    seq(|q|, i requires 0 <= i < |q| => q[i].id)
  }

  /** The entries nearer than `k`. */
  function Below(q: seq<Visit>, k: nat): seq<Visit> {
    if q == [] then []
    else
      var n := |q| - 1;
      Below(q[..n], k) + if q[n].depth < k then [q[n]] else []
  }

  lemma BelowSnoc(q: seq<Visit>, x: Visit, k: nat)
    ensures Below(q + [x], k) == Below(q, k) + if x.depth < k then [x] else []
  {
    assert (q + [x])[..|q|] == q;
  }

  lemma AppendSnoc(a: seq<Visit>, b: seq<Visit>)
    requires b != []
    ensures a + b == a + b[..|b| - 1] + [b[|b| - 1]]
  {
  }

  lemma Regroup(a: seq<Visit>, b: seq<Visit>, c: seq<Visit>)
    ensures a + b + c == a + (b + c)
  {
  }

  lemma BelowLast(q: seq<Visit>, k: nat)
    requires q != []
    ensures Below(q, k) == Below(q[..|q| - 1], k) + if q[|q| - 1].depth < k then [q[|q| - 1]] else []
  {
  }

  lemma {:induction false} BelowAppend(q: seq<Visit>, more: seq<Visit>, k: nat)
    ensures Below(q + more, k) == Below(q, k) + Below(more, k)
    decreases |more|
  {
    if more == [] {
      assert q + more == q;
    } else {
      var init, last := more[..|more| - 1], more[|more| - 1];
      AppendSnoc(q, more);
      BelowAppend(q, init, k);
      BelowSnoc(q + init, last, k);
      BelowLast(more, k);
      Regroup(Below(q, k), Below(init, k), if last.depth < k then [last] else []);
    }
  }

  lemma {:induction false} BelowAll(q: seq<Visit>, k: nat)
    ensures (forall i | 0 <= i < |q| :: q[i].depth < k) ==> Below(q, k) == q
    ensures (forall i | 0 <= i < |q| :: q[i].depth >= k) ==> Below(q, k) == []
  {
    if q != [] { BelowAll(q[..|q| - 1], k); }
  }

  lemma IdsAppend(a: seq<Visit>, b: seq<Visit>)
    ensures Ids(a + b) == Ids(a) + Ids(b)
  {
  }

  lemma IdsQueued(q: seq<Visit>)
    ensures Among(Ids(q)) == Queued(q)
  {
    forall id ensures id in Among(Ids(q)) <==> id in Queued(q) {
      if k :| 0 <= k < |q| && q[k].id == id {
        assert Ids(q)[k] == id;
      }
    }
  }

  lemma {:induction false} OffersEnds(g: Graph, es: seq<EdgeId>, v: Id, depth: nat, known: set<Id>)
    ensures Ids(Offers(g, es, v, depth, known)) == EndsOutside(g, es, v, known)
    ensures forall x | x in Offers(g, es, v, depth, known) :: x.depth == depth + 1
  {
    if es != [] { OffersEnds(g, es[..|es| - 1], v, depth, known); }
  }

  /** The queue never falls back, never goes past the depth limit and looks at most one layer ahead. */
  predicate Ascends(log: seq<Visit>, n: nat, maxDepth: nat) {
    && (forall i, j | 0 <= i < j < |log| :: log[i].depth <= log[j].depth)
    && (forall i | 0 <= i < |log| :: log[i].depth <= maxDepth)
    && (forall i | 0 <= i < |log| && n < |log| :: log[i].depth <= log[n].depth + 1)
  }

  lemma AscendsMore(log: seq<Visit>, n: nat, more: seq<Visit>, maxDepth: nat)
    requires n < |log| && Ascends(log, n, maxDepth)
    requires forall x | x in more :: x.depth == log[n].depth + 1 <= maxDepth
    ensures Ascends(log + more, n + 1, maxDepth)
  {
    var after := log + more;
    assert forall i | |log| <= i < |after| :: after[i] in more;
  }

  lemma EntriesDeeper(g: Graph, cap: nat, maxDepth: nat, front: Visit, seen: set<Id>)
    ensures forall x | x in NewEntries(g, cap, maxDepth, front, seen) :: x.depth == front.depth + 1 <= maxDepth
  {
    OffersEnds(g, Selected(g, cap, front.id), front.id, front.depth, seen + {front.id});
  }

  lemma {:induction false} LogAscends(g: Graph, cap: nat, root: Id, maxDepth: nat, n: nat)
    requires n <= |Log(g, cap, root, maxDepth, n)|
    ensures Ascends(Log(g, cap, root, maxDepth, n), n, maxDepth)
  {
    if n > 0 {
      var log := Log(g, cap, root, maxDepth, n - 1);
      LogAscends(g, cap, root, maxDepth, n - 1);
      var more := NewEntries(g, cap, maxDepth, log[n - 1], Queued(log[..n - 1]));
      assert Log(g, cap, root, maxDepth, n) == log + more;
      EntriesDeeper(g, cap, maxDepth, log[n - 1], Queued(log[..n - 1]));
      AscendsMore(log, n - 1, more, maxDepth);
    }
  }

  /** The entries queued are what the ids taken reach. */
  predicate Follows(g: Graph, cap: nat, root: Id, queued: seq<Visit>, taken: seq<Visit>) {
    Ids(queued) == Reached(g, cap, root, Firsts(Ids(taken)))
  }

  /** Taking one more entry. */
  lemma FollowsMore(g: Graph, cap: nat, root: Id, maxDepth: nat, queued: seq<Visit>, taken: seq<Visit>, front: Visit)
    requires Follows(g, cap, root, queued, taken) && front.depth < maxDepth
    ensures Follows(g, cap, root, queued + NewEntries(g, cap, maxDepth, front, Queued(taken)), taken + [front])
  {
    IdsAppend(taken, [front]);
    IdsAppend(queued, NewEntries(g, cap, maxDepth, front, Queued(taken)));
    IdsQueued(taken);
    assert Ids([front]) == [front.id];
    FirstsSnoc(Ids(taken), front.id);
    var firsts := Firsts(Ids(taken));
    FirstsSame(Ids(taken));
    if front.id !in Queued(taken) {
      ReachedSnoc(g, cap, root, firsts, front.id);
      OffersEnds(g, Selected(g, cap, front.id), front.id, front.depth, Queued(taken) + {front.id});
    }
  }

  /** What a step of the queue does to the entries nearer than some `k`. */
  lemma BelowStep(log: seq<Visit>, n: nat, more: seq<Visit>, k: nat)
    requires n < |log| && (forall x | x in more :: x.depth == log[n].depth + 1)
    ensures Below(log + more, k + 1) == Below(log, k + 1) + if log[n].depth < k then more else []
    ensures Below((log + more)[..n + 1], k) == Below(log[..n], k) + if log[n].depth < k then [log[n]] else []
  {
    BelowAppend(log, more, k + 1);
    BelowAll(more, k + 1);
    BelowTaken(log, n, more, k);
  }

  lemma BelowTaken(log: seq<Visit>, n: nat, more: seq<Visit>, k: nat)
    requires n < |log|
    ensures Below((log + more)[..n + 1], k) == Below(log[..n], k) + if log[n].depth < k then [log[n]] else []
  {
    assert (log + more)[..n + 1] == log[..n] + [log[n]];
    BelowSnoc(log[..n], log[n], k);
  }

  lemma StepFollows(g: Graph, cap: nat, root: Id, maxDepth: nat, log: seq<Visit>, n: nat, k: nat)
    requires n < |log| && k <= maxDepth && Ascends(log, n, maxDepth)
    requires Follows(g, cap, root, Below(log, k + 1), Below(log[..n], k))
    ensures var after := log + NewEntries(g, cap, maxDepth, log[n], Queued(log[..n]));
            Follows(g, cap, root, Below(after, k + 1), Below(after[..n + 1], k))
  {
    var more := NewEntries(g, cap, maxDepth, log[n], Queued(log[..n]));
    EntriesDeeper(g, cap, maxDepth, log[n], Queued(log[..n]));
    BelowStep(log, n, more, k);
    if log[n].depth < k {
      BelowAll(log[..n], k);
      FollowsMore(g, cap, root, maxDepth, Below(log, k + 1), log[..n], log[n]);
    } else {
      assert Below(log, k + 1) + [] == Below(log, k + 1) && Below(log[..n], k) + [] == Below(log[..n], k);
    }
  }

  /** At every step, for every layer: the ids queued nearer than `k + 1` are what those taken nearer than
      `k` reach. */
  lemma {:induction false} LogFollows(g: Graph, cap: nat, root: Id, maxDepth: nat, n: nat, k: nat)
    requires n <= |Log(g, cap, root, maxDepth, n)| && k <= maxDepth
    ensures var log := Log(g, cap, root, maxDepth, n); Follows(g, cap, root, Below(log, k + 1), Below(log[..n], k))
  {
    if n == 0 {
      BelowAll([Visit(root, 0)], k + 1);
    } else {
      LogFollows(g, cap, root, maxDepth, n - 1, k);
      LogAscends(g, cap, root, maxDepth, n - 1);
      StepFollows(g, cap, root, maxDepth, Log(g, cap, root, maxDepth, n - 1), n - 1, k);
    }
  }

  /** The ids queued nearer than 0 to `n`, each once. */
  function Heads(log: seq<Visit>, n: nat): (heads: seq<seq<Id>>)
    ensures |heads| == n + 1
  {
    seq(n + 1, k requires 0 <= k <= n => Firsts(Ids(Below(log, k))))
  }

  lemma {:induction false} HeadsAreLayers(g: Graph, cap: nat, root: Id, heads: seq<seq<Id>>, k: nat)
    requires k < |heads| && heads[0] == [] && forall j: nat | j < |heads| - 1 :: NextHead(g, cap, root, heads, j)
    ensures heads[k] == Layers(g, cap, root, k)
  {
    if k > 0 {
      HeadsAreLayers(g, cap, root, heads, k - 1);
      assert NextHead(g, cap, root, heads, k - 1);
    }
  }

  lemma EmptiedFollows(g: Graph, cap: nat, root: Id, maxDepth: nat, log: seq<Visit>, k: nat)
    requires Emptied(g, cap, root, maxDepth, log) && k <= maxDepth
    ensures Ids(Below(log, k + 1)) == Reached(g, cap, root, Heads(log, maxDepth)[k])
  {
    LogFollows(g, cap, root, maxDepth, |log|, k);
    assert log[..|log|] == log;
  }

  lemma HeadsFollow(g: Graph, cap: nat, root: Id, maxDepth: nat, log: seq<Visit>)
    requires Emptied(g, cap, root, maxDepth, log)
    ensures Heads(log, maxDepth)[0] == []
    ensures forall k: nat | k < maxDepth :: NextHead(g, cap, root, Heads(log, maxDepth), k)
  {
    BelowAll(log, 0);
    forall k: nat | k < maxDepth ensures NextHead(g, cap, root, Heads(log, maxDepth), k) {
      EmptiedFollows(g, cap, root, maxDepth, log, k);
    }
  }

  lemma EmptiedAll(g: Graph, cap: nat, root: Id, maxDepth: nat, log: seq<Visit>)
    requires Emptied(g, cap, root, maxDepth, log)
    ensures Below(log, maxDepth + 1) == log
  {
    LogAscends(g, cap, root, maxDepth, |log|);
    BelowAll(log, maxDepth + 1);
  }

  /** All that is ever queued: what the ids nearer than the depth limit reach. */
  lemma QueueHolds(g: Graph, cap: nat, root: Id, maxDepth: nat, log: seq<Visit>)
    requires Emptied(g, cap, root, maxDepth, log)
    ensures Ids(log) == Reached(g, cap, root, Layers(g, cap, root, maxDepth))
  {
    HeadsFollow(g, cap, root, maxDepth, log);
    HeadsAreLayers(g, cap, root, Heads(log, maxDepth), maxDepth);
    EmptiedFollows(g, cap, root, maxDepth, log, maxDepth);
    EmptiedAll(g, cap, root, maxDepth, log);
  }

  /** The last id reached from those nearer than the depth limit is reached before as well. */
  predicate LastReachedTwice(g: Graph, cap: nat, root: Id, maxDepth: nat) {
    var ids := Reached(g, cap, root, Layers(g, cap, root, maxDepth));
    ids[|ids| - 1] in ids[..|ids| - 1]
  }

  /** Once emptied, the queue ended with a repeat exactly if the last id was reached before as well. */
  lemma LastRepeatsIff(g: Graph, cap: nat, root: Id, maxDepth: nat, log: seq<Visit>)
    requires Emptied(g, cap, root, maxDepth, log) && log != []
    ensures LastRepeats(log) <==> LastReachedTwice(g, cap, root, maxDepth)
  {
    QueueHolds(g, cap, root, maxDepth, log);
    var n := |log| - 1;
    IdsQueued(log[..n]);
    assert Ids(log[..n]) == Ids(log)[..n] && Ids(log)[n] == log[n].id;
  }
}
