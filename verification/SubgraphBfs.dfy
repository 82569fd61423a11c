/** The bounded breadth-first expansion of jvspatial/core/graph_expansion.py (`subgraph_bfs`). */
module SubgraphBfs {
  import opened BfsLayers
  import opened FollowedEdges
  import opened QueueOrder

  /** The stored records among the given edges. */
  function Records(g: Graph, eids: set<EdgeId>): map<EdgeId, Edge> {
    map eid | eid in eids && eid in g.edges :: g.edges[eid]
  }

  function Members(eids: seq<EdgeId>): set<EdgeId> {
    set eid | eid in eids
  }

  /** The edges followed from the ids visited below the depth limit; `picks` gives the edges followed
      from each id. */
  function MetIds(picks: map<Id, seq<EdgeId>>, dist: map<Id, nat>, maxDepth: nat): set<EdgeId> {
    set v, eid | v in dist && dist[v] < maxDepth && v in picks && eid in picks[v] :: eid
  }

  function Picks(g: Graph, cap: nat): map<Id, seq<EdgeId>> {
    map v | v in g.nodes :: Selected(g, cap, v)
  }

  /** The edge records met while expanding the ids visited below the depth limit. */
  function Met(g: Graph, cap: nat, dist: map<Id, nat>, maxDepth: nat): map<EdgeId, Edge> {
    Records(g, MetIds(Picks(g, cap), dist, maxDepth))
  }

  /** `selected` is what `picks` lists for `v`, or there is nothing to list. */
  predicate Picked(picks: map<Id, seq<EdgeId>>, v: Id, selected: seq<EdgeId>) {
    if v in picks then picks[v] == selected else selected == []
  }

  function FollowedRecords(g: Graph, cap: nat, v: Id): map<EdgeId, Edge> {
    Records(g, Members(Selected(g, cap, v)))
  }

  lemma RecordsMore(g: Graph, picks: map<Id, seq<EdgeId>>, dist: map<Id, nat>, maxDepth: nat, v: Id, depth: nat, selected: seq<EdgeId>)
    requires v !in dist && Picked(picks, v, selected)
    ensures Records(g, MetIds(picks, dist[v := depth], maxDepth))
            == Records(g, MetIds(picks, dist, maxDepth)) + Records(g, if depth < maxDepth then Members(selected) else {})
  {
    RecordsUnion(g, MetIds(picks, dist, maxDepth), if depth < maxDepth then Members(selected) else {});
  }

  lemma MetMore(g: Graph, cap: nat, dist: map<Id, nat>, maxDepth: nat, v: Id, depth: nat)
    requires v !in dist
    ensures Met(g, cap, dist[v := depth], maxDepth)
            == Met(g, cap, dist, maxDepth) + if depth < maxDepth then FollowedRecords(g, cap, v) else map[]
  {
    RecordsMore(g, Picks(g, cap), dist, maxDepth, v, depth, Selected(g, cap, v));
  }

  lemma RecordsUnion(g: Graph, a: set<EdgeId>, b: set<EdgeId>)
    ensures Records(g, a + b) == Records(g, a) + Records(g, b)
  {
  }

  /** The edge list of an expanded id was cut. */
  predicate Cut(g: Graph, cap: nat, dist: map<Id, nat>, maxDepth: nat) {
    exists v | v in dist :: dist[v] < maxDepth && |EdgeList(g, v)| > cap
  }

  lemma CutMore(g: Graph, cap: nat, dist: map<Id, nat>, maxDepth: nat, v: Id, depth: nat)
    requires v !in dist
    ensures Cut(g, cap, dist[v := depth], maxDepth) <==> Cut(g, cap, dist, maxDepth) || (depth < maxDepth && |EdgeList(g, v)| > cap)
  {
    var more := dist[v := depth];
    assert v in more && forall u | u in dist :: u in more && more[u] == dist[u];
  }

  function Clamp(x: int, low: nat, high: nat): nat
    requires low <= high
  {
    if x < low then low else if x > high then high else x
  }

  /** Some edge of the list leads from `v` to `w`. */
  predicate Leads(g: Graph, es: seq<EdgeId>, v: Id, w: Id) {
    exists k | 0 <= k < |es| :: FarEnd(g, es[k], v) == Some(w)
  }

  /** Every queued entry lies one followed edge further, and every far end is seen or queued. */
  predicate QueuedEnds(g: Graph, selected: seq<EdgeId>, n: nat, v: Id, depth: nat, seen: set<Id>, added: seq<Visit>)
    requires n <= |selected|
  {
    && (forall j | 0 <= j < |added| :: added[j].depth == depth + 1 && Leads(g, selected, v, added[j].id))
    && (forall k | 0 <= k < n && FarEnd(g, selected[k], v).Some? :: FarEnd(g, selected[k], v).value in seen + Queued(added))
  }

  lemma QueuedEnd(g: Graph, selected: seq<EdgeId>, n: nat, v: Id, depth: nat, seen: set<Id>, added: seq<Visit>, w: Id)
    requires n < |selected| && FarEnd(g, selected[n], v) == Some(w)
    requires QueuedEnds(g, selected, n, v, depth, seen, added)
    ensures QueuedEnds(g, selected, n + 1, v, depth, seen, added + [Visit(w, depth + 1)])
  {
    var one := [Visit(w, depth + 1)];
    QueueAppend(added, one, depth);
    assert one[0].id in Queued(one);
  }

  /** What following the first `n` edges has recorded. */
  function RecordedUpTo(g: Graph, es: seq<EdgeId>, n: nat, edges: map<EdgeId, Edge>): map<EdgeId, Edge>
    requires n <= |es|
  {
    edges + Records(g, Members(es[..n]))
  }

  lemma RecordsSnoc(g: Graph, es: seq<EdgeId>, i: nat, edges: map<EdgeId, Edge>)
    requires i < |es|
    ensures RecordedUpTo(g, es, i + 1, edges) ==
            if es[i] in g.edges then RecordedUpTo(g, es, i, edges)[es[i] := g.edges[es[i]]] else RecordedUpTo(g, es, i, edges)
  {
  }

  /** One edge is looked at: recorded if it is stored, its far end queued if that is unseen. */
  method FollowOne(g: Graph, selected: seq<EdgeId>, i: nat, v: Id, depth: nat, seen: set<Id>,
                   edges: map<EdgeId, Edge>, q: seq<Visit>, ghost added: seq<Visit>)
    returns (edges': map<EdgeId, Edge>, q': seq<Visit>, ghost more: seq<Visit>)
    requires i < |selected| && QueuedEnds(g, selected, i, v, depth, seen, added)
    ensures edges' == if selected[i] in g.edges then edges[selected[i] := g.edges[selected[i]]] else edges
    ensures q' == q + more && QueuedEnds(g, selected, i + 1, v, depth, seen, added + more)
    ensures var other := FarEnd(g, selected[i], v);
            more == if other.Some? && other.value !in seen then [Visit(other.value, depth + 1)] else []
  {
    var eid := selected[i];
    edges', q', more := edges, q, [];
    assert added + [] == added;
    if eid in g.edges {
      edges' := edges[eid := g.edges[eid]];
      var other := OtherEndpoint(g.edges[eid], v);
      if other.Some? && other.value !in seen {
        QueuedEnd(g, selected, i, v, depth, seen, added, other.value);
        q', more := q + [Visit(other.value, depth + 1)], [Visit(other.value, depth + 1)];
      }
    }
  }

  /** The followed edges of `v` are recorded and their unseen far ends appended to the queue. */
  method FollowEdges(g: Graph, selected: seq<EdgeId>, v: Id, depth: nat, seen: set<Id>, edges: map<EdgeId, Edge>, q: seq<Visit>)
    returns (edges': map<EdgeId, Edge>, q': seq<Visit>, ghost added: seq<Visit>)
    ensures edges' == edges + Records(g, Members(selected))
    ensures q' == q + added && added == Offers(g, selected, v, depth, seen)
    ensures QueuedEnds(g, selected, |selected|, v, depth, seen, added)
  {
    edges', q', added := edges, q, [];
    for i := 0 to |selected|
      invariant edges' == RecordedUpTo(g, selected, i, edges)
      invariant q' == q + added && added == Offers(g, selected[..i], v, depth, seen)
      invariant QueuedEnds(g, selected, i, v, depth, seen, added)
    {
      OffersSnoc(g, selected, i, v, depth, seen);
      RecordsSnoc(g, selected, i, edges);
      ghost var more;
      edges', q', more := FollowOne(g, selected, i, v, depth, seen, edges', q', added);
      assert q + added + more == q + (added + more);
      added := added + more;
    }
    assert selected[..|selected|] == selected;
  }

  /** What `subgraph_bfs` promises of the visited ids `seen`, the edge records and the flag; `dist` is
      the depth at which each id was visited, `stopped` whether the node limit ended the search. */
  ghost predicate Expansion(g: Graph, root: Id, maxDepth: nat, maxNodes: nat, cap: nat,
                            seen: set<Id>, edges: map<EdgeId, Edge>, truncated: bool,
                            dist: map<Id, nat>, stopped: bool) {
    var adj := Followed(g, cap);
    && dist.Keys == seen && |seen| <= maxNodes && (stopped ==> |seen| == maxNodes)
    && (forall v | v in seen :: dist[v] <= maxDepth && AtDistance(Balls(adj, root, maxDepth), v, dist[v]))
    && (forall k: nat, v | v in seen && v !in Ball(adj, root, k) :: Ball(adj, root, k) <= seen)
    && (!stopped ==> seen == Ball(adj, root, maxDepth))
    && (!stopped ==> forall v | v in seen && dist[v] < maxDepth :: Next(adj, v) <= seen)
    && edges == Met(g, cap, dist, maxDepth)
    && (truncated <==> stopped || Cut(g, cap, dist, maxDepth))
  }

  /** An id is expanded: the records followed from it are added and its unseen neighbours queued. */
  method Expand(g: Graph, cap: nat, v: Id, depth: nat, seen: set<Id>, edges: map<EdgeId, Edge>, q: seq<Visit>)
    returns (edges': map<EdgeId, Edge>, q': seq<Visit>, cut: bool, ghost added: seq<Visit>)
    requires v in seen
    ensures edges' == edges + FollowedRecords(g, cap, v)
    ensures cut <==> |EdgeList(g, v)| > cap
    ensures q' == q + added && added == Offers(g, Selected(g, cap, v), v, depth, seen)
    ensures forall j | 0 <= j < |added| :: added[j].depth == depth + 1 && added[j].id in Next(Followed(g, cap), v)
    ensures Next(Followed(g, cap), v) <= seen + Queued(added)
  {
    var selected := Selected(g, cap, v);
    cut := |EdgeList(g, v)| > |selected|;
    edges', q', added := FollowEdges(g, selected, v, depth, seen, edges, q);
    EndsAreNext(g, cap, v, depth, seen, added);
  }

  lemma EndsAreNext(g: Graph, cap: nat, v: Id, depth: nat, seen: set<Id>, added: seq<Visit>)
    requires QueuedEnds(g, Selected(g, cap, v), |Selected(g, cap, v)|, v, depth, seen, added)
    ensures forall j | 0 <= j < |added| :: added[j].depth == depth + 1 && added[j].id in Next(Followed(g, cap), v)
    ensures Next(Followed(g, cap), v) <= seen + Queued(added)
  {
    var selected := Selected(g, cap, v);
    forall j | 0 <= j < |added| ensures added[j].id in Next(Followed(g, cap), v) {
      assert Leads(g, selected, v, added[j].id);
    }
  }

  /** An id at the depth limit is not expanded. */
  method ExpandBelow(g: Graph, cap: nat, front: Visit, maxDepth: nat, ghost before: set<Id>, seen: set<Id>, edges: map<EdgeId, Edge>, q: seq<Visit>)
    returns (edges': map<EdgeId, Edge>, q': seq<Visit>, cut: bool, ghost added: seq<Visit>)
    requires front.id !in before && seen == before + {front.id} && front.depth <= maxDepth
    ensures edges' == edges + if front.depth < maxDepth then FollowedRecords(g, cap, front.id) else map[]
    ensures cut <==> front.depth < maxDepth && |EdgeList(g, front.id)| > cap
    ensures q' == q + added && added == NewEntries(g, cap, maxDepth, front, before)
    ensures front.depth == maxDepth ==> added == []
    ensures forall j | 0 <= j < |added| :: added[j].depth == front.depth + 1 && added[j].id in Next(Followed(g, cap), front.id)
    ensures front.depth < maxDepth ==> Next(Followed(g, cap), front.id) <= seen + Queued(added)
  {
    if front.depth >= maxDepth {
      edges', q', cut, added := edges, q, false, [];
    } else {
      edges', q', cut, added := Expand(g, cap, front.id, front.depth, seen, edges, q);
    }
  }

  /** The search after the front of the queue is visited. */
  lemma Visited(g: Graph, root: Id, cap: nat, maxDepth: nat, q: seq<Visit>, dist: map<Id, nat>, d: nat, added: seq<Visit>)
    requires q != [] && q[0].depth == d && q[0].id !in dist && Searching(Followed(g, cap), root, dist, q, d, maxDepth)
    requires d == maxDepth ==> added == []
    requires forall j | 0 <= j < |added| :: added[j].depth == d + 1 && added[j].id in Next(Followed(g, cap), q[0].id)
    requires d < maxDepth ==> Next(Followed(g, cap), q[0].id) <= dist.Keys + {q[0].id} + Queued(added)
    ensures Searching(Followed(g, cap), root, dist[q[0].id := d], q[1..] + added, d, maxDepth)
    ensures Met(g, cap, dist[q[0].id := d], maxDepth)
            == Met(g, cap, dist, maxDepth) + if d < maxDepth then FollowedRecords(g, cap, q[0].id) else map[]
    ensures Cut(g, cap, dist[q[0].id := d], maxDepth) <==> Cut(g, cap, dist, maxDepth) || (d < maxDepth && |EdgeList(g, q[0].id)| > cap)
  {
    MetMore(g, cap, dist, maxDepth, q[0].id, d);
    CutMore(g, cap, dist, maxDepth, q[0].id, d);
    VisitFront(Followed(g, cap), root, dist, q, d, maxDepth, added);
  }

  /** The front of the queue is visited for the first time and, below the depth limit, expanded. */
  method VisitOne(g: Graph, root: Id, cap: nat, maxDepth: nat, seen: set<Id>, edges: map<EdgeId, Edge>, q: seq<Visit>,
                  ghost dist: map<Id, nat>, ghost d: nat)
    returns (seen': set<Id>, edges': map<EdgeId, Edge>, q': seq<Visit>, cut: bool, ghost dist': map<Id, nat>)
    requires q != [] && q[0].depth == d && dist.Keys == seen && q[0].id !in seen
    requires Searching(Followed(g, cap), root, dist, q, d, maxDepth)
    requires edges == Met(g, cap, dist, maxDepth)
    ensures seen' == seen + {q[0].id} && dist'.Keys == seen'
    ensures q' == q[1..] + NewEntries(g, cap, maxDepth, q[0], seen)
    ensures Searching(Followed(g, cap), root, dist', q', d, maxDepth)
    ensures edges' == Met(g, cap, dist', maxDepth)
    ensures Cut(g, cap, dist', maxDepth) <==> Cut(g, cap, dist, maxDepth) || cut
  {
    seen', dist' := seen + {q[0].id}, dist[q[0].id := q[0].depth];
    ghost var added;
    edges', q', cut, added := ExpandBelow(g, cap, q[0], maxDepth, seen, seen', edges, q[1..]);
    Visited(g, root, cap, maxDepth, q, dist, d, added);
  }

  /** Taking an id that was visited before only shortens the queue. */
  lemma Dropped(g: Graph, cap: nat, maxDepth: nat, q: seq<Visit>, seen: set<Id>)
    requires q != [] && q[0].id in seen
    ensures seen == seen + {q[0].id} && q[1..] == q[1..] + NewEntries(g, cap, maxDepth, q[0], seen)
  {
  }

  /** The front of the queue is dropped or visited. */
  method TakeFront(g: Graph, root: Id, cap: nat, maxDepth: nat, seen: set<Id>, edges: map<EdgeId, Edge>, q: seq<Visit>,
                   ghost dist: map<Id, nat>, ghost d: nat)
    returns (seen': set<Id>, edges': map<EdgeId, Edge>, q': seq<Visit>, cut: bool, ghost dist': map<Id, nat>)
    requires q != [] && q[0].depth == d && dist.Keys == seen
    requires Searching(Followed(g, cap), root, dist, q, d, maxDepth)
    requires edges == Met(g, cap, dist, maxDepth)
    ensures seen' == seen + {q[0].id} && dist'.Keys == seen'
    ensures q' == q[1..] + NewEntries(g, cap, maxDepth, q[0], seen)
    ensures Searching(Followed(g, cap), root, dist', q', d, maxDepth)
    ensures edges' == Met(g, cap, dist', maxDepth)
    ensures Cut(g, cap, dist', maxDepth) <==> Cut(g, cap, dist, maxDepth) || cut
  {
    if q[0].id in seen {
      SkipVisited(Followed(g, cap), root, dist, q, d, maxDepth);
      Dropped(g, cap, maxDepth, q, seen);
      seen', edges', q', cut, dist' := seen, edges, q[1..], false, dist;
    } else {
      seen', edges', q', cut, dist' := VisitOne(g, root, cap, maxDepth, seen, edges, q, dist, d);
    }
  }

  /** Either one more id is seen or the queue is shorter. */
  lemma Progress(g: Graph, cap: nat, maxDepth: nat, q: seq<Visit>, seen: set<Id>, q': seq<Visit>, seen': set<Id>)
    requires q != [] && seen' == seen + {q[0].id} && q' == q[1..] + NewEntries(g, cap, maxDepth, q[0], seen)
    ensures if q[0].id in seen then seen' == seen && |q'| < |q| else |seen'| == |seen| + 1
  {
  }

  /** The layer the front of the queue lies in. */
  lemma FrontLayer(adj: Links, root: Id, dist: map<Id, nat>, q: seq<Visit>, d: nat, maxDepth: nat)
    requires Searching(adj, root, dist, q, d, maxDepth) && q != []
    ensures Searching(adj, root, dist, q, q[0].depth, maxDepth)
  {
  }

  // ---------- when the flag is set ----------

  /** The last id taken was taken for the first time. */
  predicate LastIsNew(g: Graph, cap: nat, root: Id, maxDepth: nat, n: nat)
    requires n <= |Log(g, cap, root, maxDepth, n)|
  {
    n > 0 && !LastRepeats(Log(g, cap, root, maxDepth, n)[..n])
  }

  /** The ids nearer than the depth limit. */
  function Nearer(adj: Links, root: Id, maxDepth: nat): set<Id> {
    if maxDepth == 0 then {} else Ball(adj, root, maxDepth - 1)
  }

  predicate CutAmong(g: Graph, cap: nat, ids: set<Id>) {
    exists v | v in ids :: |EdgeList(g, v)| > cap
  }

  /** The edge list of an id nearer than the depth limit is cut. */
  predicate CutWithin(g: Graph, cap: nat, root: Id, maxDepth: nat) {
    CutAmong(g, cap, Nearer(Followed(g, cap), root, maxDepth))
  }

  lemma SubsetCount(a: set<Id>, b: set<Id>)
    requires a <= b
    ensures |a| <= |b| && (|a| == |b| ==> a == b)
  {
    assert b == a + (b - a);
    if |a| == |b| {
      assert b - a == {};
    }
  }

  /** What was visited lies within the depth limit, and is all of it if the node limit has room for that. */
  lemma WithinBall(adj: Links, root: Id, dist: map<Id, nat>, maxDepth: nat, maxNodes: nat, stopped: bool)
    requires forall v | v in dist :: dist[v] <= maxDepth && AtDistance(Balls(adj, root, maxDepth), v, dist[v])
    requires |dist.Keys| <= maxNodes && (if stopped then |dist.Keys| == maxNodes else dist.Keys == Ball(adj, root, maxDepth))
    ensures dist.Keys == Ball(adj, root, maxDepth) <==> |Ball(adj, root, maxDepth)| <= maxNodes
    ensures |Ball(adj, root, maxDepth)| > maxNodes ==> stopped
    ensures |Ball(adj, root, maxDepth)| < maxNodes ==> !stopped
  {
    forall v | v in dist ensures v in Ball(adj, root, maxDepth) {
      BallGrows(adj, root, dist[v], maxDepth);
      assert v in Balls(adj, root, maxDepth)[dist[v]];
    }
    SubsetCount(dist.Keys, Ball(adj, root, maxDepth));
  }

  lemma DistanceIs(adj: Links, root: Id, maxDepth: nat, v: Id, k: nat)
    requires k <= maxDepth && AtDistance(Balls(adj, root, maxDepth), v, k)
    ensures v in Ball(adj, root, k) && (k > 0 ==> v !in Ball(adj, root, k - 1))
  {
  }

  lemma NearerIff(adj: Links, root: Id, maxDepth: nat, v: Id, k: nat)
    requires k <= maxDepth && v in Ball(adj, root, k) && (k > 0 ==> v !in Ball(adj, root, k - 1))
    ensures k < maxDepth <==> v in Nearer(adj, root, maxDepth)
  {
    if k < maxDepth { BallGrows(adj, root, k, maxDepth - 1); }
  }

  lemma CutIsAmong(g: Graph, cap: nat, dist: map<Id, nat>, maxDepth: nat, ids: set<Id>)
    requires forall v | v in dist :: dist[v] < maxDepth <==> v in ids
    ensures Cut(g, cap, dist, maxDepth) ==> CutAmong(g, cap, ids)
    ensures ids <= dist.Keys ==> (Cut(g, cap, dist, maxDepth) <==> CutAmong(g, cap, ids))
  {
  }

  lemma AllNearer(adj: Links, root: Id, dist: map<Id, nat>, maxDepth: nat)
    requires forall v | v in dist :: dist[v] <= maxDepth && AtDistance(Balls(adj, root, maxDepth), v, dist[v])
    ensures forall v | v in dist :: dist[v] < maxDepth <==> v in Nearer(adj, root, maxDepth)
  {
    forall v | v in dist ensures dist[v] < maxDepth <==> v in Nearer(adj, root, maxDepth) {
      DistanceIs(adj, root, maxDepth, v, dist[v]);
      NearerIff(adj, root, maxDepth, v, dist[v]);
    }
  }

  lemma NearerWithin(adj: Links, root: Id, maxDepth: nat)
    ensures Nearer(adj, root, maxDepth) <= Ball(adj, root, maxDepth)
  {
    if maxDepth > 0 { BallGrows(adj, root, maxDepth - 1, maxDepth); }
  }

  /** With as many ids within the depth limit as the node limit allows, the search is stopped exactly if
      the last id reached from those nearer than the depth limit is reached before as well. */
  lemma StoppedAtLimit(g: Graph, cap: nat, root: Id, maxDepth: nat, n: nat, q: seq<Visit>, seen: set<Id>)
    requires AtStep(g, cap, root, maxDepth, n, q, seen) && LastIsNew(g, cap, root, maxDepth, n) && Queued(q) <= seen
    ensures q != [] <==> LastReachedTwice(g, cap, root, maxDepth)
  {
    var log := Log(g, cap, root, maxDepth, n);
    KnownRest(g, cap, root, maxDepth, n, q, seen);
    LastRepeatsIff(g, cap, root, maxDepth, log);
    if q == [] {
      assert log[..n] == log;
    } else {
      RestRepeats(log, n);
    }
  }

  lemma QueuedWithin(adj: Links, root: Id, dist: map<Id, nat>, q: seq<Visit>, d: nat, maxDepth: nat)
    requires Searching(adj, root, dist, q, d, maxDepth)
    ensures Queued(q) <= Ball(adj, root, maxDepth)
  {
    forall i | 0 <= i < |q| ensures q[i].id in Ball(adj, root, maxDepth) {
      BallGrows(adj, root, q[i].depth, maxDepth);
      assert Balls(adj, root, maxDepth)[q[i].depth] == Ball(adj, root, q[i].depth);
    }
  }

  /** Taking one more entry: if that fills the node limit, it was new. */
  lemma TakenIsNew(g: Graph, cap: nat, root: Id, maxDepth: nat, n: nat, q: seq<Visit>, seen: set<Id>)
    requires AtStep(g, cap, root, maxDepth, n, q, seen) && q != []
    ensures AtStep(g, cap, root, maxDepth, n + 1, q[1..] + NewEntries(g, cap, maxDepth, q[0], seen), seen + {q[0].id})
    ensures seen + {q[0].id} != seen ==> LastIsNew(g, cap, root, maxDepth, n + 1)
  {
    NextStep(g, cap, root, maxDepth, n, q, seen);
    var log := Log(g, cap, root, maxDepth, n + 1);
    assert log[..n + 1][..n] == log[..n];
  }

  /** The state of the search between two entries. */
  ghost predicate Running(g: Graph, root: Id, cap: nat, maxDepth: nat, maxNodes: nat, seen: set<Id>, edges: map<EdgeId, Edge>,
                          truncated: bool, q: seq<Visit>, dist: map<Id, nat>, d: nat, n: nat) {
    && dist.Keys == seen && |seen| <= maxNodes
    && Searching(Followed(g, cap), root, dist, q, d, maxDepth)
    && edges == Met(g, cap, dist, maxDepth)
    && (truncated <==> Cut(g, cap, dist, maxDepth))
    && AtStep(g, cap, root, maxDepth, n, q, seen)
    && (|seen| == maxNodes ==> LastIsNew(g, cap, root, maxDepth, n))
  }

  /** One entry of the queue. */
  method SearchStep(g: Graph, root: Id, cap: nat, maxDepth: nat, maxNodes: nat, seen: set<Id>, edges: map<EdgeId, Edge>,
                    truncated: bool, q: seq<Visit>, ghost dist: map<Id, nat>, ghost d: nat, ghost n: nat)
    returns (seen': set<Id>, edges': map<EdgeId, Edge>, truncated': bool, q': seq<Visit>, ghost dist': map<Id, nat>,
             ghost d': nat, ghost n': nat)
    requires Running(g, root, cap, maxDepth, maxNodes, seen, edges, truncated, q, dist, d, n) && q != [] && |seen| < maxNodes
    ensures Running(g, root, cap, maxDepth, maxNodes, seen', edges', truncated', q', dist', d', n')
    ensures |seen'| == |seen| ==> |q'| < |q|
    ensures |seen'| >= |seen|
  {
    FrontLayer(Followed(g, cap), root, dist, q, d, maxDepth);
    var cut;
    seen', edges', q', cut, dist' := TakeFront(g, root, cap, maxDepth, seen, edges, q, dist, q[0].depth);
    Progress(g, cap, maxDepth, q, seen, q', seen');
    TakenIsNew(g, cap, root, maxDepth, n, q, seen);
    d', n' := q[0].depth, n + 1;
    truncated' := truncated || cut;
  }

  /** The loop of `subgraph_bfs`. */
  method SearchFrom(g: Graph, root: Id, maxDepth: nat, maxNodes: nat, cap: nat)
    returns (seen: set<Id>, edges: map<EdgeId, Edge>, truncated: bool, ghost rest: seq<Visit>, ghost dist: map<Id, nat>,
             ghost d: nat, ghost n: nat, ghost stopped: bool)
    requires maxNodes > 0
    ensures Running(g, root, cap, maxDepth, maxNodes, seen, edges, Cut(g, cap, dist, maxDepth), rest, dist, d, n)
    ensures if stopped then rest != [] && |seen| == maxNodes else rest == []
    ensures truncated <==> stopped || Cut(g, cap, dist, maxDepth)
  {
    seen, edges, truncated := {}, map[], false;
    dist, stopped := map[], false;
    var q := [Visit(root, 0)];
    d, n := 0, 0;
    StartSearch(Followed(g, cap), root, maxDepth);
    assert q[0..] == q;
    while q != []
      invariant Running(g, root, cap, maxDepth, maxNodes, seen, edges, truncated, q, dist, d, n)
      decreases maxNodes - |seen|, |q|
    {
      if |seen| >= maxNodes {
        truncated, stopped := true, true;
        break;
      }
      seen, edges, truncated, q, dist, d, n := SearchStep(g, root, cap, maxDepth, maxNodes, seen, edges, truncated, q, dist, d, n);
    }
    rest := q;
  }

  /** `subgraph_bfs`. Visits never exceed the node limit and are nearest first; they are all the ids within
      the depth limit exactly if the node limit has room for them. The flag is set exactly if it has not, or
      an edge list was cut, or it has just room and the last id reached is reached twice. */
  method Search(g: Graph, root: Id, depthLimit: int, nodeLimit: int, edgeLimit: int)
    returns (seen: set<Id>, edges: map<EdgeId, Edge>, truncated: bool, ghost dist: map<Id, nat>, ghost stopped: bool)
    ensures Expansion(g, root, Clamp(depthLimit, 0, 50), Clamp(nodeLimit, 1, 10000), Clamp(edgeLimit, 1, 2000),
                      seen, edges, truncated, dist, stopped)
    ensures |seen| <= Clamp(nodeLimit, 1, 10000)
    ensures |seen| < Clamp(nodeLimit, 1, 10000) ==>
              seen == Ball(Followed(g, Clamp(edgeLimit, 1, 2000)), root, Clamp(depthLimit, 0, 50))
    ensures forall k: nat, v | v in seen && v !in Ball(Followed(g, Clamp(edgeLimit, 1, 2000)), root, k) ::
              Ball(Followed(g, Clamp(edgeLimit, 1, 2000)), root, k) <= seen
    ensures var all := Ball(Followed(g, Clamp(edgeLimit, 1, 2000)), root, Clamp(depthLimit, 0, 50));
            seen == all <==> |all| <= Clamp(nodeLimit, 1, 10000)
    ensures FlagFits(g, root, Clamp(depthLimit, 0, 50), Clamp(nodeLimit, 1, 10000), Clamp(edgeLimit, 1, 2000), truncated)
  {
    var maxDepth, maxNodes, cap := Clamp(depthLimit, 0, 50), Clamp(nodeLimit, 1, 10000), Clamp(edgeLimit, 1, 2000);
    ghost var q, d, n;
    seen, edges, truncated, q, dist, d, n, stopped := SearchFrom(g, root, maxDepth, maxNodes, cap);
    SearchDone(g, root, cap, maxDepth, maxNodes, seen, edges, truncated, q, dist, d, n, stopped);
  }

  lemma SearchDone(g: Graph, root: Id, cap: nat, maxDepth: nat, maxNodes: nat, seen: set<Id>, edges: map<EdgeId, Edge>,
                   truncated: bool, q: seq<Visit>, dist: map<Id, nat>, d: nat, n: nat, stopped: bool)
    requires Running(g, root, cap, maxDepth, maxNodes, seen, edges, Cut(g, cap, dist, maxDepth), q, dist, d, n)
    requires if stopped then q != [] && |seen| == maxNodes else q == []
    requires truncated <==> stopped || Cut(g, cap, dist, maxDepth)
    ensures Expansion(g, root, maxDepth, maxNodes, cap, seen, edges, truncated, dist, stopped)
    ensures seen == Ball(Followed(g, cap), root, maxDepth) <==> |Ball(Followed(g, cap), root, maxDepth)| <= maxNodes
    ensures FlagFits(g, root, maxDepth, maxNodes, cap, truncated)
  {
    Conclude(Followed(g, cap), root, dist, q, d, maxDepth, stopped);
    FlagConclude(g, cap, root, maxDepth, maxNodes, dist, q, d, n, seen, stopped);
  }

  /** The flag, by what a caller knows: the ids within the depth limit, their layers and the edge
      lists. */
  ghost predicate FlagFits(g: Graph, root: Id, maxDepth: nat, maxNodes: nat, cap: nat, truncated: bool) {
    var within := |Ball(Followed(g, cap), root, maxDepth)|;
    truncated <==>
      within > maxNodes || CutWithin(g, cap, root, maxDepth)
      || (within == maxNodes && LastReachedTwice(g, cap, root, maxDepth))
  }

  lemma FlagConclude(g: Graph, cap: nat, root: Id, maxDepth: nat, maxNodes: nat, dist: map<Id, nat>, q: seq<Visit>, d: nat,
                     n: nat, seen: set<Id>, stopped: bool)
    requires Searching(Followed(g, cap), root, dist, q, d, maxDepth) && dist.Keys == seen && |seen| <= maxNodes
    requires forall v | v in dist :: dist[v] <= maxDepth && AtDistance(Balls(Followed(g, cap), root, maxDepth), v, dist[v])
    requires if stopped then |seen| == maxNodes && q != [] else q == [] && seen == Ball(Followed(g, cap), root, maxDepth)
    requires AtStep(g, cap, root, maxDepth, n, q, seen) && (|seen| == maxNodes ==> LastIsNew(g, cap, root, maxDepth, n))
    ensures seen == Ball(Followed(g, cap), root, maxDepth) <==> |Ball(Followed(g, cap), root, maxDepth)| <= maxNodes
    ensures FlagFits(g, root, maxDepth, maxNodes, cap, stopped || Cut(g, cap, dist, maxDepth))
  {
    var all := Ball(Followed(g, cap), root, maxDepth);
    WithinBall(Followed(g, cap), root, dist, maxDepth, maxNodes, stopped);
    AllNearer(Followed(g, cap), root, dist, maxDepth);
    NearerWithin(Followed(g, cap), root, maxDepth);
    CutIsAmong(g, cap, dist, maxDepth, Nearer(Followed(g, cap), root, maxDepth));
    if |all| == maxNodes {
      QueuedWithin(Followed(g, cap), root, dist, q, d, maxDepth);
      StoppedAtLimit(g, cap, root, maxDepth, n, q, seen);
    }
  }

  lemma Conclude(adj: Links, root: Id, dist: map<Id, nat>, q: seq<Visit>, d: nat, maxDepth: nat, stopped: bool)
    requires Searching(adj, root, dist, q, d, maxDepth) && (!stopped ==> q == [])
    ensures forall v | v in dist :: dist[v] <= maxDepth && AtDistance(Balls(adj, root, maxDepth), v, dist[v])
    ensures forall k: nat, v | v in dist && v !in Ball(adj, root, k) :: Ball(adj, root, k) <= dist.Keys
    ensures !stopped ==> dist.Keys == Ball(adj, root, maxDepth)
    ensures !stopped ==> forall v | v in dist && dist[v] < maxDepth :: Next(adj, v) <= dist.Keys
  {
    if !stopped { CompleteSearch(adj, root, dist, d, maxDepth); }
    forall k: nat, v | v in dist && v !in Ball(adj, root, k) ensures Ball(adj, root, k) <= dist.Keys {
      NearerOnesVisited(adj, root, dist, d, maxDepth, v, k);
    }
  }

  /** Both ends of the edge are among the ids, if it has a far end seen from `v`. */
  predicate ClosedFrom(e: Edge, v: Id, seen: set<Id>) {
    OtherEndpoint(e, v).Some? ==>
      e.source.Some? && e.source.value in seen && e.target.Some? && e.target.value in seen
  }

  lemma ClosedAt(g: Graph, cap: nat, seen: set<Id>, v: Id, eid: EdgeId)
    requires v in seen && Adjacent(g, cap, v) <= seen && eid in Selected(g, cap, v) && eid in g.edges
    ensures ClosedFrom(g.edges[eid], v, seen)
  {
  }

  lemma FollowedFrom(g: Graph, cap: nat, dist: map<Id, nat>, maxDepth: nat, eid: EdgeId) returns (v: Id)
    requires eid in Met(g, cap, dist, maxDepth)
    ensures v in dist && dist[v] < maxDepth && eid in Selected(g, cap, v)
  {
    var picks := Picks(g, cap);
    v :| v in dist && dist[v] < maxDepth && v in picks && eid in picks[v];
  }

  /** When the node limit did not end the search (`Expansion` then gives the first requirement) every
      returned edge has both its ends among the returned ids, if it has a far end at all. */
  lemma EdgesHaveBothEnds(g: Graph, cap: nat, dist: map<Id, nat>, maxDepth: nat, eid: EdgeId) returns (v: Id)
    requires forall u | u in dist && dist[u] < maxDepth :: Next(Followed(g, cap), u) <= dist.Keys
    requires eid in Met(g, cap, dist, maxDepth)
    ensures v in dist && eid in Selected(g, cap, v) && ClosedFrom(g.edges[eid], v, dist.Keys)
  {
    v := FollowedFrom(g, cap, dist, maxDepth, eid);
    ClosedAt(g, cap, dist.Keys, v, eid);
  }

  // ---------- a complete result that is flagged ----------

  /** Three nodes, each joined to each, their edges e, f, h in the order in which they are followed. */
  predicate IsTriangle(g: Graph, a: Id, b: Id, c: Id, e: EdgeId, f: EdgeId, h: EdgeId) {
    && a != b && a != c && b != c && a in g.nodes && b in g.nodes && c in g.nodes
    && EdgeList(g, a) == [e, f] && EdgeList(g, b) == [e, h] && EdgeList(g, c) == [f, h]
    && FarEnd(g, e, a) == Some(b) && FarEnd(g, f, a) == Some(c) && FarEnd(g, e, b) == Some(a)
    && FarEnd(g, h, b) == Some(c) && FarEnd(g, f, c) == Some(a) && FarEnd(g, h, c) == Some(b)
    && KeyLeq(g, a, e, f) && KeyLeq(g, b, e, h) && KeyLeq(g, c, f, h)
  }

  lemma TwoSelected(g: Graph, cap: nat, v: Id, x: EdgeId, y: EdgeId)
    requires EdgeList(g, v) == [x, y] && KeyLeq(g, v, x, y) && cap >= 2
    ensures Selected(g, cap, v) == [x, y]
  {
    assert [x, y][1..] == [y] && [y][1..] == [];
    assert SortByKey(g, v, [y]) == InsertByKey(g, v, y, SortByKey(g, v, []));
    assert SortByKey(g, v, [x, y]) == InsertByKey(g, v, x, SortByKey(g, v, [y]));
  }

  lemma TwoNext(g: Graph, cap: nat, v: Id, x: EdgeId, y: EdgeId)
    requires Selected(g, cap, v) == [x, y] && v in g.nodes && FarEnd(g, x, v).Some? && FarEnd(g, y, v).Some?
    ensures Next(Followed(g, cap), v) == {FarEnd(g, x, v).value, FarEnd(g, y, v).value}
  {
    assert Selected(g, cap, v)[0] == x && Selected(g, cap, v)[1] == y;
  }

  lemma TwoEnds(g: Graph, x: EdgeId, y: EdgeId, v: Id, known: set<Id>)
    ensures var a, b := FarEnd(g, x, v), FarEnd(g, y, v);
            EndsOutside(g, [x, y], v, known)
            == (if a.Some? && a.value !in known then [a.value] else []) + if b.Some? && b.value !in known then [b.value] else []
  {
    assert [x, y][..1] == [x] && [x][..0] == [];
    assert EndsOutside(g, [x], v, known) == EndsOutside(g, [], v, known) + if FarEnd(g, x, v).Some? && FarEnd(g, x, v).value !in known then [FarEnd(g, x, v).value] else [];
  }

  lemma FirstsOfThree(a: Id, b: Id, c: Id)
    requires a != b && a != c && b != c
    ensures Firsts([a]) == [a] && Firsts([a, b, c]) == [a, b, c] && Firsts([a, b, c, c]) == [a, b, c]
  {
    assert Firsts([a]) == [a] by {
      FirstsSnoc([], a);
      assert [] + [a] == [a];
    }
    assert Firsts([a, b]) == [a, b] by {
      FirstsSnoc([a], b);
      assert [a] + [b] == [a, b];
    }
    assert Firsts([a, b, c]) == [a, b, c] by {
      FirstsSnoc([a, b], c);
      assert [a, b] + [c] == [a, b, c];
    }
    FirstsSnoc([a, b, c], c);
    assert [a, b, c][2] == c && [a, b, c] + [c] == [a, b, c, c];
  }

  /** What one more id with two followed edges reaches. */
  lemma TwoReached(g: Graph, cap: nat, root: Id, ids: seq<Id>, v: Id, x: EdgeId, y: EdgeId, known: set<Id>)
    requires EdgeList(g, v) == [x, y] && KeyLeq(g, v, x, y) && cap >= 2
    requires FarEnd(g, x, v).Some? && FarEnd(g, y, v).Some? && known == Among(ids) + {v}
    ensures var a, b := FarEnd(g, x, v).value, FarEnd(g, y, v).value;
            Reached(g, cap, root, ids + [v])
            == Reached(g, cap, root, ids) + ((if a !in known then [a] else []) + if b !in known then [b] else [])
  {
    TwoSelected(g, cap, v, x, y);
    TwoEnds(g, x, y, v, known);
    ReachedSnoc(g, cap, root, ids, v);
  }

  lemma AmongFew(a: Id, b: Id, c: Id)
    ensures Among([]) == {} && Among([a]) == {a} && Among([a, b]) == {a, b}
    ensures [] + [a] == [a] && [a] + [b] == [a, b] && [a, b] + [c] == [a, b, c]
  {
  }

  lemma FirstReached(g: Graph, cap: nat, a: Id, b: Id, c: Id, e: EdgeId, f: EdgeId)
    requires a != b && a != c && EdgeList(g, a) == [e, f] && KeyLeq(g, a, e, f) && cap >= 2
    requires FarEnd(g, e, a) == Some(b) && FarEnd(g, f, a) == Some(c)
    ensures Reached(g, cap, a, [a]) == [a, b, c]
  {
    AmongFew(a, b, c);
    TwoReached(g, cap, a, [], a, e, f, {a});
    assert Reached(g, cap, a, []) == [a] && [a] + ([b] + [c]) == [a, b, c];
  }

  lemma SecondReached(g: Graph, cap: nat, a: Id, b: Id, c: Id, e: EdgeId, h: EdgeId)
    requires a != c && b != c && EdgeList(g, b) == [e, h] && KeyLeq(g, b, e, h) && cap >= 2
    requires FarEnd(g, e, b) == Some(a) && FarEnd(g, h, b) == Some(c) && Reached(g, cap, a, [a]) == [a, b, c]
    ensures Reached(g, cap, a, [a, b]) == [a, b, c, c]
  {
    AmongFew(a, b, c);
    TwoReached(g, cap, a, [a], b, e, h, {a, b});
    assert [a, b, c] + ([] + [c]) == [a, b, c, c];
  }

  lemma ThirdReached(g: Graph, cap: nat, a: Id, b: Id, c: Id, f: EdgeId, h: EdgeId)
    requires EdgeList(g, c) == [f, h] && KeyLeq(g, c, f, h) && cap >= 2
    requires FarEnd(g, f, c) == Some(a) && FarEnd(g, h, c) == Some(b) && Reached(g, cap, a, [a, b]) == [a, b, c, c]
    ensures Reached(g, cap, a, [a, b, c]) == [a, b, c, c]
  {
    AmongFew(a, b, c);
    TwoReached(g, cap, a, [a, b], c, f, h, {a, b, c});
  }

  /** What a triangle's ids reach from a: b and c, and c once more from b. */
  lemma TriangleReached(g: Graph, cap: nat, a: Id, b: Id, c: Id, e: EdgeId, f: EdgeId, h: EdgeId)
    requires IsTriangle(g, a, b, c, e, f, h) && cap >= 2
    ensures Reached(g, cap, a, [a]) == [a, b, c] && Reached(g, cap, a, [a, b, c]) == [a, b, c, c]
  {
    FirstReached(g, cap, a, b, c, e, f);
    SecondReached(g, cap, a, b, c, e, h);
    ThirdReached(g, cap, a, b, c, f, h);
  }

  lemma {:induction false} TriangleLayers(g: Graph, cap: nat, a: Id, b: Id, c: Id, e: EdgeId, f: EdgeId, h: EdgeId, k: nat)
    requires IsTriangle(g, a, b, c, e, f, h) && cap >= 2
    ensures k == 1 ==> Layers(g, cap, a, k) == [a]
    ensures k >= 2 ==> Layers(g, cap, a, k) == [a, b, c]
  {
    FirstsOfThree(a, b, c);
    if k > 0 {
      TriangleLayers(g, cap, a, b, c, e, f, h, k - 1);
      TriangleReached(g, cap, a, b, c, e, f, h);
    }
  }

  lemma TwiceAtEnd(g: Graph, cap: nat, root: Id, k: nat, layers: seq<Id>)
    requires layers == Layers(g, cap, root, k) && |Reached(g, cap, root, layers)| > 1
    requires var ids := Reached(g, cap, root, layers); ids[|ids| - 1] == ids[|ids| - 2]
    ensures LastReachedTwice(g, cap, root, k)
  {
    var ids := Reached(g, cap, root, layers);
    assert ids[..|ids| - 1][|ids| - 2] == ids[|ids| - 2];
  }

  lemma TriangleTwice(g: Graph, cap: nat, a: Id, b: Id, c: Id, e: EdgeId, f: EdgeId, h: EdgeId, k: nat)
    requires IsTriangle(g, a, b, c, e, f, h) && cap >= 2 && k >= 2
    ensures LastReachedTwice(g, cap, a, k)
  {
    TriangleLayers(g, cap, a, b, c, e, f, h, k);
    TriangleReached(g, cap, a, b, c, e, f, h);
    TwiceAtEnd(g, cap, a, k, [a, b, c]);
  }

  lemma {:induction false} ThreeBall(adj: Links, a: Id, b: Id, c: Id, k: nat)
    requires Next(adj, a) == {b, c} && Next(adj, b) == {a, c} && Next(adj, c) == {a, b} && k > 0
    ensures Ball(adj, a, k) == {a, b, c}
    decreases k
  {
    if k == 1 {
      assert Ball(adj, a, 0) == {a};
      assert Widen(adj, {a}) == {a, b, c};
    } else {
      ThreeBall(adj, a, b, c, k - 1);
      assert Widen(adj, {a, b, c}) == {a, b, c};
    }
  }

  lemma TriangleBall(g: Graph, cap: nat, a: Id, b: Id, c: Id, e: EdgeId, f: EdgeId, h: EdgeId, k: nat)
    requires IsTriangle(g, a, b, c, e, f, h) && cap >= 2 && k > 0
    ensures Ball(Followed(g, cap), a, k) == {a, b, c}
  {
    TwoSelected(g, cap, a, e, f);
    TwoNext(g, cap, a, e, f);
    TwoSelected(g, cap, b, e, h);
    TwoNext(g, cap, b, e, h);
    TwoSelected(g, cap, c, f, h);
    TwoNext(g, cap, c, f, h);
    ThreeBall(Followed(g, cap), a, b, c, k);
  }

  lemma NoneCut(g: Graph, cap: nat, root: Id, k: nat, ids: set<Id>)
    requires k > 0 && Ball(Followed(g, cap), root, k - 1) == ids && forall v | v in ids :: |EdgeList(g, v)| <= cap
    ensures !CutWithin(g, cap, root, k)
  {
  }

  lemma TriangleUncut(g: Graph, cap: nat, a: Id, b: Id, c: Id, e: EdgeId, f: EdgeId, h: EdgeId, k: nat)
    requires IsTriangle(g, a, b, c, e, f, h) && cap >= 2 && k >= 2
    ensures !CutWithin(g, cap, a, k)
  {
    TriangleBall(g, cap, a, b, c, e, f, h, k - 1);
    NoneCut(g, cap, a, k, {a, b, c});
  }

  /** To any depth from 2 on, with room for just its three nodes and no edge list cut, the triangle is
      returned whole and flagged all the same (`Search`), because c is reached from a and from b. */
  lemma TriangleIsFlagged(g: Graph, cap: nat, a: Id, b: Id, c: Id, e: EdgeId, f: EdgeId, h: EdgeId, k: nat)
    requires IsTriangle(g, a, b, c, e, f, h) && cap >= 2 && k >= 2
    ensures |Ball(Followed(g, cap), a, k)| == 3 && !CutWithin(g, cap, a, k)
    ensures FlagFits(g, a, k, 3, cap, true) && FlagFits(g, a, k, 4, cap, false)
  {
    TriangleBall(g, cap, a, b, c, e, f, h, k);
    assert |{a, b, c}| == 3;
    TriangleUncut(g, cap, a, b, c, e, f, h, k);
    TriangleTwice(g, cap, a, b, c, e, f, h, k);
  }

  lemma TriangleExists()
    ensures IsTriangle(
      Graph(map["a" := ["e", "f"], "b" := ["e", "h"], "c" := ["f", "h"]],
            map["e" := Edge(Some("a"), Some("b")), "f" := Edge(Some("a"), Some("c")), "h" := Edge(Some("b"), Some("c"))]),
      "a", "b", "c", "e", "f", "h")
  {
    assert 'a' != 'b' && "a"[0] != "b"[0] && "a"[0] != "c"[0] && "b"[0] != "c"[0];
    assert "e"[0] < "f"[0] && "e"[0] < "h"[0] && "f"[0] < "h"[0];
  }
}
