/** Breadth-first layering over arbitrary neighbours: what a first-in first-out queue of (id, depth)
    visits keeps, whatever decides the neighbours. */
module BfsLayers {
  type Id = string

  /** The neighbours of each id; an id that is not listed has none. */
  type Links = map<Id, set<Id>>

  function Next(adj: Links, v: Id): set<Id> {
    if v in adj then adj[v] else {}
  }

  function Widen(adj: Links, ids: set<Id>): set<Id> {
    ids + set u, w | u in ids && w in Next(adj, u) :: w
  }

  /** The ids within `k` hops of the root. */
  function Ball(adj: Links, root: Id, k: nat): set<Id> {
    if k == 0 then {root} else Widen(adj, Ball(adj, root, k - 1))
  }

  /** Each id of the path is a neighbour of the one before it. */
  predicate IsPath(adj: Links, p: seq<Id>) {
    p != [] && forall i, j | 0 <= i && j == i + 1 < |p| :: p[j] in Next(adj, p[i])
  }

  /** `w` is `k` hops from the root at most. */
  ghost predicate WithinHops(adj: Links, root: Id, k: nat, w: Id) {
    exists p :: IsPath(adj, p) && p[0] == root && p[|p| - 1] == w && |p| <= k + 1
  }

  /** A ball holds exactly what paths of so many hops lead to. */
  lemma {:induction false} BallIsPaths(adj: Links, root: Id, k: nat, w: Id)
    ensures w in Ball(adj, root, k) <==> WithinHops(adj, root, k, w)
    decreases k, 1
  {
    if k == 0 {
      if w == root { assert IsPath(adj, [root]); }
    } else {
      if w in Ball(adj, root, k) { PathTo(adj, root, k, w); }
      if p :| IsPath(adj, p) && p[0] == root && p[|p| - 1] == w && |p| <= k + 1 {
        if |p| == 1 {
          BallGrows(adj, root, 0, k);
        } else {
          var u := p[|p| - 2];
          assert IsPath(adj, p[..|p| - 1]) && p[..|p| - 1][|p| - 2] == u;
          assert WithinHops(adj, root, k - 1, u);
          BallIsPaths(adj, root, k - 1, u);
        }
      }
    }
  }

  lemma PathTo(adj: Links, root: Id, k: nat, w: Id)
    requires k > 0 && w in Ball(adj, root, k)
    ensures WithinHops(adj, root, k, w)
    decreases k, 0
  {
    var u := w;
    if w !in Ball(adj, root, k - 1) { u :| u in Ball(adj, root, k - 1) && w in Next(adj, u); }
    BallIsPaths(adj, root, k - 1, u);
    var p :| IsPath(adj, p) && p[0] == root && p[|p| - 1] == u && |p| <= k;
    if u == w {
      assert IsPath(adj, p);
    } else {
      assert IsPath(adj, p + [w]);
    }
  }

  /** The balls of radius 0 to `n`. The invariants speak of this sequence, so that they do not unfold
      the recursion. */
  function Balls(adj: Links, root: Id, n: nat): (balls: seq<set<Id>>)
    ensures |balls| == n + 1
  {
    seq(n + 1, k requires 0 <= k <= n => Ball(adj, root, k))
  }

  predicate Growing(balls: seq<set<Id>>) {
    forall j, k | 0 <= j <= k < |balls| :: balls[j] <= balls[k]
  }

  lemma {:induction false} BallGrows(adj: Links, root: Id, j: nat, k: nat)
    requires j <= k
    ensures Ball(adj, root, j) <= Ball(adj, root, k)
    decreases k
  {
    if j < k { BallGrows(adj, root, j, k - 1); }
  }

  lemma BallsGrow(adj: Links, root: Id, n: nat)
    ensures Growing(Balls(adj, root, n))
  {
    forall j, k | 0 <= j <= k <= n ensures Ball(adj, root, j) <= Ball(adj, root, k) {
      BallGrows(adj, root, j, k);
    }
  }

  /** An id reached at radius `k + 1` but not `k` is a neighbour of one reached at radius `k`. */
  lemma Predecessor(adj: Links, root: Id, n: nat, k: nat, v: Id) returns (u: Id)
    requires k < n && v in Balls(adj, root, n)[k + 1] && v !in Balls(adj, root, n)[k]
    ensures u in Balls(adj, root, n)[k] && v in Next(adj, u)
  {
    u :| u in Ball(adj, root, k) && v in Next(adj, u);
  }

  lemma Successor(adj: Links, root: Id, n: nat, k: nat, v: Id)
    requires k < n && v in Balls(adj, root, n)[k]
    ensures Next(adj, v) <= Balls(adj, root, n)[k + 1]
  {
  }

  /** `k` is the distance of `v` from the root. */
  predicate AtDistance(balls: seq<set<Id>>, v: Id, k: nat)
    requires k < |balls|
  {
    v in balls[k] && (k > 0 ==> v !in balls[k - 1])
  }

  datatype Visit = Visit(id: Id, depth: nat)

  /** The queue: depths `d` and `d + 1` in this order, each entry within its depth of the root. */
  predicate Layered(balls: seq<set<Id>>, q: seq<Visit>, d: nat, maxDepth: nat)
    requires |balls| == maxDepth + 1
  {
    && (forall i, j | 0 <= i < j < |q| :: q[i].depth <= q[j].depth)
    && (forall i | 0 <= i < |q| :: d <= q[i].depth <= d + 1 && q[i].depth <= maxDepth && q[i].id in balls[q[i].depth])
  }

  /** The visited ids: each at its true distance, and every id of a smaller distance among them. */
  predicate NearestFirst(balls: seq<set<Id>>, dist: map<Id, nat>, d: nat, maxDepth: nat)
    requires |balls| == maxDepth + 1 && d <= maxDepth
  {
    && (forall v | v in dist :: dist[v] <= d && AtDistance(balls, v, dist[v]))
    && (d > 0 ==> balls[d - 1] <= dist.Keys)
  }

  function Queued(q: seq<Visit>): set<Id> {
    set k | 0 <= k < |q| :: q[k].id
  }

  function QueuedAt(q: seq<Visit>, d: nat): set<Id> {
    set k | 0 <= k < |q| && q[k].depth == d :: q[k].id
  }

  /** The neighbours of every id visited below the depth limit are visited or queued. */
  predicate NeighboursCovered(adj: Links, dist: map<Id, nat>, q: seq<Visit>, maxDepth: nat) {
    forall v | v in dist && dist[v] < maxDepth :: Next(adj, v) <= dist.Keys + Queued(q)
  }

  /** The state of the search, layer `d` being visited. */
  predicate Searching(adj: Links, root: Id, dist: map<Id, nat>, q: seq<Visit>, d: nat, maxDepth: nat) {
    && d <= maxDepth
    && var balls := Balls(adj, root, maxDepth);
    && Layered(balls, q, d, maxDepth)
    && NearestFirst(balls, dist, d, maxDepth)
    && balls[d] <= dist.Keys + QueuedAt(q, d)
    && NeighboursCovered(adj, dist, q, maxDepth)
  }

  lemma StartSearch(adj: Links, root: Id, maxDepth: nat)
    ensures Searching(adj, root, map[], [Visit(root, 0)], 0, maxDepth)
  {
    assert [Visit(root, 0)][0].id in QueuedAt([Visit(root, 0)], 0);
  }

  lemma QueueTail(q: seq<Visit>, d: nat)
    requires q != []
    ensures Queued(q) == {q[0].id} + Queued(q[1..])
    ensures QueuedAt(q, d) == (if q[0].depth == d then {q[0].id} else {}) + QueuedAt(q[1..], d)
  {
  }

  lemma QueueAppend(q: seq<Visit>, added: seq<Visit>, d: nat)
    ensures Queued(q + added) == Queued(q) + Queued(added)
    ensures QueuedAt(q + added, d) == QueuedAt(q, d) + QueuedAt(added, d)
  {
    var r := q + added;
    assert forall k | 0 <= k < |q| :: r[k] == q[k];
    assert forall k | 0 <= k < |added| :: r[|q| + k] == added[k];
  }

  /** The front of the queue was visited before. */
  lemma SkipVisited(adj: Links, root: Id, dist: map<Id, nat>, q: seq<Visit>, d: nat, maxDepth: nat)
    requires Searching(adj, root, dist, q, d, maxDepth) && q != [] && q[0].id in dist
    ensures Searching(adj, root, dist, q[1..], d, maxDepth)
  {
  }

  /** Visiting the front of the queue keeps the visited ids at their true distances. */
  lemma VisitNearest(adj: Links, root: Id, dist: map<Id, nat>, q: seq<Visit>, d: nat, maxDepth: nat)
    requires Searching(adj, root, dist, q, d, maxDepth) && q != [] && q[0].depth == d && q[0].id !in dist
    ensures NearestFirst(Balls(adj, root, maxDepth), dist[q[0].id := d], d, maxDepth)
  {
    var balls, more := Balls(adj, root, maxDepth), dist[q[0].id := d];
    assert AtDistance(balls, q[0].id, d);
    assert dist.Keys <= more.Keys;
  }

  lemma VisitCovers(adj: Links, dist: map<Id, nat>, q: seq<Visit>, maxDepth: nat, added: seq<Visit>)
    requires NeighboursCovered(adj, dist, q, maxDepth) && q != [] && q[0].id !in dist && q[0].depth <= maxDepth
    requires q[0].depth < maxDepth ==> Next(adj, q[0].id) <= dist.Keys + {q[0].id} + Queued(added)
    ensures NeighboursCovered(adj, dist[q[0].id := q[0].depth], q[1..] + added, maxDepth)
  {
    QueueTail(q, q[0].depth);
    QueueAppend(q[1..], added, q[0].depth);
    assert dist[q[0].id := q[0].depth].Keys == dist.Keys + {q[0].id};
  }

  /** The front of the queue is visited, and when it is expanded its unvisited neighbours are queued. */
  lemma VisitFront(adj: Links, root: Id, dist: map<Id, nat>, q: seq<Visit>, d: nat, maxDepth: nat, added: seq<Visit>)
    requires Searching(adj, root, dist, q, d, maxDepth) && q != [] && q[0].depth == d && q[0].id !in dist
    requires d == maxDepth ==> added == []
    requires forall k | 0 <= k < |added| :: added[k].depth == d + 1 && added[k].id in Next(adj, q[0].id)
    requires d < maxDepth ==> Next(adj, q[0].id) <= dist.Keys + {q[0].id} + Queued(added)
    ensures Searching(adj, root, dist[q[0].id := d], q[1..] + added, d, maxDepth)
  {
    VisitNearest(adj, root, dist, q, d, maxDepth);
    VisitCovers(adj, dist, q, maxDepth, added);
    QueueTail(q, d);
    QueueAppend(q[1..], added, d);
    if d < maxDepth { Successor(adj, root, maxDepth, d, q[0].id); }
    AppendLayered(Balls(adj, root, maxDepth), q, d, maxDepth, added);
  }

  lemma AppendLayered(balls: seq<set<Id>>, q: seq<Visit>, d: nat, maxDepth: nat, added: seq<Visit>)
    requires |balls| == maxDepth + 1 && q != [] && Layered(balls, q, d, maxDepth)
    requires forall k | 0 <= k < |added| :: added[k].depth == d + 1 <= maxDepth && added[k].id in balls[d + 1]
    ensures Layered(balls, q[1..] + added, d, maxDepth)
  {
  }

  /** With the queue empty everything within `maxDepth` hops has been visited. */
  lemma {:induction false} EmptyQueueIsComplete(adj: Links, root: Id, dist: map<Id, nat>, d: nat, maxDepth: nat, k: nat)
    requires Searching(adj, root, dist, [], d, maxDepth) && k <= maxDepth
    ensures Balls(adj, root, maxDepth)[k] <= dist.Keys
  {
    var balls := Balls(adj, root, maxDepth);
    BallsGrow(adj, root, maxDepth);
    if k > 0 {
      EmptyQueueIsComplete(adj, root, dist, d, maxDepth, k - 1);
      forall v | v in balls[k] && v !in balls[k - 1] ensures v in dist {
        var u := Predecessor(adj, root, maxDepth, k - 1, v);
        assert u in dist && AtDistance(balls, u, dist[u]);
      }
    } else {
      assert balls[0] <= balls[d];
    }
  }

  /** Wherever the search stops: an id is visited only after every nearer one. */
  lemma NearerOnesVisited(adj: Links, root: Id, dist: map<Id, nat>, d: nat, maxDepth: nat, v: Id, k: nat)
    requires d <= maxDepth && NearestFirst(Balls(adj, root, maxDepth), dist, d, maxDepth)
    requires v in dist && v !in Ball(adj, root, k)
    ensures Ball(adj, root, k) <= dist.Keys
  {
    var balls := Balls(adj, root, maxDepth);
    assert v in balls[dist[v]] && balls[dist[v]] == Ball(adj, root, dist[v]);
    if k >= dist[v] { BallGrows(adj, root, dist[v], k); }
    BallGrows(adj, root, k, d - 1);
    assert Ball(adj, root, d - 1) == balls[d - 1];
  }

  lemma CompleteSearch(adj: Links, root: Id, dist: map<Id, nat>, d: nat, maxDepth: nat)
    requires Searching(adj, root, dist, [], d, maxDepth)
    ensures dist.Keys == Ball(adj, root, maxDepth)
    ensures forall v | v in dist && dist[v] < maxDepth :: Next(adj, v) <= dist.Keys
  {
    var balls := Balls(adj, root, maxDepth);
    EmptyQueueIsComplete(adj, root, dist, d, maxDepth, maxDepth);
    BallsGrow(adj, root, maxDepth);
    forall v | v in dist ensures v in balls[maxDepth] {
      assert v in balls[dist[v]] && balls[dist[v]] <= balls[maxDepth];
    }
    assert balls[maxDepth] == Ball(adj, root, maxDepth);
  }
}
