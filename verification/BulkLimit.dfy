/** What the limit of `nodes_bulk` (jvspatial/core/context.py) does to a batch: it counts the edges of all
    ids together, so one id's edges can use up another's share. */
module BulkLimit {
  import opened MongoQuery
  import opened SortedFind
  import opened NodesBulk

  /** An id's answer in the batch is the one it would get alone, with the same limit. */
  ghost predicate AsAlone(edges: seq<Value>, nodes: seq<Value>, o: NodesBulk.Options, ids: seq<string>, id: string) {
    Answer(nodes, o, EdgesFound(edges, o, ids), id) == Answer(nodes, o, EdgesFound(edges, o, [id]), id)
  }

  /** Whatever is stored and however edges and nodes are filtered. */
  ghost predicate AnswersAsAlone(way: Way, limit: Option<nat>, ids: seq<string>) {
    forall edges: seq<Value>, nodes: seq<Value>, o: NodesBulk.Options, id: string |
        o.way == way && o.limit == limit && id in UniqueIds(ids) :: AsAlone(edges, nodes, o, ids, id)
  }

  predicate Harmless(limit: Option<nat>, ids: seq<string>) {
    limit.None? || limit.value == 0 || |UniqueIds(ids)| <= 1
  }

  lemma AddOne(x: string)
    ensures AddNew([], [x]) == [x]
  {
    assert [x][1..] == [] && [] + [x] == [x];
    assert AddNew([], [x]) == AddNew([x], [x][1..]);
  }

  lemma UniqueOne(id: string)
    requires id != ""
    ensures UniqueIds([id]) == [id]
  {
    AddOne(id);
    assert [id][1..] == [] && NonEmpty([id]) == [id] + NonEmpty([id][1..]);
  }

  lemma HarmlessIsAlone(edges: seq<Value>, nodes: seq<Value>, o: NodesBulk.Options, ids: seq<string>, id: string)
    requires Harmless(o.limit, ids) && id in UniqueIds(ids)
    ensures AsAlone(edges, nodes, o, ids, id)
  {
    UniqueOne(id);
    if o.limit.None? {
      SameOffers(edges, o, UniqueIds(ids), id);
      SameOffers(edges, o, [id], id);
    } else if o.limit.value > 0 {
      assert UniqueIds(ids) == [id];
    }
  }

  // ---------- one id uses up the limit ----------

  /** An edge that the way in question follows from `id` to `far`. */
  function Follow(way: Way, id: string, far: string): Value {
    var (source, target) := if way.Incoming? then (far, id) else (id, far);
    Dict([Entry(Path(["source"]), Str(source)), Entry(Path(["target"]), Str(target))])
  }

  lemma FollowEnds(way: Way, id: string, far: string)
    requires id != "" && far != ""
    ensures var e := Follow(way, id, far);
      && Walk(e, ["source"]) == Some(Str(if way.Incoming? then far else id))
      && Walk(e, ["target"]) == Some(Str(if way.Incoming? then id else far))
      && Source(e) == Some(if way.Incoming? then far else id) && Target(e) == Some(if way.Incoming? then id else far)
  {
    var e := Follow(way, id, far);
    assert "source"[0] != "target"[0];
    assert ["source"][0] != ["target"][0];
    assert Get(e.entries, Path(["target"])) == Get(e.entries[1..], Path(["target"]));
  }

  /** All edges pass, all nodes are kept. */
  function Unfiltered(way: Way, limit: nat): NodesBulk.Options {
    NodesBulk.Options.Options(way, [], [], [], [], Some(limit))
  }

  lemma FollowFound(way: Way, limit: nat, id: string, far: string, ids: seq<string>)
    requires id != "" && far != "" && far !in ids
    ensures Match(Follow(way, id, far), EdgeQuery(Unfiltered(way, limit), ids)) <==> id in ids
  {
    var e := Follow(way, id, far);
    FollowEnds(way, id, far);
    MatchAnyOfIds(e, "source", ids, if way.Incoming? then far else id);
    MatchAnyOfIds(e, "target", ids, if way.Incoming? then id else far);
    MatchEitherEnd(e, AnyOfIds("source", ids), AnyOfIds("target", ids));
    MatchCons(e, EndClause(way, ids), []);
    assert EdgeClauses(Unfiltered(way, limit)) == [];
  }

  function Copies(e: Value, n: nat): (es: seq<Value>)
    ensures |es| == n && forall x | x in es :: x == e
  {
    if n == 0 then [] else [e] + Copies(e, n - 1)
  }

  /** As many edges of the first id as the limit lets through, then one of the second. */
  function Crowded(way: Way, limit: nat, first: string, second: string, far: string): seq<Value> {
    Copies(Follow(way, first, far), limit) + [Follow(way, second, far)]
  }

  lemma MatchingHead(e: Value, rest: seq<Value>, query: seq<Entry>)
    ensures Matching([e] + rest, query) == if Match(e, query) then [e] + Matching(rest, query) else Matching(rest, query)
  {
    assert ([e] + rest)[1..] == rest;
  }

  lemma CopiesHead(e: Value, n: nat, more: seq<Value>)
    requires n > 0
    ensures Copies(e, n) + more == [e] + (Copies(e, n - 1) + more)
  {
  }

  lemma {:induction false} CopiesMatch(e: Value, n: nat, more: seq<Value>, query: seq<Entry>, kept: bool)
    requires kept == Match(e, query)
    ensures Matching(Copies(e, n) + more, query) == if kept then Copies(e, n) + Matching(more, query) else Matching(more, query)
  {
    if n == 0 {
      assert Copies(e, n) + more == more && Copies(e, n) + Matching(more, query) == Matching(more, query);
    } else {
      CopiesMatch(e, n - 1, more, query, kept);
      CopiesHead(e, n, more);
      MatchingHead(e, Copies(e, n - 1) + more, query);
      CopiesHead(e, n, Matching(more, query));
    }
  }

  lemma {:induction false} CopiesOfferNothing(e: Value, n: nat, way: Way, id: string)
    requires Offers(e, way, id) == []
    ensures AllOffers(Copies(e, n), way, id) == []
  {
    if n > 0 {
      assert Copies(e, n)[1..] == Copies(e, n - 1);
      CopiesOfferNothing(e, n - 1, way, id);
    }
  }

  function TheNode(id: string): Value {
    Dict([Entry(Path(["id"]), Str(id))])
  }

  lemma CrowdedMatching(way: Way, limit: nat, first: string, second: string, far: string, query: seq<Entry>, one: bool, two: bool)
    requires one == Match(Follow(way, first, far), query) && two == Match(Follow(way, second, far), query)
    ensures Matching(Crowded(way, limit, first, second, far), query)
            == (if one then Copies(Follow(way, first, far), limit) else []) + if two then [Follow(way, second, far)] else []
  {
    var e := Follow(way, second, far);
    CopiesMatch(Follow(way, first, far), limit, [e], query, one);
    MatchingHead(e, [], query);
    assert [e] + [] == [e];
  }

  /** Asked for alone, the second id's edge is found. */
  lemma AloneFinds(way: Way, limit: nat, first: string, second: string, far: string)
    requires limit > 0 && first != "" && second != "" && far != "" && first != second && far != first && far != second
    ensures EdgesFound(Crowded(way, limit, first, second, far), Unfiltered(way, limit), [second]) == [Follow(way, second, far)]
  {
    UniqueOne(second);
    FollowFound(way, limit, first, far, [second]);
    FollowFound(way, limit, second, far, [second]);
    CrowdedMatching(way, limit, first, second, far, EdgeQuery(Unfiltered(way, limit), [second]), false, true);
  }

  lemma AloneAnswer(way: Way, limit: nat, id: string, far: string)
    requires limit > 0 && id != "" && far != "" && id != far
    ensures Answer([TheNode(far)], Unfiltered(way, limit), [Follow(way, id, far)], id) == [TheNode(far)]
  {
    OneNeighbour(way, id, far);
    NodeFound(Unfiltered(way, limit), far);
  }

  lemma OneNeighbour(way: Way, id: string, far: string)
    requires id != "" && far != "" && id != far
    ensures Neighbours([Follow(way, id, far)], way, id) == [far]
  {
    var e := Follow(way, id, far);
    FollowEnds(way, id, far);
    assert Offers(e, way, id) == [far];
    assert [e][1..] == [];
    assert AllOffers([e], way, id) == Offers(e, way, id) + [];
    AddOne(far);
  }

  lemma NodeFound(o: NodesBulk.Options, id: string)
    requires o.nodeEntities == [] && o.nodeFilter == []
    ensures Resolve([TheNode(id)], o, [id]) == [TheNode(id)]
  {
    var node := TheNode(id);
    assert Walk(node, ID) == Some(Str(id));
    assert IsNode(node, o, id);
    assert Lookup([node], o, id) == Some(node);
    assert [id][1..] == [];
  }

  lemma TakeFirst(a: seq<Value>, b: seq<Value>)
    ensures Take(a + b, |a|) == a
  {
  }

  /** In the batch the first id's edges use up the limit, which leaves nothing for the second. */
  lemma CrowdedOut(way: Way, limit: nat, ids: seq<string>, first: string, second: string, far: string)
    requires limit > 0 && first in UniqueIds(ids) && far != "" && far !in UniqueIds(ids)
    ensures EdgesFound(Crowded(way, limit, first, second, far), Unfiltered(way, limit), ids) == Copies(Follow(way, first, far), limit)
  {
    var query := EdgeQuery(Unfiltered(way, limit), UniqueIds(ids));
    FollowFound(way, limit, first, far, UniqueIds(ids));
    CrowdedMatching(way, limit, first, second, far, query, true, Match(Follow(way, second, far), query));
    TakeFirst(Copies(Follow(way, first, far), limit), if Match(Follow(way, second, far), query) then [Follow(way, second, far)] else []);
  }

  lemma NothingLeft(way: Way, limit: nat, first: string, second: string, far: string, nodes: seq<Value>)
    requires first != "" && far != "" && first != second && far != second
    ensures Answer(nodes, Unfiltered(way, limit), Copies(Follow(way, first, far), limit), second) == []
  {
    FollowEnds(way, first, far);
    CopiesOfferNothing(Follow(way, first, far), limit, way, second);
    assert Resolve(nodes, Unfiltered(way, limit), []) == [];
  }

  lemma {:induction false} TooLong(ids: seq<string>, x: string)
    requires x in ids
    ensures |x| <= |Longest(ids)|
  {
    if x != ids[0] { TooLong(ids[1..], x); }
  }

  function Longest(ids: seq<string>): (s: string) {
    if ids == [] then "" else if |ids[0]| > |Longest(ids[1..])| then ids[0] else Longest(ids[1..])
  }

  lemma UnusedId(ids: seq<string>) returns (far: string)
    ensures far != "" && far !in ids
  {
    far := Longest(ids) + "x";
    if far in ids { TooLong(ids, far); }
  }

  lemma {:induction false} TwoDistinct(ids: seq<string>)
    requires |UniqueIds(ids)| > 1
    ensures UniqueIds(ids)[0] != UniqueIds(ids)[1]
  {
    AddNewMembers([], ids);
    NonEmptyDistinct(AddNew([], ids));
  }

  lemma {:induction false} NonEmptyDistinct(ids: seq<string>)
    requires forall i, j | 0 <= i < j < |ids| :: ids[i] != ids[j]
    ensures forall i, j | 0 <= i < j < |NonEmpty(ids)| :: NonEmpty(ids)[i] != NonEmpty(ids)[j]
  {
    if ids != [] {
      NonEmptyDistinct(ids[1..]);
      var rest := NonEmpty(ids[1..]);
      forall j | 0 <= j < |rest| ensures rest[j] != ids[0] { assert rest[j] in ids[1..]; }
    }
  }

  /** With a limit of one or more, of any two ids in a batch the later can lose its answer to the other. */
  lemma LimitStarves(way: Way, limit: nat, ids: seq<string>)
    requires limit > 0 && |UniqueIds(ids)| > 1
    ensures !AnswersAsAlone(way, Some(limit), ids)
  {
    var first, second := UniqueIds(ids)[0], UniqueIds(ids)[1];
    TwoDistinct(ids);
    var far := UnusedId(UniqueIds(ids));
    var edges, o := Crowded(way, limit, first, second, far), Unfiltered(way, limit);
    assert first in UniqueIds(ids) && second in UniqueIds(ids);
    CrowdedOut(way, limit, ids, first, second, far);
    NothingLeft(way, limit, first, second, far, [TheNode(far)]);
    AloneFinds(way, limit, first, second, far);
    AloneAnswer(way, limit, second, far);
    assert !AsAlone(edges, [TheNode(far)], o, ids, second);
  }

  /** For all collections and filters a batch answers as its ids would be answered alone if and only if
      there is no limit, the limit lets nothing through, or at most one id is asked for. */
  lemma BatchAsAloneIff(way: Way, limit: Option<nat>, ids: seq<string>)
    ensures AnswersAsAlone(way, limit, ids) <==> Harmless(limit, ids)
  {
    if Harmless(limit, ids) {
      forall edges: seq<Value>, nodes: seq<Value>, o: NodesBulk.Options, id: string |
          o.way == way && o.limit == limit && id in UniqueIds(ids) ensures AsAlone(edges, nodes, o, ids, id) {
        HarmlessIsAlone(edges, nodes, o, ids, id);
      }
    } else {
      LimitStarves(way, limit.value, ids);
    }
  }
}
