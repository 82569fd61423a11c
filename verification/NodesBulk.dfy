/** Batch traversal: `nodes_bulk` of jvspatial/core/context.py against asking for one node at a time. */
module NodesBulk {
  import opened MongoQuery
  import opened SetListing
  import opened SortedFind

  datatype Way = Outgoing | Incoming | Either

  /** Which edges to follow and which nodes to keep; `filter` entries are dotted paths and values. */
  datatype Options = Options(way: Way, edgeEntities: seq<string>, edgeFilter: seq<(seq<string>, Value)>,
                             nodeEntities: seq<string>, nodeFilter: seq<(string, Value)>, limit: Option<nat>)

  // ---------- what is asked for, one node at a time ----------

  /** An end of an edge record, if it names a node. */
  function End(edge: Value, field: string): Option<string> {
    var x := Walk(edge, [field]);
    if x.Some? && x.value.Str? && x.value.s != "" then Some(x.value.s) else None
  }

  function Source(edge: Value): Option<string> {
    End(edge, "source")
  }

  function Target(edge: Value): Option<string> {
    End(edge, "target")
  }

  function OutOffer(edge: Value, way: Way, id: string): seq<string> {
    if !way.Incoming? && Source(edge) == Some(id) && Target(edge).Some? then [Target(edge).value] else []
  }

  function InOffer(edge: Value, way: Way, id: string): seq<string> {
    if !way.Outgoing? && Target(edge) == Some(id) && Source(edge).Some? then [Source(edge).value] else []
  }

  /** The opposite ends an edge has to offer a node: a self-loop offers the node itself. */
  function Offers(edge: Value, way: Way, id: string): seq<string> {
    OutOffer(edge, way, id) + InOffer(edge, way, id)
  }

  function AllOffers(edges: seq<Value>, way: Way, id: string): seq<string> {
    if edges == [] then [] else Offers(edges[0], way, id) + AllOffers(edges[1..], way, id)
  }

  /** Appends what is not there yet. */
  function AddNew(to: seq<string>, more: seq<string>): seq<string>
    decreases |more|
  {
    if more == [] then to else AddNew(if more[0] in to then to else to + [more[0]], more[1..])
  }

  function FirstIndex(s: seq<string>, x: string): (i: nat)
    requires x in s
    ensures i < |s| && s[i] == x && forall k | 0 <= k < i :: s[k] != x
  {
    if s[0] == x then 0 else 1 + FirstIndex(s[1..], x)
  }

  lemma {:induction false} AddNewMembers(to: seq<string>, more: seq<string>)
    requires forall i, j | 0 <= i < j < |to| :: to[i] != to[j]
    ensures var r := AddNew(to, more);
      && to <= r
      && (forall x :: x in r <==> x in to || x in more)
      && (forall i, j | 0 <= i < j < |r| :: r[i] != r[j])
    decreases |more|
  {
    if more != [] {
      AddNewMembers(if more[0] in to then to else to + [more[0]], more[1..]);
    }
  }

  /** Duplicates are dropped and the rest keeps the order of first occurrence. */
  lemma {:induction false} AddNewInOrder(to: seq<string>, more: seq<string>, i: nat, j: nat)
    requires forall i, j | 0 <= i < j < |to| :: to[i] != to[j]
    requires |to| <= i < j < |AddNew(to, more)|
    ensures var r := AddNew(to, more);
            r[i] in more && r[j] in more && FirstIndex(more, r[i]) < FirstIndex(more, r[j])
    decreases |more|
  {
    var r, to' := AddNew(to, more), if more[0] in to then to else to + [more[0]];
    AddNewMembers(to, more);
    AddNewMembers(to', more[1..]);
    assert r[i] in r && r[j] in r && r[j] != more[0] by { assert more[0] in to'; }
    if i >= |to'| { AddNewInOrder(to', more[1..], i, j); }
  }

  lemma {:induction false} AddNewTwice(to: seq<string>, a: seq<string>, b: seq<string>)
    ensures AddNew(to, a + b) == AddNew(AddNew(to, a), b)
    decreases |a|
  {
    if a == [] {
      assert a + b == b;
    } else {
      assert (a + b)[1..] == a[1..] + b;
      AddNewTwice(if a[0] in to then to else to + [a[0]], a[1..], b);
    }
  }

  /** The opposite ends a node is linked to, each once, in the order its edges come. */
  function Neighbours(edges: seq<Value>, way: Way, id: string): seq<string> {
    AddNew([], AllOffers(edges, way, id))
  }

  // ---------- the filters ----------

  function Strings(ids: seq<string>): Value {
    List(seq(|ids|, i requires 0 <= i < |ids| => Str(ids[i])))
  }

  /** `{field: {"$in": ids}}`. */
  function AnyOfIds(field: string, ids: seq<string>): Entry {
    Entry(Path([field]), Dict([Entry(Dollar(In), Strings(ids))]))
  }

  function ContextClauses(filter: seq<(seq<string>, Value)>): seq<Entry> {
    if filter == [] then [] else [Entry(Path(["context"] + filter[0].0), filter[0].1)] + ContextClauses(filter[1..])
  }

  /** The clauses on an edge that do not name nodes. */
  function EdgeClauses(o: Options): seq<Entry> {
    (if o.edgeEntities == [] then [] else [AnyOfIds("entity", o.edgeEntities)]) + ContextClauses(o.edgeFilter)
  }

  function EndClause(way: Way, ids: seq<string>): Entry {
    match way
    case Outgoing => AnyOfIds("source", ids)
    case Incoming => AnyOfIds("target", ids)
    case Either => Entry(Dollar(Or), List([Dict([AnyOfIds("source", ids)]), Dict([AnyOfIds("target", ids)])]))
  }

  function EdgeQuery(o: Options, ids: seq<string>): seq<Entry> {
    [EndClause(o.way, ids)] + EdgeClauses(o)
  }

  /** The node filters, applied to what the database returns; a missing field reads as `None`. */
  predicate Passes(doc: Value, o: Options) {
    && (o.nodeEntities != [] ==> exists k | 0 <= k < |o.nodeEntities| :: Walk(doc, ["entity"]) == Some(Str(o.nodeEntities[k])))
    && forall k | 0 <= k < |o.nodeFilter| ::
         var x := Walk(doc, ["context", o.nodeFilter[k].0]);
         PyEq(if x.None? then Null else x.value, o.nodeFilter[k].1)
  }

  predicate IsNode(doc: Value, o: Options, id: string) {
    HasId(doc) && IdOf(doc) == id && Passes(doc, o)
  }

  /** The node with this id, if it exists and passes. */
  function Lookup(nodes: seq<Value>, o: Options, id: string): Option<Value> {
    if nodes == [] then None
    else
      var n := |nodes| - 1;
      if IsNode(nodes[n], o, id) then Some(nodes[n]) else Lookup(nodes[..n], o, id)
  }

  function Resolve(nodes: seq<Value>, o: Options, ids: seq<string>): seq<Value> {
    if ids == [] then []
    else
      match Lookup(nodes, o, ids[0])
      case Some(doc) => [doc] + Resolve(nodes, o, ids[1..])
      case None => Resolve(nodes, o, ids[1..])
  }

  /** The answer for one node: the neighbours over the edges that pass, of which those are returned
      that exist and pass. It mentions no other node. */
  function NodesOf(edges: seq<Value>, nodes: seq<Value>, o: Options, id: string): seq<Value> {
    Resolve(nodes, o, Neighbours(Matching(edges, EdgeClauses(o)), o.way, id))
  }

  // ---------- the batch query ----------

  lemma MatchAnyOfIds(doc: Value, field: string, ids: seq<string>, id: string)
    requires Walk(doc, [field]) == Some(Str(id))
    ensures MatchEntry(doc, AnyOfIds(field, ids), Plain) <==> id in ids
  {
    var ops, items := [Entry(Dollar(In), Strings(ids))], Strings(ids).items;
    assert MatchOps(Walk(doc, [field]), ops, Plain) == (MatchOp(Walk(doc, [field]), ops[0], Plain) && MatchOps(Walk(doc, [field]), ops[1..], Plain));
    assert ops[1..] == [];
    if id in ids {
      var k :| 0 <= k < |ids| && ids[k] == id;
      assert PyEq(Str(id), items[k]);
    }
  }

  lemma MatchEitherEnd(doc: Value, a: Entry, b: Entry)
    ensures MatchEntry(doc, Entry(Dollar(Or), List([Dict([a]), Dict([b])])), Plain) <==>
            MatchEntry(doc, a, Plain) || MatchEntry(doc, b, Plain)
  {
    MatchCons(doc, a, []);
    MatchCons(doc, b, []);
    assert [a] + [] == [a] && [b] + [] == [b];
    var two := [Dict([a]), Dict([b])];
    assert two[1..] == [Dict([b])] && two[1..][1..] == [];
    assert MatchAny(doc, two, Plain) == (Match(doc, [a]) || MatchAny(doc, two[1..], Plain));
    assert MatchAny(doc, two[1..], Plain) == (Match(doc, [b]) || MatchAny(doc, two[1..][1..], Plain));
  }

  /** An edge that offers something to one of the ids is found by the batch query if it passes. */
  lemma OfferIsFound(edge: Value, o: Options, ids: seq<string>, id: string)
    requires id in ids && Offers(edge, o.way, id) != []
    ensures Match(edge, EdgeQuery(o, ids)) <==> Match(edge, EdgeClauses(o))
  {
    MatchCons(edge, EndClause(o.way, ids), EdgeClauses(o));
    MatchEitherEnd(edge, AnyOfIds("source", ids), AnyOfIds("target", ids));
    if Source(edge) == Some(id) { MatchAnyOfIds(edge, "source", ids, id); }
    if Target(edge) == Some(id) { MatchAnyOfIds(edge, "target", ids, id); }
  }

  /** So the batch query yields each id the same offers as the edges that pass. */
  lemma {:induction false} SameOffers(edges: seq<Value>, o: Options, ids: seq<string>, id: string)
    requires id in ids
    ensures AllOffers(Matching(edges, EdgeQuery(o, ids)), o.way, id) == AllOffers(Matching(edges, EdgeClauses(o)), o.way, id)
    decreases |edges|
  {
    if edges != [] {
      SameOffers(edges[1..], o, ids, id);
      if Offers(edges[0], o.way, id) != [] { OfferIsFound(edges[0], o, ids, id); }
    }
  }

  function IdQuery(ids: seq<string>): seq<Entry> {
    [AnyOfIds("id", ids)]
  }

  lemma MatchedById(doc: Value, ids: seq<string>)
    requires HasId(doc) && IdOf(doc) in ids
    ensures Match(doc, IdQuery(ids))
  {
    MatchAnyOfIds(doc, "id", ids, IdOf(doc));
    MatchCons(doc, AnyOfIds("id", ids), []);
    assert IdQuery(ids) == [AnyOfIds("id", ids)] + [];
  }

  lemma LookupLastFound(nodes: seq<Value>, doc: Value, o: Options, query: seq<Entry>, id: string)
    requires IsNode(doc, o, id) ==> Match(doc, query)
    ensures Lookup(Matching(nodes + [doc], query), o, id) == if IsNode(doc, o, id) then Some(doc) else Lookup(Matching(nodes, query), o, id)
  {
    MatchingSnoc(nodes + [doc], query);
    assert (nodes + [doc])[..|nodes|] == nodes;
    if Match(doc, query) {
    } else {
      assert Matching(nodes, query) + [] == Matching(nodes, query);
    }
  }

  /** `{"id": {"$in": ids}}` keeps every node that may be looked up. */
  lemma {:induction false} SameLookup(nodes: seq<Value>, o: Options, ids: seq<string>, id: string)
    requires id in ids
    ensures Lookup(Matching(nodes, IdQuery(ids)), o, id) == Lookup(nodes, o, id)
    decreases |nodes|
  {
    if nodes != [] {
      var n := |nodes| - 1;
      SameLookup(nodes[..n], o, ids, id);
      if IsNode(nodes[n], o, id) { MatchedById(nodes[n], ids); }
      LookupLastFound(nodes[..n], nodes[n], o, IdQuery(ids), id);
      assert nodes == nodes[..n] + [nodes[n]];
    }
  }

  lemma {:induction false} MatchingSnoc(rows: seq<Value>, query: seq<Entry>)
    requires rows != []
    ensures var n := |rows| - 1;
            Matching(rows, query) == Matching(rows[..n], query) + if Match(rows[n], query) then [rows[n]] else []
    decreases |rows|
  {
    var n := |rows| - 1;
    if n > 0 {
      MatchingSnoc(rows[1..], query);
      assert rows[1..][..n - 1] == rows[..n][1..];
      assert rows[1..][n - 1] == rows[n];
    }
  }

  lemma FoundHasId(doc: Value, ids: seq<string>)
    requires Match(doc, IdQuery(ids))
    ensures HasId(doc)
  {
    MatchCons(doc, AnyOfIds("id", ids), []);
    assert [AnyOfIds("id", ids)] + [] == IdQuery(ids);
    var x, ops, items := Walk(doc, ["id"]), [Entry(Dollar(In), Strings(ids))], Strings(ids).items;
    assert MatchOps(x, ops, Plain) == (MatchOp(x, ops[0], Plain) && MatchOps(x, ops[1..], Plain));
    var k :| 0 <= k < |items| && PyEq(x.value, items[k]);
  }

  // ---------- the batch ----------

  function NonEmpty(ids: seq<string>): (r: seq<string>)
    ensures forall id :: id in r <==> id in ids && id != ""
  {
    if ids == [] then [] else (if ids[0] != "" then [ids[0]] else []) + NonEmpty(ids[1..])
  }

  /** `[nid for nid in dict.fromkeys(node_ids) if nid]`. */
  function UniqueIds(ids: seq<string>): (r: seq<string>)
    ensures forall id :: id in r <==> id in ids && id != ""
  {
    AddNewMembers([], ids);
    NonEmpty(AddNew([], ids))
  }

  function Limited(edges: seq<Value>, limit: Option<nat>): seq<Value> {
    if limit.None? then edges else Take(edges, limit.value)
  }

  function Cap(docs: seq<Value>, limit: Option<nat>): seq<Value> {
    if limit.None? then docs else Take(docs, if limit.value < 1 then 1 else limit.value)
  }

  /** The edges the one query of a batch brings back. */
  function EdgesFound(edges: seq<Value>, o: Options, ids: seq<string>): seq<Value> {
    Limited(Matching(edges, EdgeQuery(o, UniqueIds(ids))), o.limit)
  }

  datatype Links = Links(of: map<string, seq<string>>, pairs: set<(string, string)>, ends: set<string>)

  ghost predicate LinksFit(l: Links) {
    && (forall id, t | id in l.of :: (id, t) in l.pairs <==> t in l.of[id])
    && (forall id, t | id in l.of && t in l.of[id] :: t in l.ends)
  }

  /** One opposite end noted for an id that was asked for, unless the pair was seen. */
  method Note(l: Links, id: Option<string>, t: Option<string>, follow: bool) returns (l': Links)
    requires LinksFit(l)
    ensures LinksFit(l') && l'.of.Keys == l.of.Keys
    ensures forall k | k in l.of :: l'.of[k] == AddNew(l.of[k], if follow && id == Some(k) && t.Some? then [t.value] else [])
  {
    l' := l;
    if follow && id.Some? && id.value in l.of && t.Some? {
      assert [t.value][1..] == [];
      if (id.value, t.value) !in l.pairs {
        l' := Links(l.of[id.value := l.of[id.value] + [t.value]], l.pairs + {(id.value, t.value)}, l.ends + {t.value});
      }
    }
  }

  /** One edge: each of its ends that was asked for is told the other one. */
  method NoteEdge(l: Links, edge: Value, way: Way) returns (l': Links)
    requires LinksFit(l)
    ensures LinksFit(l') && l'.of.Keys == l.of.Keys
    ensures forall id | id in l.of :: l'.of[id] == AddNew(l.of[id], Offers(edge, way, id))
  {
    l' := Note(l, Source(edge), Target(edge), !way.Incoming?);
    l' := Note(l', Target(edge), Source(edge), !way.Outgoing?);
    forall id | id in l.of ensures l'.of[id] == AddNew(l.of[id], Offers(edge, way, id)) {
      OffersSplit(edge, way, id, l.of[id]);
    }
  }

  lemma OffersSplit(edge: Value, way: Way, id: string, to: seq<string>)
    ensures AddNew(to, Offers(edge, way, id)) == AddNew(AddNew(to, OutOffer(edge, way, id)), InOffer(edge, way, id))
  {
  }

  /** All ends of all edges found. */
  method NoteEdges(found: seq<Value>, way: Way, ids: seq<string>) returns (l: Links)
    ensures LinksFit(l) && forall id :: id in l.of <==> id in ids
    ensures forall id | id in l.of :: l.of[id] == Neighbours(found, way, id)
  {
    l := Links(map id | id in ids :: [], {}, {});
    for i := 0 to |found|
      invariant LinksFit(l) && forall id :: id in l.of <==> id in ids
      invariant forall id | id in l.of :: Neighbours(found, way, id) == AddNew(l.of[id], AllOffers(found[i..], way, id))
    {
      ghost var before := l;
      l := NoteEdge(l, found[i], way);
      assert found[i..][1..] == found[i + 1..];
      forall id | id in l.of ensures Neighbours(found, way, id) == AddNew(l.of[id], AllOffers(found[i + 1..], way, id)) {
        AddNewTwice(before.of[id], Offers(found[i], way, id), AllOffers(found[i + 1..], way, id));
      }
    }
  }

  /** The nodes by id, of those that pass; a later record replaces an earlier one. */
  method Index(docs: seq<Value>, o: Options) returns (byId: map<string, Value>)
    requires forall i | 0 <= i < |docs| :: HasId(docs[i])
    ensures forall id :: (if id in byId then Some(byId[id]) else None) == Lookup(docs, o, id)
  {
    byId := map[];
    for i := 0 to |docs|
      invariant forall id :: (if id in byId then Some(byId[id]) else None) == Lookup(docs[..i], o, id)
    {
      assert docs[..i + 1] == docs[..i] + [docs[i]];
      forall id ensures Lookup(docs[..i + 1], o, id) ==
                        if IsNode(docs[i], o, id) then Some(docs[i]) else Lookup(docs[..i], o, id)
      {
      }
      if Passes(docs[i], o) {
        byId := byId[IdOf(docs[i]) := docs[i]];
      }
    }
    assert docs[..|docs|] == docs;
  }

  lemma {:induction false} ResolveTwice(nodes: seq<Value>, o: Options, a: seq<string>, b: seq<string>)
    ensures Resolve(nodes, o, a + b) == Resolve(nodes, o, a) + Resolve(nodes, o, b)
    decreases |a|
  {
    if a == [] {
      assert a + b == b;
    } else {
      assert (a + b)[1..] == a[1..] + b;
      ResolveTwice(nodes, o, a[1..], b);
    }
  }

  lemma ResolveSnoc(nodes: seq<Value>, o: Options, ids: seq<string>, id: string)
    ensures Resolve(nodes, o, ids + [id]) == Resolve(nodes, o, ids) +
            match Lookup(nodes, o, id) case Some(doc) => [doc] case None => []
  {
    ResolveTwice(nodes, o, ids, [id]);
    assert [id][1..] == [];
  }

  lemma ResolvePrefix(nodes: seq<Value>, o: Options, ids: seq<string>, k: nat)
    requires k <= |ids|
    ensures Resolve(nodes, o, ids[..k]) <= Resolve(nodes, o, ids)
  {
    ResolveTwice(nodes, o, ids[..k], ids[k..]);
    assert ids[..k] + ids[k..] == ids;
  }

  /** The nodes linked to one id, up to the limit. */
  method Gather(byId: map<string, Value>, ghost nodes: seq<Value>, o: Options, ids: seq<string>) returns (matched: seq<Value>)
    requires forall id | id in ids :: (if id in byId then Some(byId[id]) else None) == Lookup(nodes, o, id)
    ensures matched == Cap(Resolve(nodes, o, ids), o.limit)
  {
    matched := [];
    for i := 0 to |ids|
      invariant matched == Resolve(nodes, o, ids[..i])
      invariant o.limit.Some? ==> |matched| < if o.limit.value < 1 then 1 else o.limit.value
    {
      assert ids[..i + 1] == ids[..i] + [ids[i]];
      ResolveSnoc(nodes, o, ids[..i], ids[i]);
      if ids[i] in byId {
        matched := matched + [byId[ids[i]]];
        if o.limit.Some? && |matched| >= (if o.limit.value < 1 then 1 else o.limit.value) {
          ResolvePrefix(nodes, o, ids, i + 1);
          return;
        }
      }
    }
    assert ids[..|ids|] == ids;
  }

  /** One id's neighbours over the edges found, those that exist and pass, up to the limit. */
  function Answer(nodes: seq<Value>, o: Options, found: seq<Value>, id: string): seq<Value> {
    Cap(Resolve(nodes, o, Neighbours(found, o.way, id)), o.limit)
  }

  /** The nodes at the noted ends, fetched in one query. */
  method FetchEnds(nodes: seq<Value>, o: Options, ends: set<string>) returns (byId: map<string, Value>)
    ensures forall id | id in ends :: (if id in byId then Some(byId[id]) else None) == Lookup(nodes, o, id)
  {
    var wanted := ListOf(ends);
    var docs := Matching(nodes, IdQuery(wanted));
    forall i | 0 <= i < |docs| ensures HasId(docs[i]) {
      assert docs[i] in docs;
      FoundHasId(docs[i], wanted);
    }
    byId := Index(docs, o);
    forall id | id in ends ensures Lookup(docs, o, id) == Lookup(nodes, o, id) {
      SameLookup(nodes, o, wanted, id);
    }
  }

  method AnswerLinks(nodes: seq<Value>, o: Options, l: Links, ids: seq<string>) returns (out: map<string, seq<Value>>)
    requires LinksFit(l) && forall id :: id in l.of <==> id in ids
    ensures forall id :: id in out <==> id in ids
    ensures forall id | id in out :: out[id] == Cap(Resolve(nodes, o, l.of[id]), o.limit)
  {
    out := map id | id in ids :: [];
    assert forall id | id in l.of && l.of[id] != [] :: l.of[id][0] in l.ends;
    if l.ends == {} {
      return;
    }
    var byId := FetchEnds(nodes, o, l.ends);
    for i := 0 to |ids|
      invariant forall id :: id in out <==> id in ids
      invariant forall id | id in ids[..i] :: out[id] == Cap(Resolve(nodes, o, l.of[id]), o.limit)
    {
      assert ids[..i + 1] == ids[..i] + [ids[i]];
      var matched := Gather(byId, nodes, o, l.of[ids[i]]);
      out := out[ids[i] := matched];
    }
    assert ids[..|ids|] == ids;
  }

  /** `nodes_bulk`. Every id gets its answer over the edges found; without a limit this is what asking
      for the id alone gives. */
  method NodesBulk(edges: seq<Value>, nodes: seq<Value>, nodeIds: seq<string>, o: Options) returns (out: map<string, seq<Value>>)
    ensures forall id :: id in out <==> id in nodeIds && id != ""
    ensures forall id | id in out :: out[id] == Answer(nodes, o, EdgesFound(edges, o, nodeIds), id)
    ensures o.limit.None? ==> forall id | id in out :: out[id] == NodesOf(edges, nodes, o, id)
  {
    var unique := UniqueIds(nodeIds);
    if unique == [] {
      return map[];
    }
    var found := EdgesFound(edges, o, nodeIds);
    var links := NoteEdges(found, o.way, unique);
    out := AnswerLinks(nodes, o, links, unique);
    if o.limit.None? {
      forall id | id in out ensures out[id] == NodesOf(edges, nodes, o, id) {
        BatchIsOneAtATime(edges, nodes, o, nodeIds, id);
      }
    }
  }

  /** The limit counts edges of the whole batch. As long as it lets all of them through, an id's answer
      is its own, whatever else is in the batch, cut off at the limit. */
  lemma BatchIsOneAtATime(edges: seq<Value>, nodes: seq<Value>, o: Options, ids: seq<string>, id: string)
    requires id in UniqueIds(ids)
    requires o.limit.Some? ==> |Matching(edges, EdgeQuery(o, UniqueIds(ids)))| <= o.limit.value
    ensures Answer(nodes, o, EdgesFound(edges, o, ids), id) == Cap(NodesOf(edges, nodes, o, id), o.limit)
  {
    SameOffers(edges, o, UniqueIds(ids), id);
  }

  // ---------- what an answer holds ----------

  /** The edge is of one of the entities asked for, if any are, and meets every entry of the edge filter below
      its context. */
  predicate EdgePasses(edge: Value, o: Options) {
    && (o.edgeEntities == [] || exists k | 0 <= k < |o.edgeEntities| :: HasField(edge, "entity", Str(o.edgeEntities[k])))
    && forall k | 0 <= k < |o.edgeFilter| ::
         MatchValue(Walk(edge, ["context"] + o.edgeFilter[k].0), o.edgeFilter[k].1, Plain)
  }

  /** The edge leads from `id` to `t` in a direction asked for. */
  predicate Joins(edge: Value, way: Way, id: string, t: string) {
    && id != "" && t != ""
    && ((way != Incoming && HasField(edge, "source", Str(id)) && HasField(edge, "target", Str(t)))
        || (way != Outgoing && HasField(edge, "target", Str(id)) && HasField(edge, "source", Str(t))))
  }

  /** The node is of one of the entities asked for, if any are, and its context holds every value of the node
      filter, None standing for what is not there. */
  predicate NodePasses(doc: Value, o: Options) {
    && (o.nodeEntities == [] || exists k | 0 <= k < |o.nodeEntities| :: HasField(doc, "entity", Str(o.nodeEntities[k])))
    && forall k | 0 <= k < |o.nodeFilter| :: ContextIs(doc, o.nodeFilter[k].0, o.nodeFilter[k].1)
  }

  predicate ContextIs(doc: Value, name: string, wanted: Value) {
    var x := Walk(doc, ["context", name]);
    PyEq(if x == None then Null else x.value, wanted)
  }

  predicate Passing(doc: Value, o: Options, t: string) {
    HasField(doc, "id", Str(t)) && NodePasses(doc, o)
  }

  /** `doc` is the last record with this id that passes. */
  predicate LastPassing(nodes: seq<Value>, o: Options, t: string, doc: Value) {
    exists i | 0 <= i < |nodes| :: LastAt(nodes, o, t, doc, i)
  }

  predicate LastAt(nodes: seq<Value>, o: Options, t: string, doc: Value, i: nat) {
    i < |nodes| && nodes[i] == doc && Passing(doc, o, t) && forall j | i < j < |nodes| :: !Passing(nodes[j], o, t)
  }

  lemma AnyOfIdsMeans(doc: Value, field: string, ids: seq<string>)
    ensures MatchEntry(doc, AnyOfIds(field, ids), Plain) <==> exists k | 0 <= k < |ids| :: HasField(doc, field, Str(ids[k]))
  {
    var x, ops, items := Walk(doc, [field]), [Entry(Dollar(In), Strings(ids))], Strings(ids).items;
    assert MatchOps(x, ops, Plain) == (MatchOp(x, ops[0], Plain) && MatchOps(x, ops[1..], Plain));
    assert ops[1..] == [];
    forall k | 0 <= k < |ids| ensures x.Some? && PyEq(x.value, items[k]) <==> HasField(doc, field, Str(ids[k])) {
      WalkOne(doc, field, Str(ids[k]));
    }
    if items != [] && IsAbsent(x) {
      forall k | 0 <= k < |ids| ensures !HasField(doc, field, Str(ids[k])) { WalkOne(doc, field, Str(ids[k])); }
    }
  }

  lemma {:induction false} ContextMeans(doc: Value, filter: seq<(seq<string>, Value)>)
    ensures Match(doc, ContextClauses(filter)) <==>
            forall k | 0 <= k < |filter| :: MatchValue(Walk(doc, ["context"] + filter[k].0), filter[k].1, Plain)
  {
    if filter != [] {
      var rest := filter[1..];
      MatchCons(doc, Entry(Path(["context"] + filter[0].0), filter[0].1), ContextClauses(rest));
      ContextMeans(doc, rest);
      assert forall k | 0 <= k < |rest| :: rest[k] == filter[k + 1];
      assert forall k | 0 < k < |filter| :: filter[k] == rest[k - 1];
    }
  }

  lemma EdgeClausesMean(edge: Value, o: Options)
    ensures Match(edge, EdgeClauses(o)) <==> EdgePasses(edge, o)
  {
    ContextMeans(edge, o.edgeFilter);
    if o.edgeEntities == [] {
      assert [] + ContextClauses(o.edgeFilter) == ContextClauses(o.edgeFilter);
    } else {
      MatchCons(edge, AnyOfIds("entity", o.edgeEntities), ContextClauses(o.edgeFilter));
      AnyOfIdsMeans(edge, "entity", o.edgeEntities);
    }
  }

  lemma EndMeans(edge: Value, field: string, t: string)
    ensures End(edge, field) == Some(t) <==> HasField(edge, field, Str(t)) && t != ""
  {
    WalkOne(edge, field, Str(t));
  }

  lemma OffersMean(edge: Value, way: Way, id: string, t: string)
    ensures t in Offers(edge, way, id) <==> Joins(edge, way, id, t)
  {
    EndMeans(edge, "source", id);
    EndMeans(edge, "target", id);
    EndMeans(edge, "source", t);
    EndMeans(edge, "target", t);
  }

  lemma {:induction false} AllOffersMean(edges: seq<Value>, way: Way, id: string, t: string)
    ensures t in AllOffers(edges, way, id) <==> exists e :: e in edges && Joins(e, way, id, t)
  {
    if edges != [] {
      OffersMean(edges[0], way, id, t);
      AllOffersMean(edges[1..], way, id, t);
      assert forall e :: e in edges <==> e == edges[0] || e in edges[1..];
    }
  }

  /** An id's neighbours are what the passing edges join it with. */
  lemma NeighboursMean(edges: seq<Value>, o: Options, id: string, t: string)
    ensures t in Neighbours(Matching(edges, EdgeClauses(o)), o.way, id) <==>
            exists e :: e in edges && EdgePasses(e, o) && Joins(e, o.way, id, t)
  {
    AddNewMembers([], AllOffers(Matching(edges, EdgeClauses(o)), o.way, id));
    AllOffersMean(Matching(edges, EdgeClauses(o)), o.way, id, t);
    forall e { EdgeClausesMean(e, o); }
  }

  lemma PassesMeans(doc: Value, o: Options)
    ensures Passes(doc, o) <==> NodePasses(doc, o)
  {
    forall k | 0 <= k < |o.nodeEntities| { WalkOne(doc, "entity", Str(o.nodeEntities[k])); }
    forall k | 0 <= k < |o.nodeFilter| ensures ContextIs(doc, o.nodeFilter[k].0, o.nodeFilter[k].1) <==>
      var x := Walk(doc, ["context", o.nodeFilter[k].0]); PyEq(if x.None? then Null else x.value, o.nodeFilter[k].1) {}
  }

  lemma IsNodeMeans(doc: Value, o: Options, t: string)
    ensures IsNode(doc, o, t) <==> Passing(doc, o, t)
  {
    WalkOne(doc, "id", Str(t));
    PassesMeans(doc, o);
  }

  /** One record more: it is the last that passes, or it does not count. */
  lemma LastPassingMore(nodes: seq<Value>, o: Options, t: string, doc: Value)
    requires nodes != []
    ensures var n := |nodes| - 1;
            LastPassing(nodes, o, t, doc) <==> if Passing(nodes[n], o, t) then nodes[n] == doc else LastPassing(nodes[..n], o, t, doc)
  {
    var n := |nodes| - 1;
    if Passing(nodes[n], o, t) {
      if nodes[n] == doc { assert LastAt(nodes, o, t, doc, n); }
    } else {
      forall i | 0 <= i < n ensures LastAt(nodes, o, t, doc, i) <==> LastAt(nodes[..n], o, t, doc, i) {
        assert forall j | 0 <= j < n :: nodes[..n][j] == nodes[j];
      }
    }
  }

  lemma {:induction false} LookupMeans(nodes: seq<Value>, o: Options, t: string, doc: Value)
    ensures Lookup(nodes, o, t) == Some(doc) <==> LastPassing(nodes, o, t, doc)
  {
    if nodes != [] {
      IsNodeMeans(nodes[|nodes| - 1], o, t);
      LookupMeans(nodes[..|nodes| - 1], o, t, doc);
      LastPassingMore(nodes, o, t, doc);
    }
  }

  lemma {:induction false} ResolveMeans(nodes: seq<Value>, o: Options, ids: seq<string>, doc: Value)
    ensures doc in Resolve(nodes, o, ids) <==> exists t :: t in ids && LastPassing(nodes, o, t, doc)
  {
    if ids != [] {
      LookupMeans(nodes, o, ids[0], doc);
      ResolveMeans(nodes, o, ids[1..], doc);
      assert forall t :: t in ids <==> t == ids[0] || t in ids[1..];
    }
  }

  /** One id's answer holds exactly the nodes that a passing edge joins it with in a direction asked for and
      that pass themselves. */
  lemma AnswerHolds(edges: seq<Value>, nodes: seq<Value>, o: Options, id: string, doc: Value)
    ensures doc in NodesOf(edges, nodes, o, id) <==>
            exists e, t :: e in edges && EdgePasses(e, o) && Joins(e, o.way, id, t) && LastPassing(nodes, o, t, doc)
  {
    var ids := Neighbours(Matching(edges, EdgeClauses(o)), o.way, id);
    ResolveMeans(nodes, o, ids, doc);
    forall t { NeighboursMean(edges, o, id, t); }
  }

  /** Under a limit an answer is the beginning of what it is without one, as long as the limit, which counts
      as 1 below that. */
  lemma CappedAnswer(docs: seq<Value>, limit: nat)
    ensures Cap(docs, Some(limit)) <= docs && Cap(docs, None) == docs
    ensures |Cap(docs, Some(limit))| == var n := if limit == 0 then 1 else limit; if |docs| < n then |docs| else n
  {
  }
}
