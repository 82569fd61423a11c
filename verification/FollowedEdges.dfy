/** The edges that jvspatial/core/graph_expansion.py follows from a node: the first ones of its edge list
    in the order of their sort keys. */
module FollowedEdges {
  import opened BfsLayers
  import opened LexOrder

  type EdgeId = string

  datatype Option<+T> = None | Some(value: T)

  datatype Edge = Edge(source: Option<Id>, target: Option<Id>)

  /** The stored node records, each with its edge-id list, and the stored edge records. */
  datatype Graph = Graph(nodes: map<Id, seq<EdgeId>>, edges: map<EdgeId, Edge>)

  /** Python's truth of an optional string: an empty id counts as none. */
  function Present(x: Option<Id>): Option<Id> {
    if x == Some("") then None else x
  }

  function OtherEndpoint(e: Edge, v: Id): Option<Id> {
    if e.source == Some(v) then Present(e.target)
    else if e.target == Some(v) then Present(e.source)
    else None
  }

  predicate StartsWith(s: string, prefix: string) {
    prefix <= s
  }

  /** How early an edge is followed: App, Agents and Root neighbours come first. */
  function Rank(g: Graph, eid: EdgeId, v: Id): nat {
    var other := if eid in g.edges then OtherEndpoint(g.edges[eid], v) else None;
    if other.None? then 9
    else if StartsWith(other.value, "n.App.") then 0
    else if StartsWith(other.value, "n.Agents.") then 1
    else if other.value == "n.Root.root" || StartsWith(other.value, "n.Root.") then 2
    else 3
  }

  predicate StrLeq(a: string, b: string) {
    if a == "" then true
    else if b == "" then false
    else a[0] < b[0] || (a[0] == b[0] && StrLeq(a[1..], b[1..]))
  }

  lemma {:induction false} StrLeqTotal(a: string, b: string)
    ensures StrLeq(a, b) || StrLeq(b, a)
    decreases |a|
  {
    if a != "" && b != "" && a[0] == b[0] { StrLeqTotal(a[1..], b[1..]); }
  }

  lemma {:induction false} StrLeqTrans(a: string, b: string, c: string)
    requires StrLeq(a, b) && StrLeq(b, c)
    ensures StrLeq(a, c)
    decreases |a|
  {
    if a != "" && a[0] == b[0] && b[0] == c[0] { StrLeqTrans(a[1..], b[1..], c[1..]); }
  }

  predicate KeyLeq(g: Graph, v: Id, a: EdgeId, b: EdgeId) {
    Rank(g, a, v) < Rank(g, b, v) || (Rank(g, a, v) == Rank(g, b, v) && StrLeq(a, b))
  }

  lemma KeyLeqTotal(g: Graph, v: Id, a: EdgeId, b: EdgeId)
    ensures KeyLeq(g, v, a, b) || KeyLeq(g, v, b, a)
  {
    StrLeqTotal(a, b);
  }

  lemma KeyLeqTrans(g: Graph, v: Id, a: EdgeId, b: EdgeId, c: EdgeId)
    requires KeyLeq(g, v, a, b) && KeyLeq(g, v, b, c)
    ensures KeyLeq(g, v, a, c)
  {
    if StrLeq(a, b) && StrLeq(b, c) { StrLeqTrans(a, b, c); }
  }

  /** `a` before the first element that must not precede it; equal keys keep their order. */
  function InsertByKey(g: Graph, v: Id, a: EdgeId, es: seq<EdgeId>): (r: seq<EdgeId>)
    ensures multiset(r) == multiset{a} + multiset(es)
  {
    if es == [] then [a]
    else if KeyLeq(g, v, a, es[0]) then [a] + es
    else
      assert es == [es[0]] + es[1..];
      [es[0]] + InsertByKey(g, v, a, es[1..])
  }

  /** `eid_docs.sort(key=...)` */
  function SortByKey(g: Graph, v: Id, es: seq<EdgeId>): (r: seq<EdgeId>)
    ensures multiset(r) == multiset(es) && |r| == |es|
  {
    if es == [] then []
    else
      assert es == [es[0]] + es[1..];
      var r := InsertByKey(g, v, es[0], SortByKey(g, v, es[1..]));
      assert |multiset(r)| == |r| && |multiset(es)| == |es|;
      r
  }

  ghost predicate Ordered(g: Graph, v: Id, es: seq<EdgeId>) {
    forall i, j | 0 <= i < j < |es| :: KeyLeq(g, v, es[i], es[j])
  }

  lemma {:induction false} InsertKeepsOrder(g: Graph, v: Id, a: EdgeId, es: seq<EdgeId>)
    requires Ordered(g, v, es)
    ensures Ordered(g, v, InsertByKey(g, v, a, es))
  {
    if es != [] {
      if KeyLeq(g, v, a, es[0]) {
        forall k | 0 < k < |es| ensures KeyLeq(g, v, a, es[k]) { KeyLeqTrans(g, v, a, es[0], es[k]); }
      } else {
        KeyLeqTotal(g, v, a, es[0]);
        InsertKeepsOrder(g, v, a, es[1..]);
        var r := InsertByKey(g, v, a, es[1..]);
        forall k | 0 <= k < |r| ensures KeyLeq(g, v, es[0], r[k]) {
          assert r[k] in multiset(r);
          if r[k] != a {
            assert r[k] in multiset(es[1..]);
            var j :| 0 <= j < |es[1..]| && es[1..][j] == r[k];
            assert es[j + 1] == r[k];
          }
        }
      }
    }
  }

  lemma {:induction false} SortOrders(g: Graph, v: Id, es: seq<EdgeId>)
    ensures Ordered(g, v, SortByKey(g, v, es))
  {
    if es != [] {
      SortOrders(g, v, es[1..]);
      InsertKeepsOrder(g, v, es[0], SortByKey(g, v, es[1..]));
    }
  }

  function EdgeList(g: Graph, v: Id): seq<EdgeId> {
    if v in g.nodes then g.nodes[v] else []
  }

  /** The edges followed from `v`: the first `cap` in key order. */
  function Selected(g: Graph, cap: nat, v: Id): seq<EdgeId> {
    var es := SortByKey(g, v, EdgeList(g, v));
    if |es| <= cap then es else es[..cap]
  }

  /** Under the cap a followed edge never has a later key than one left out, so the canonical App,
      Agents and Root neighbours are the last to be dropped. */
  lemma CapKeepsEarliestKeys(g: Graph, cap: nat, v: Id)
    ensures |Selected(g, cap, v)| == if |EdgeList(g, v)| <= cap then |EdgeList(g, v)| else cap
    ensures var dropped := multiset(EdgeList(g, v)) - multiset(Selected(g, cap, v));
            multiset(Selected(g, cap, v)) + dropped == multiset(EdgeList(g, v))
            && forall a, b | a in Selected(g, cap, v) && b in dropped :: KeyLeq(g, v, a, b)
  {
    var es := SortByKey(g, v, EdgeList(g, v));
    SortOrders(g, v, EdgeList(g, v));
    var kept := Selected(g, cap, v);
    var rest := es[|kept|..];
    assert es == kept + rest;
    assert multiset(es) == multiset(kept) + multiset(rest);
    forall a, b | a in kept && b in multiset(rest) ensures KeyLeq(g, v, a, b) {
      var i :| 0 <= i < |kept| && kept[i] == a;
      var j :| 0 <= j < |rest| && rest[j] == b;
      assert es[i] == a && es[|kept| + j] == b;
    }
  }

  /** The ids one followed edge away from `v`. */
  function Adjacent(g: Graph, cap: nat, v: Id): set<Id> {
    set eid | eid in Selected(g, cap, v) && eid in g.edges && OtherEndpoint(g.edges[eid], v).Some? ::
      OtherEndpoint(g.edges[eid], v).value
  }

  /** The graph of followed edges. */
  function Followed(g: Graph, cap: nat): Links {
    map v | v in g.nodes :: Adjacent(g, cap, v)
  }

  /** The far end of an edge seen from `v`, if the edge is stored and has one. */
  function FarEnd(g: Graph, eid: EdgeId, v: Id): Option<Id> {
    if eid in g.edges then OtherEndpoint(g.edges[eid], v) else None
  }

  // ---------- the order in terms of ids alone ----------

  /** The stored edge joins `v` with `w`; an edge from `v` is seen from its source. */
  predicate LeadsTo(g: Graph, eid: EdgeId, v: Id, w: Id) {
    && eid in g.edges && w != ""
    && var e := g.edges[eid];
       (e.source == Some(v) && e.target == Some(w)) || (e.source != Some(v) && e.target == Some(v) && e.source == Some(w))
  }

  lemma FarEndLeads(g: Graph, eid: EdgeId, v: Id, w: Id)
    ensures FarEnd(g, eid, v) == Some(w) <==> LeadsTo(g, eid, v, w)
  {
  }

  ghost predicate LeadsInto(g: Graph, eid: EdgeId, v: Id, prefix: string) {
    exists w :: LeadsTo(g, eid, v, w) && prefix <= w
  }

  predicate InOrder(a: string, b: string) {
    a == b || LexLess(a, b)
  }

  lemma {:induction false} StrLeqInOrder(a: string, b: string)
    ensures StrLeq(a, b) <==> InOrder(a, b)
    decreases |a|
  {
    if a != "" && b != "" {
      LexNext(a, b);
      StrLeqInOrder(a[1..], b[1..]);
      assert a == [a[0]] + a[1..] && b == [b[0]] + b[1..];
    }
  }

  /** `a` leads into no lesser place than `b`: App before Agents before Root nodes before others, and an edge
      that leads anywhere before one that does not. */
  ghost predicate NoLesser(g: Graph, v: Id, a: EdgeId, b: EdgeId) {
    && (LeadsInto(g, b, v, "n.App.") ==> LeadsInto(g, a, v, "n.App."))
    && (LeadsInto(g, b, v, "n.Agents.") ==> LeadsInto(g, a, v, "n.App.") || LeadsInto(g, a, v, "n.Agents."))
    && (LeadsInto(g, b, v, "n.Root.") ==>
          LeadsInto(g, a, v, "n.App.") || LeadsInto(g, a, v, "n.Agents.") || LeadsInto(g, a, v, "n.Root."))
    && (LeadsInto(g, b, v, "") ==> LeadsInto(g, a, v, ""))
  }

  /** And where neither leads into a lesser place, the edge ids decide. */
  ghost predicate Canonical(g: Graph, v: Id, a: EdgeId, b: EdgeId) {
    NoLesser(g, v, a, b) && (NoLesser(g, v, b, a) ==> InOrder(a, b))
  }

  lemma IntoOf(g: Graph, eid: EdgeId, v: Id, prefix: string)
    ensures LeadsInto(g, eid, v, prefix) <==> FarEnd(g, eid, v).Some? && prefix <= FarEnd(g, eid, v).value
  {
    forall w { FarEndLeads(g, eid, v, w); }
    if FarEnd(g, eid, v).Some? { assert LeadsTo(g, eid, v, FarEnd(g, eid, v).value); }
  }

  lemma IntoAll(g: Graph, eid: EdgeId, v: Id)
    ensures LeadsInto(g, eid, v, "n.App.") <==> Rank(g, eid, v) == 0
    ensures LeadsInto(g, eid, v, "n.Agents.") <==> Rank(g, eid, v) == 1
    ensures LeadsInto(g, eid, v, "n.Root.") <==> Rank(g, eid, v) == 2
    ensures LeadsInto(g, eid, v, "") <==> Rank(g, eid, v) <= 3
    ensures Rank(g, eid, v) <= 3 || Rank(g, eid, v) == 9
  {
    IntoOf(g, eid, v, "n.App.");
    IntoOf(g, eid, v, "n.Agents.");
    IntoOf(g, eid, v, "n.Root.");
    IntoOf(g, eid, v, "");
    if FarEnd(g, eid, v).Some? { PrefixesApart(FarEnd(g, eid, v).value); }
  }

  lemma PrefixesApart(w: string)
    ensures !("n.App." <= w && "n.Agents." <= w) && !("n.App." <= w && "n.Root." <= w) && !("n.Agents." <= w && "n.Root." <= w)
    ensures w == "n.Root.root" ==> "n.Root." <= w
  {
    assert "n.App."[3] == 'p' && "n.Agents."[3] == 'g' && "n.Root."[3] == 'o';
  }

  lemma KeyLeqCanonical(g: Graph, v: Id, a: EdgeId, b: EdgeId)
    ensures KeyLeq(g, v, a, b) <==> Canonical(g, v, a, b)
  {
    IntoAll(g, a, v);
    IntoAll(g, b, v);
    StrLeqInOrder(a, b);
    RankNoLesser(g, v, a, b);
    RankNoLesser(g, v, b, a);
  }

  lemma RankNoLesser(g: Graph, v: Id, a: EdgeId, b: EdgeId)
    ensures NoLesser(g, v, a, b) <==> Rank(g, a, v) <= Rank(g, b, v)
  {
    IntoAll(g, a, v);
    IntoAll(g, b, v);
  }

  /** The followed edges are as many of the list as the cap allows, in canonical order, and every edge left
      out comes after all of them: an edge into an App is left out only if every followed edge leads into
      one, and so on. */
  lemma CanonicalFirst(g: Graph, cap: nat, v: Id)
    ensures |Selected(g, cap, v)| == if |EdgeList(g, v)| <= cap then |EdgeList(g, v)| else cap
    ensures var kept := Selected(g, cap, v); forall i, j | 0 <= i < j < |kept| :: Canonical(g, v, kept[i], kept[j])
    ensures var left := multiset(EdgeList(g, v)) - multiset(Selected(g, cap, v));
            multiset(Selected(g, cap, v)) + left == multiset(EdgeList(g, v))
            && forall a, b | a in Selected(g, cap, v) && b in left :: Canonical(g, v, a, b)
  {
    CapKeepsEarliestKeys(g, cap, v);
    SortOrders(g, v, EdgeList(g, v));
    forall a, b { KeyLeqCanonical(g, v, a, b); }
  }

  /** The search goes from a stored node to the other ends of its followed edges. */
  lemma NextIff(g: Graph, cap: nat, v: Id, w: Id)
    ensures w in Next(Followed(g, cap), v) <==> v in g.nodes && exists eid :: eid in Selected(g, cap, v) && LeadsTo(g, eid, v, w)
  {
    forall eid { FarEndLeads(g, eid, v, w); }
  }
}
