/**
 Fact graphs, their indexes, and the token cost of the parts of a graph.
 */
module FactGraphs {
  import opened Graphs

  /**
   `semantic` is what is left of a record without its volatile fields; `jsonLength` is the length of the canonical
   JSON of the whole record, on which its token estimate depends.
   */
  datatype FactNode = FactNode(id: Id, factId: Id, semantic: string, jsonLength: nat)

  datatype FactEdge = FactEdge(id: Id, subject: Id, predicate_: string, object_: Id, semantic: string, jsonLength: nat)

  datatype FactGraph = FactGraph(nodes: seq<FactNode>, edges: seq<FactEdge>)

  /** A quarter of the JSON length, rounded up, and at least one token. */
  function TokenEstimate(jsonLength: nat): (tokens: nat)
    ensures tokens >= 1 && jsonLength <= 4 * tokens && (tokens > 1 ==> 4 * (tokens - 1) < jsonLength)
  {
    if jsonLength <= 4 then 1 else (jsonLength + 3) / 4
  }

  ghost predicate DistinctIds(g: FactGraph) {
    (forall i, j :: 0 <= i < j < |g.nodes| ==> g.nodes[i].id != g.nodes[j].id)
    && forall i, j :: 0 <= i < j < |g.edges| ==> g.edges[i].id != g.edges[j].id
  }

  ghost function NodeIds(g: FactGraph): set<Id> {
    set n | n in g.nodes :: n.id
  }

  ghost predicate NoDanglingEdge(g: FactGraph) {
    forall e :: e in g.edges ==> e.subject in NodeIds(g) && e.object_ in NodeIds(g)
  }

  predicate Joins(e: FactEdge, x: Id, y: Id) {
    (e.subject == x && e.object_ == y) || (e.subject == y && e.object_ == x)
  }

  predicate Touches(e: FactEdge, ids: set<Id>) {
    e.subject in ids || e.object_ in ids
  }

  /** The links between existing nodes. */
  ghost function NodeLinks(g: FactGraph): Relation {
    (set e | e in g.edges && e.subject in NodeIds(g) && e.object_ in NodeIds(g) :: (e.subject, e.object_))
    + (set e | e in g.edges && e.subject in NodeIds(g) && e.object_ in NodeIds(g) :: (e.object_, e.subject))
  }

  /** The links of the chosen edges only. */
  ghost function ChosenLinks(g: FactGraph, edgeIds: set<Id>): Relation {
    (set e | e in g.edges && e.id in edgeIds :: (e.subject, e.object_))
    + (set e | e in g.edges && e.id in edgeIds :: (e.object_, e.subject))
  }

  // ---------------------------------------------------------------- indexes

  datatype Hop = Hop(edge: FactEdge, nodeId: Id)

  type Adjacency = map<Id, seq<Hop>>

  function HopsFrom(adjacency: Adjacency, x: Id): seq<Hop> {
    if x in adjacency then adjacency[x] else []
  }

  function NodesById(nodes: seq<FactNode>): (byId: map<Id, FactNode>)
    ensures byId.Keys == set n | n in nodes :: n.id
    ensures forall id :: id in byId ==> byId[id].id == id && byId[id] in nodes
  {
    if nodes == [] then map[]
    else
      var last := nodes[|nodes| - 1];
      assert nodes == nodes[..|nodes| - 1] + [last];
      NodesById(nodes[..|nodes| - 1])[last.id := last]
  }

  // ---------------------------------------------------------------- costs

  function CostOfNodes(nodes: seq<FactNode>, ids: set<Id>): nat {
    if nodes == [] then 0
    else
      (if nodes[0].id in ids then TokenEstimate(nodes[0].jsonLength) else 0) + CostOfNodes(nodes[1..], ids)
  }

  function CostOfEdges(edges: seq<FactEdge>, ids: set<Id>): nat {
    if edges == [] then 0
    else
      (if edges[0].id in ids then TokenEstimate(edges[0].jsonLength) else 0) + CostOfEdges(edges[1..], ids)
  }

  function CostOfHops(hops: seq<Hop>): nat {
    if hops == [] then 0 else CostOfHops(hops[..|hops| - 1]) + TokenEstimate(hops[|hops| - 1].edge.jsonLength)
  }

  /** The cost of all edge ends that lie in `ids`: an edge with both ends there counts twice. */
  function Incidence(edges: seq<FactEdge>, ids: set<Id>): nat {
    if edges == [] then 0
    else
      var e := edges[|edges| - 1];
      var cost := TokenEstimate(e.jsonLength);
      Incidence(edges[..|edges| - 1], ids)
      + (if e.subject in ids then cost else 0) + (if e.object_ in ids then cost else 0)
  }

  /** Every node once and every edge from both its ends: no neighbourhood costs more. */
  function WorstCase(g: FactGraph): nat {
    CostOfNodes(g.nodes, set n | n in g.nodes :: n.id) + TwiceEdges(g.edges)
  }

  function TwiceEdges(edges: seq<FactEdge>): nat {
    if edges == [] then 0
    else TwiceEdges(edges[..|edges| - 1]) + 2 * TokenEstimate(edges[|edges| - 1].jsonLength)
  }

  lemma {:induction false} CostOfNodesGrows(nodes: seq<FactNode>, ids: set<Id>, n: FactNode)
    requires forall i, j :: 0 <= i < j < |nodes| ==> nodes[i].id != nodes[j].id
    requires n in nodes && n.id !in ids
    ensures CostOfNodes(nodes, ids + {n.id}) == CostOfNodes(nodes, ids) + TokenEstimate(n.jsonLength)
  {
    var rest := nodes[1..];
    if n in rest {
      CostOfNodesGrows(rest, ids, n);
      assert nodes[0].id != n.id;
    } else {
      CostOfNodesIgnores(rest, ids, n.id);
    }
  }

  lemma {:induction false} CostOfNodesIgnores(nodes: seq<FactNode>, ids: set<Id>, id: Id)
    requires forall n :: n in nodes ==> n.id != id
    ensures CostOfNodes(nodes, ids + {id}) == CostOfNodes(nodes, ids)
  {
    if nodes != [] {
      CostOfNodesIgnores(nodes[1..], ids, id);
    }
  }

  lemma {:induction false} CostOfNodesMonotone(nodes: seq<FactNode>, ids: set<Id>, more: set<Id>)
    requires ids <= more
    ensures CostOfNodes(nodes, ids) <= CostOfNodes(nodes, more)
  {
    if nodes != [] {
      CostOfNodesMonotone(nodes[1..], ids, more);
    }
  }

  lemma {:induction false} CostOfEdgesGrows(edges: seq<FactEdge>, ids: set<Id>, e: FactEdge)
    requires forall i, j :: 0 <= i < j < |edges| ==> edges[i].id != edges[j].id
    requires e in edges && e.id !in ids
    ensures CostOfEdges(edges, ids + {e.id}) == CostOfEdges(edges, ids) + TokenEstimate(e.jsonLength)
  {
    var rest := edges[1..];
    if e in rest {
      CostOfEdgesGrows(rest, ids, e);
      assert edges[0].id != e.id;
    } else {
      CostOfEdgesIgnores(rest, ids, e.id);
    }
  }

  lemma {:induction false} CostOfEdgesIgnores(edges: seq<FactEdge>, ids: set<Id>, id: Id)
    requires forall e :: e in edges ==> e.id != id
    ensures CostOfEdges(edges, ids + {id}) == CostOfEdges(edges, ids)
  {
    if edges != [] {
      CostOfEdgesIgnores(edges[1..], ids, id);
    }
  }

  lemma {:induction false} CostOfNothing(g: FactGraph)
    ensures CostOfNodes(g.nodes, {}) == 0 && CostOfEdges(g.edges, {}) == 0 && Incidence(g.edges, {}) == 0
    decreases |g.nodes| + |g.edges|
  {
    if g.nodes != [] {
      CostOfNothing(g.(nodes := g.nodes[1..]));
    }
    if g.edges != [] {
      CostOfNothing(g.(edges := g.edges[1..]));
      CostOfNothing(g.(edges := g.edges[..|g.edges| - 1]));
    }
  }

  lemma {:induction false} IncidenceAdds(edges: seq<FactEdge>, ids: set<Id>, x: Id)
    requires x !in ids
    ensures Incidence(edges, ids + {x}) == Incidence(edges, ids) + Incidence(edges, {x})
  {
    if edges != [] {
      IncidenceAdds(edges[..|edges| - 1], ids, x);
    }
  }

  lemma {:induction false} IncidenceMonotone(edges: seq<FactEdge>, ids: set<Id>, more: set<Id>)
    requires ids <= more
    ensures Incidence(edges, ids) <= Incidence(edges, more)
  {
    if edges != [] {
      IncidenceMonotone(edges[..|edges| - 1], ids, more);
    }
  }

  lemma {:induction false} IncidenceBounded(edges: seq<FactEdge>, ids: set<Id>)
    ensures Incidence(edges, ids) <= TwiceEdges(edges)
  {
    if edges != [] {
      IncidenceBounded(edges[..|edges| - 1], ids);
    }
  }

  /** The hops from `x` over `e`, one for each end of `e` that is `x`. */
  function EndsAt(e: FactEdge, x: Id): seq<Hop> {
    (if e.subject == x then [Hop(e, e.object_)] else []) + (if e.object_ == x then [Hop(e, e.subject)] else [])
  }

  /** The hops from `x` in the edges' order. */
  function HopsAt(edges: seq<FactEdge>, x: Id): seq<Hop> {
    if edges == [] then [] else HopsAt(edges[..|edges| - 1], x) + EndsAt(edges[|edges| - 1], x)
  }

  lemma {:induction false} CostOfConcat(hops: seq<Hop>, more: seq<Hop>)
    ensures CostOfHops(hops + more) == CostOfHops(hops) + CostOfHops(more)
    decreases |more|
  {
    if more == [] {
      assert hops + more == hops;
    } else {
      CostOfConcat(hops, more[..|more| - 1]);
      assert (hops + more)[..|hops + more| - 1] == hops + more[..|more| - 1];
    }
  }

  lemma EndsCost(e: FactEdge, x: Id)
    ensures CostOfHops(EndsAt(e, x)) == Incidence([e], {x})
  {
    var ends := EndsAt(e, x);
    if |ends| == 2 {
      assert ends[..1] == [ends[0]] && [ends[0]][..0] == [];
    } else if |ends| == 1 {
      assert ends[..0] == [];
    }
  }

  /** The hops from `x` lead over its edges to their other ends. */
  lemma {:induction false} HopsAreEnds(edges: seq<FactEdge>, x: Id, h: Hop)
    ensures h in HopsAt(edges, x) <==> h.edge in edges && Joins(h.edge, x, h.nodeId)
  {
    if edges != [] {
      var init, e := edges[..|edges| - 1], edges[|edges| - 1];
      assert edges == init + [e];
      HopsAreEnds(init, x, h);
    }
  }

  /** The hops from `x` cost what `x` adds to a neighbourhood. */
  lemma {:induction false} HopsCost(edges: seq<FactEdge>, x: Id)
    ensures CostOfHops(HopsAt(edges, x)) == Incidence(edges, {x})
  {
    if edges != [] {
      var init, e := edges[..|edges| - 1], edges[|edges| - 1];
      HopsCost(init, x);
      CostOfConcat(HopsAt(init, x), EndsAt(e, x));
      EndsCost(e, x);
      assert [e][..0] == [];
    }
  }

  /** The lists hold, for every node, the hops from it in the edges' order. */
  ghost predicate Indexes(adjacency: Adjacency, edges: seq<FactEdge>) {
    forall x :: HopsFrom(adjacency, x) == HopsAt(edges, x)
  }

  function WithHop(adjacency: Adjacency, x: Id, h: Hop): Adjacency {
    adjacency[x := HopsFrom(adjacency, x) + [h]]
  }

  function WithEdge(adjacency: Adjacency, e: FactEdge): Adjacency {
    WithHop(WithHop(adjacency, e.subject, Hop(e, e.object_)), e.object_, Hop(e, e.subject))
  }

  lemma HopsWithEdge(adjacency: Adjacency, e: FactEdge, x: Id)
    ensures HopsFrom(WithEdge(adjacency, e), x) == HopsFrom(adjacency, x) + EndsAt(e, x)
  {
  }

  lemma OneMoreEdge(adjacency: Adjacency, edges: seq<FactEdge>, e: FactEdge, more: seq<FactEdge>)
    requires Indexes(adjacency, edges) && more == edges + [e]
    ensures Indexes(WithEdge(adjacency, e), more)
  {
    assert more[..|more| - 1] == edges;
    forall x
      ensures HopsFrom(WithEdge(adjacency, e), x) == HopsAt(more, x)
    {
      HopsWithEdge(adjacency, e, x);
    }
  }

  method GraphIndexes(g: FactGraph) returns (byId: map<Id, FactNode>, adjacency: Adjacency)
    ensures byId == NodesById(g.nodes)
    ensures Indexes(adjacency, g.edges)
  {
    byId := NodesById(g.nodes);
    adjacency := map[];
    for i := 0 to |g.edges|
      invariant Indexes(adjacency, g.edges[..i])
    {
      var e := g.edges[i];
      OneMoreEdge(adjacency, g.edges[..i], e, g.edges[..i + 1]);
      adjacency := WithHop(adjacency, e.subject, Hop(e, e.object_));
      adjacency := WithHop(adjacency, e.object_, Hop(e, e.subject));
    }
    assert g.edges[..|g.edges|] == g.edges;
  }
}
