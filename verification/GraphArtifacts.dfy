/**
 The nodes and edges of a published graph artifact, and the undirected adjacency map that
 both the legacy projection and the impact assessment explore.
 */
module GraphArtifacts {
  import opened Graphs

  /** `explicitOwners` holds the non-blank owner fields of a record; `content` is its canonical form. */
  datatype GraphNode = GraphNode(id: Id, kind: string, explicitOwners: set<Id>, content: string)

  datatype GraphEdge = GraphEdge(source: Id, target: Id, kind: string, explicitOwners: set<Id>)

  const FEATURE := "FEATURE"

  function NodesById(nodes: seq<GraphNode>): (byId: map<Id, GraphNode>)
    ensures byId.Keys == set n | n in nodes :: n.id
    ensures forall id :: id in byId ==> byId[id].id == id && byId[id] in nodes
  {
    if nodes == [] then map[]
    else
      var last := nodes[|nodes| - 1];
      assert nodes == nodes[..|nodes| - 1] + [last];
      NodesById(nodes[..|nodes| - 1])[last.id := last]
  }

  /** Both directions of every edge whose two ends are among `ids`. */
  ghost function Links(edges: seq<GraphEdge>, ids: set<Id>): Relation {
    (set e | e in edges && e.source in ids && e.target in ids :: (e.source, e.target))
    + (set e | e in edges && e.source in ids && e.target in ids :: (e.target, e.source))
  }

  ghost predicate Represents(adjacency: map<Id, seq<Id>>, r: Relation) {
    forall x, y :: (x in adjacency && y in adjacency[x]) <==> (x, y) in r
  }

  function Neighbours(adjacency: map<Id, seq<Id>>, x: Id): seq<Id> {
    if x in adjacency then adjacency[x] else []
  }

  lemma OneMoreEdge(edges: seq<GraphEdge>, i: nat, ids: set<Id>)
    requires i < |edges|
    ensures var e := edges[i];
      Links(edges[..i + 1], ids) == Links(edges[..i], ids)
        + if e.source in ids && e.target in ids then {(e.source, e.target), (e.target, e.source)} else {}
  {
    assert edges[..i + 1] == edges[..i] + [edges[i]];
  }

  method AddEdge(adjacency: map<Id, seq<Id>>, ghost r: Relation, e: GraphEdge) returns (next: map<Id, seq<Id>>)
    requires Represents(adjacency, r)
    ensures Represents(next, r + {(e.source, e.target), (e.target, e.source)})
  {
    next := adjacency[e.source := Neighbours(adjacency, e.source) + [e.target]];
    next := next[e.target := Neighbours(next, e.target) + [e.source]];
  }

  method UndirectedAdjacency(edges: seq<GraphEdge>, ids: set<Id>) returns (adjacency: map<Id, seq<Id>>)
    ensures Represents(adjacency, Links(edges, ids))
  {
    adjacency := map[];
    for i := 0 to |edges|
      invariant Represents(adjacency, Links(edges[..i], ids))
    {
      OneMoreEdge(edges, i, ids);
      if edges[i].source in ids && edges[i].target in ids {
        adjacency := AddEdge(adjacency, Links(edges[..i], ids), edges[i]);
      }
    }
    assert edges[..|edges|] == edges;
  }
}
