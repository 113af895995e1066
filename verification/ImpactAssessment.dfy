/**
 Impact of an incremental publication: the nodes whose content changed between two graph
 artifacts, and everything connected to them in either graph.
 */
module ImpactAssessment {
  import opened Graphs
  import opened GraphArtifacts

  /** The content of a node, or none where the artifact does not hold it. */
  datatype Content = Absent | Present(content: string)

  /** The node is in one of the artifacts only, or has other content in the other one. */
  ghost predicate Differs(before: map<Id, GraphNode>, after: map<Id, GraphNode>, id: Id) {
    || (id in before && id !in after) || (id !in before && id in after)
    || (id in before && id in after && before[id].content != after[id].content)
  }

  function ContentOf(byId: map<Id, GraphNode>, id: Id): Content {
    if id in byId then Present(byId[id].content) else Absent
  }

  /**
   Depth-first closure of the changed nodes, `start` in some order: a closed set that holds them and lies inside any
   closed set `reach` that does.
   */
  method SpreadImpact(ghost r: Relation, adjacency: map<Id, seq<Id>>, changed: set<Id>, start: seq<Id>, ghost reach: set<Id>)
    returns (affected: set<Id>)
    requires Represents(adjacency, r) && changed == set x | x in start
    requires changed <= reach && Closed(r, reach)
    ensures changed <= affected <= reach && Closed(r, affected)
  {
    affected := changed;
    var pending := start;
    while |pending| > 0
      invariant changed <= affected <= reach
      invariant forall x :: x in pending ==> x in affected
      invariant forall e :: e in r && e.0 in affected ==> e.0 in pending || e.1 in affected
      decreases reach - affected, |pending|
    {
      var last := |pending| - 1;
      var current := pending[last];
      ghost var before, known := pending, affected;
      pending := pending[..last];
      assert forall x :: x in before <==> x == current || x in pending;
      var related := Neighbours(adjacency, current);
      for i := 0 to |related|
        invariant known <= affected <= reach
        invariant affected == known ==> |pending| < |before|
        invariant forall x :: x in pending ==> x in affected
        invariant forall e :: e in r && e.0 in affected && e.0 != current ==> e.0 in pending || e.1 in affected
        invariant forall k :: 0 <= k < i ==> related[k] in affected
      {
        var y := related[i];
        if y in affected {
          continue;
        }
        assert (current, y) in r;
        affected := affected + {y};
        pending := pending + [y];
      }
    }
  }

  /** Unaffected nodes keep their content, and so does everything connected to them in either graph. */
  lemma UnaffectedRegionIsUnchanged(r: Relation, before: map<Id, GraphNode>, after: map<Id, GraphNode>, changed: set<Id>,
                                    x: Id, y: Id)
    requires Symmetric(r)
    requires forall id :: id in before || id in after ==> (id in changed <==> Differs(before, after, id))
    requires !ReachedFrom(r, changed, x) && Reaches(r, x, y)
    ensures !ReachedFrom(r, changed, y) && !Differs(before, after, y)
  {
    ReachesSymmetric(r, x, y);
    if ReachedFrom(r, changed, y) {
      var c :| c in changed && Reaches(r, c, y);
      ReachesTransitive(r, c, y, x);
    }
    if y in changed {
      ReachesReflexive(r, y);
    }
  }

  function ChangedIds(before: map<Id, GraphNode>, after: map<Id, GraphNode>, nodes: seq<GraphNode>): (ids: seq<Id>)
    ensures forall id :: id in ids <==> (exists n :: n in nodes && n.id == id) && Differs(before, after, id)
  {
    if nodes == [] then []
    else
      var ids := ChangedIds(before, after, nodes[1..]);
      var id := nodes[0].id;
      assert nodes == [nodes[0]] + nodes[1..];
      if ContentOf(before, id) != ContentOf(after, id) && id !in ids then [id] + ids else ids
  }

  method AssessImpact(beforeNodes: seq<GraphNode>, beforeEdges: seq<GraphEdge>,
                      afterNodes: seq<GraphNode>, afterEdges: seq<GraphEdge>)
    returns (changed: set<Id>, affected: set<Id>, ghost r: Relation)
    ensures forall x, y :: (x, y) in r <==>
              exists e :: e in beforeEdges + afterEdges && ((e.source == x && e.target == y) || (e.source == y && e.target == x))
    ensures forall id :: id in changed <==> Differs(NodesById(beforeNodes), NodesById(afterNodes), id)
    ensures forall x :: x in affected <==> ReachedFrom(r, changed, x)
  {
    var before, after := NodesById(beforeNodes), NodesById(afterNodes);
    var start := ChangedIds(before, after, beforeNodes + afterNodes);
    changed := set id | id in start;
    var edges := beforeEdges + afterEdges;
    var ends := (set e | e in edges :: e.source) + set e | e in edges :: e.target;
    var adjacency := UndirectedAdjacency(edges, ends);
    r := Links(edges, ends);
    ghost var reach := ReachableSet(r, changed);
    affected := SpreadImpact(r, adjacency, changed, start, reach);
    ClosedHoldsReached(r, affected, changed);
  }
}
