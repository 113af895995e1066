/**
 Projection of a legacy graph artifact around one object of one Feature: who owns a node,
 which nodes lie within a depth, which of them fit a limit, and what was cut off.
 */
module LegacyProjection {
  import opened Distances
  import opened Graphs
  import opened GraphArtifacts
  import opened Sorting
  import opened Wrappers

  // ---------------------------------------------------------------- ownership

  /** Links along which the ownership of `feature` spreads: never into another Feature. */
  ghost function OwnershipLinks(byId: map<Id, GraphNode>, edges: seq<GraphEdge>, feature: Id): Relation {
    set e | e in Links(edges, byId.Keys) && !(e.1 in byId && byId[e.1].kind == FEATURE && e.1 != feature)
  }

  ghost predicate IsFeature(byId: map<Id, GraphNode>, id: Id) {
    id in byId && byId[id].kind == FEATURE
  }

  /** Explicit owners win; otherwise every Feature whose ownership spreads to the node. */
  ghost predicate OwnsNode(byId: map<Id, GraphNode>, edges: seq<GraphEdge>, feature: Id, id: Id)
    requires id in byId
  {
    if byId[id].explicitOwners != {} then feature in byId[id].explicitOwners
    else IsFeature(byId, feature) && Reaches(OwnershipLinks(byId, edges, feature), feature, id)
  }

  /**
   Breadth-first over `links`, entering only the nodes that `r` allows: a closed set that holds the Feature and lies
   inside any closed set `reach` that does.
   */
  method SpreadOwnership(byId: map<Id, GraphNode>, ghost links: Relation, ghost r: Relation,
                         adjacency: map<Id, seq<Id>>, feature: Id, ghost reach: set<Id>) returns (visited: set<Id>)
    requires Represents(adjacency, links)
    requires forall e :: e in r <==> e in links && !(IsFeature(byId, e.1) && e.1 != feature)
    requires feature in reach && Closed(r, reach)
    ensures feature in visited && visited <= reach && Closed(r, visited)
  {
    visited := {feature};
    var pending := [feature];
    while |pending| > 0
      invariant feature in visited && visited <= reach
      invariant forall x :: x in pending ==> x in visited
      invariant forall e :: e in r && e.0 in visited ==> e.1 in visited || e.0 in pending
      decreases reach - visited, |pending|
    {
      var current := pending[0];
      ghost var before, known := pending, visited;
      pending := pending[1..];
      assert forall x :: x in before <==> x == current || x in pending;
      var related := Neighbours(adjacency, current);
      for i := 0 to |related|
        invariant known <= visited <= reach
        invariant visited == known ==> |pending| < |before|
        invariant forall x :: x in pending ==> x in visited
        invariant forall e :: e in r && e.0 in visited && e.0 != current ==> e.1 in visited || e.0 in pending
        invariant forall k :: 0 <= k < i && (current, related[k]) in r ==> related[k] in visited
      {
        var y := related[i];
        if y in visited {
          continue;
        }
        if y in byId && byId[y].kind == FEATURE && y != feature {
          continue;
        }
        assert (current, y) in r;
        visited := visited + {y};
        pending := pending + [y];
      }
    }
  }

  lemma SpreadIsReachable(r: Relation, feature: Id, reach: set<Id>, visited: set<Id>)
    requires forall x :: x in reach <==> ReachedFrom(r, {feature}, x)
    requires feature in visited && visited <= reach && Closed(r, visited)
    ensures forall x :: x in visited <==> Reaches(r, feature, x)
  {
    ClosedHoldsReached(r, visited, {feature});
    forall x
      ensures x in visited <==> Reaches(r, feature, x)
    {
      assert ReachedFrom(r, {feature}, x) <==> Reaches(r, feature, x);
    }
  }

  method StructurallyOwned(byId: map<Id, GraphNode>, ghost links: Relation, ghost r: Relation,
                           adjacency: map<Id, seq<Id>>, feature: Id) returns (visited: set<Id>)
    requires Represents(adjacency, links)
    requires forall e :: e in r <==> e in links && !(IsFeature(byId, e.1) && e.1 != feature)
    ensures forall x :: x in visited <==> Reaches(r, feature, x)
  {
    ghost var reach := ReachableSet(r, {feature});
    visited := SpreadOwnership(byId, links, r, adjacency, feature, reach);
    SpreadIsReachable(r, feature, reach, visited);
  }

  /** Adds the Feature `feature` to every node its ownership spreads to. */
  function WithOwner(owners: map<Id, set<Id>>, visited: set<Id>, feature: Id): map<Id, set<Id>> {
    map id | id in owners :: if id in visited then owners[id] + {feature} else owners[id]
  }

  /** Visits every Feature in turn; `spread` names the links its ownership follows. */
  method StructuralOwners(byId: map<Id, GraphNode>, adjacency: map<Id, seq<Id>>,
                          ghost links: Relation, ghost spread: map<Id, Relation>) returns (owners: map<Id, set<Id>>)
    requires Represents(adjacency, links) && spread.Keys == byId.Keys
    requires forall f, e :: f in spread ==> (e in spread[f] <==> e in links && !(IsFeature(byId, e.1) && e.1 != f))
    ensures owners.Keys == byId.Keys
    ensures forall id, f :: id in owners ==> (f in owners[id] <==> IsFeature(byId, f) && Reaches(spread[f], f, id))
  {
    owners := map id | id in byId :: {};
    var left := set id | id in byId && byId[id].kind == FEATURE;
    while left != {}
      invariant owners.Keys == byId.Keys && forall f :: f in left ==> IsFeature(byId, f)
      invariant forall id, f :: id in owners ==>
        (f in owners[id] <==> IsFeature(byId, f) && f !in left && Reaches(spread[f], f, id))
      decreases left
    {
      var feature :| feature in left;
      var visited := StructurallyOwned(byId, links, spread[feature], adjacency, feature);
      owners := WithOwner(owners, visited, feature);
      left := left - {feature};
    }
  }

  method FeatureOwnership(nodes: seq<GraphNode>, edges: seq<GraphEdge>) returns (owners: map<Id, set<Id>>)
    ensures owners.Keys == NodesById(nodes).Keys
    ensures forall id, f :: id in owners ==> (f in owners[id] <==> OwnsNode(NodesById(nodes), edges, f, id))
  {
    var byId := NodesById(nodes);
    var adjacency := UndirectedAdjacency(edges, byId.Keys);
    ghost var spread := map f | f in byId :: OwnershipLinks(byId, edges, f);
    owners := StructuralOwners(byId, adjacency, Links(edges, byId.Keys), spread);
    ghost var structural := owners;
    owners := map id | id in owners ::
      if byId[id].explicitOwners != {} then byId[id].explicitOwners else owners[id];
    forall id, f | id in owners
      ensures f in owners[id] <==> OwnsNode(byId, edges, f, id)
    {
      assert IsFeature(byId, f) ==> spread[f] == OwnershipLinks(byId, edges, f);
      assert f in structural[id] <==> IsFeature(byId, f) && Reaches(OwnershipLinks(byId, edges, f), f, id);
    }
  }

  // ---------------------------------------------------------------- distances

  /** The inner loop of the search: every neighbour without a distance gets `d` and joins the queue. */
  method DiscoverRelated(related: seq<Id>, d: nat, distances0: map<Id, nat>, order0: seq<Id>, pending0: seq<Id>)
    returns (distances: map<Id, nat>, order: seq<Id>, pending: seq<Id>, ghost found: seq<Id>)
    ensures order == order0 + found && pending == pending0 + found && NoDuplicates(found)
    ensures forall y :: y in found <==> y in related && y !in distances0
    ensures Extends(distances0, found, d, distances)
  {
    distances, order, pending, found := distances0, order0, pending0, [];
    for i := 0 to |related|
      invariant order == order0 + found && pending == pending0 + found && NoDuplicates(found)
      invariant forall y :: y in found <==> y in related[..i] && y !in distances0
      invariant forall x :: x in distances <==> x in distances0 || x in found
      invariant forall x :: x in distances ==> distances[x] == if x in distances0 then distances0[x] else d
    {
      var y := related[i];
      assert related[..i + 1] == related[..i] + [y];
      if y in distances {
        continue;
      }
      distances := distances[y := d];
      order := order + [y];
      pending := pending + [y];
      found := found + [y];
    }
    assert related[..|related|] == related;
  }

  /** The queue is ordered by distance and spans at most two consecutive distances. */
  ghost predicate OrderedQueue(distances: map<Id, nat>, pending: seq<Id>) {
    (forall x :: x in pending ==> x in distances)
    && (forall i, j :: 0 <= i < j < |pending| ==> distances[pending[i]] <= distances[pending[j]])
    && forall x :: |pending| > 0 && x in distances ==> distances[x] <= distances[pending[0]] + 1
  }

  ghost predicate SettledBut(r: Relation, distances: map<Id, nat>, pending: seq<Id>, depth: nat) {
    forall e :: e in r && e.0 in distances && distances[e.0] < depth ==>
      e.0 in pending || (e.1 in distances && distances[e.1] <= distances[e.0] + 1)
  }

  /** `after` gives every node of `found`, and no other new one, the distance `d`. */
  ghost predicate Extends(distances: map<Id, nat>, found: seq<Id>, d: nat, after: map<Id, nat>) {
    (forall x :: x in after <==> x in distances || x in found)
    && forall x :: x in after ==> after[x] == if x in distances then distances[x] else d
  }

  lemma QueueStep(distances: map<Id, nat>, pending: seq<Id>, found: seq<Id>, after: map<Id, nat>)
    requires |pending| > 0 && OrderedQueue(distances, pending)
    requires Extends(distances, found, distances[pending[0]] + 1, after)
    requires forall x :: x in found ==> x !in distances
    ensures OrderedQueue(after, pending[1..] + found)
  {
    var next := pending[1..] + found;
    var d := distances[pending[0]];
    forall k | 0 <= k < |next|
      ensures next[k] in after && d <= after[next[k]] <= d + 1
      ensures after[next[k]] == if k < |pending| - 1 then distances[pending[k + 1]] else d + 1
    {
      if k < |pending| - 1 {
        assert next[k] == pending[k + 1];
        assert pending[k + 1] in pending;
      } else {
        assert next[k] == found[k - (|pending| - 1)];
        assert next[k] in found;
      }
    }
  }

  lemma SettledStep(r: Relation, distances: map<Id, nat>, pending: seq<Id>, depth: nat, related: seq<Id>,
                    found: seq<Id>, after: map<Id, nat>)
    requires |pending| > 0 && OrderedQueue(distances, pending) && SettledBut(r, distances, pending, depth)
    requires forall y :: (pending[0], y) in r ==> y in related
    requires Extends(distances, found, distances[pending[0]] + 1, after)
    requires forall y :: y in found <==> y in related && y !in distances
    ensures SettledBut(r, after, pending[1..] + found, depth)
  {
    var current := pending[0];
    forall e | e in r && e.0 in after && after[e.0] < depth && e.0 !in pending[1..] + found
      ensures e.1 in after && after[e.1] <= after[e.0] + 1
    {
      assert e.0 !in found && e.0 in distances;
      if e.0 == current {
        assert (current, e.1) in r;
      } else {
        assert pending == [current] + pending[1..];
        assert e.0 !in pending;
      }
    }
  }

  lemma DiscoveredStep(r: Relation, distances: map<Id, nat>, root: Id, parent: map<Id, Id>, current: Id,
                       found: seq<Id>, after: map<Id, nat>, parent': map<Id, Id>)
    requires DiscoveredFrom(r, distances, root, parent) && current in distances
    requires Extends(distances, found, distances[current] + 1, after)
    requires forall y :: y in found ==> y !in distances && (current, y) in r
    requires parent' == parent + map y | y in found :: current
    ensures DiscoveredFrom(r, after, root, parent')
  {
    forall x | x in after && x != root
      ensures x in parent' && (parent'[x], x) in r && parent'[x] in after && after[x] == after[parent'[x]] + 1
    {
      if x in found {
        assert parent'[x] == current;
      } else {
        assert parent'[x] == parent[x];
      }
    }
  }

  ghost predicate Searching(r: Relation, root: Id, depth: nat, distances: map<Id, nat>, order: seq<Id>,
                            pending: seq<Id>, parent: map<Id, Id>) {
    && DiscoveredFrom(r, distances, root, parent)
    && OrderedQueue(distances, pending)
    && SettledBut(r, distances, pending, depth)
    && (forall x :: x in distances ==> distances[x] <= depth)
    && NoDuplicates(order)
    && (forall x :: x in order <==> x in distances)
  }

  lemma AtTheDepthNothingIsDiscovered(r: Relation, root: Id, depth: nat, distances: map<Id, nat>, order: seq<Id>,
                                      pending: seq<Id>, parent: map<Id, Id>)
    requires |pending| > 0 && Searching(r, root, depth, distances, order, pending, parent)
    requires distances[pending[0]] >= depth
    ensures Searching(r, root, depth, distances, order, pending[1..], parent)
  {
    QueueStep(distances, pending, [], distances);
    assert pending[1..] + [] == pending[1..];
    assert pending == [pending[0]] + pending[1..];
  }

  lemma DiscoveryKeepsSearching(r: Relation, root: Id, depth: nat, distances: map<Id, nat>, order: seq<Id>,
                                pending: seq<Id>, parent: map<Id, Id>, related: seq<Id>, found: seq<Id>, after: map<Id, nat>)
    requires |pending| > 0 && Searching(r, root, depth, distances, order, pending, parent)
    requires distances[pending[0]] < depth
    requires forall y :: y in related <==> (pending[0], y) in r
    requires Extends(distances, found, distances[pending[0]] + 1, after)
    requires NoDuplicates(found) && forall y :: y in found <==> y in related && y !in distances
    ensures Searching(r, root, depth, after, order + found, pending[1..] + found,
                      parent + map y | y in found :: pending[0])
  {
    QueueStep(distances, pending, found, after);
    SettledStep(r, distances, pending, depth, related, found, after);
    DiscoveredStep(r, distances, root, parent, pending[0], found, after, parent + map y | y in found :: pending[0]);
    DistinctConcat(order, found);
  }

  lemma RelatedIsKnown(r: Relation, all: set<Id>, distances: map<Id, nat>, current: Id, related: seq<Id>, found: seq<Id>,
                       after: map<Id, nat>, d: nat)
    requires distances.Keys <= all && (forall e :: e in r ==> e.1 in all) && Extends(distances, found, d, after)
    requires forall y :: y in related <==> (current, y) in r
    requires forall y :: y in found <==> y in related && y !in distances
    ensures after.Keys <= all && (found != [] ==> all - after.Keys < all - distances.Keys)
  {
    forall y | y in found
      ensures y in all - distances.Keys && y !in all - after.Keys
    {
      assert (current, y) in r;
    }
    if found != [] {
      assert found[0] in found;
    }
  }

  /** Takes the first of `pending` and discovers its neighbours. */
  method DiscoverFrom(ghost r: Relation, adjacency: map<Id, seq<Id>>, ghost root: Id, ghost depth: nat, ghost all: set<Id>,
                      distances0: map<Id, nat>, order0: seq<Id>, pending0: seq<Id>, ghost parent0: map<Id, Id>)
    returns (distances: map<Id, nat>, order: seq<Id>, pending: seq<Id>, ghost parent: map<Id, Id>)
    requires Represents(adjacency, r) && forall e :: e in r ==> e.1 in all
    requires |pending0| > 0 && Searching(r, root, depth, distances0, order0, pending0, parent0)
    requires pending0[0] in distances0 && distances0[pending0[0]] < depth && distances0.Keys <= all
    ensures Searching(r, root, depth, distances, order, pending, parent) && distances.Keys <= all
    ensures all - distances.Keys < all - distances0.Keys || (distances == distances0 && |pending| < |pending0|)
  {
    var current := pending0[0];
    var related := Neighbours(adjacency, current);
    assert forall y :: y in related <==> (current, y) in r;
    ghost var found: seq<Id>;
    distances, order, pending, found := DiscoverRelated(related, distances0[current] + 1, distances0, order0, pending0[1..]);
    DiscoveryKeepsSearching(r, root, depth, distances0, order0, pending0, parent0, related, found, distances);
    RelatedIsKnown(r, all, distances0, current, related, found, distances, distances0[current] + 1);
    parent := parent0 + map y | y in found :: current;
  }

  /** Breadth-first search: exactly the nodes within `depth`, each with its shortest distance, in discovery order. */
  method ShortestDistances(ghost r: Relation, adjacency: map<Id, seq<Id>>, root: Id, depth: nat)
    returns (distances: map<Id, nat>, order: seq<Id>)
    requires Represents(adjacency, r)
    ensures distances.Keys == Ball(r, root, depth)
    ensures forall x :: x in distances ==> distances[x] <= depth && IsDistance(r, root, x, distances[x])
    ensures NoDuplicates(order) && forall x :: x in order <==> x in distances
  {
    ghost var all := SearchSpace(r, root);
    ghost var parent: map<Id, Id> := map[];
    distances, order := map[root := 0], [root];
    var pending := [root];
    while |pending| > 0
      invariant distances.Keys <= all && Searching(r, root, depth, distances, order, pending, parent)
      decreases all - distances.Keys, |pending|
    {
      assert pending[0] in pending;
      if distances[pending[0]] >= depth {
        AtTheDepthNothingIsDiscovered(r, root, depth, distances, order, pending, parent);
        pending := pending[1..];
        continue;
      }
      distances, order, pending, parent :=
        DiscoverFrom(r, adjacency, root, depth, all, distances, order, pending, parent);
    }
    SearchIsExact(r, distances, root, parent, depth);
  }

  // ---------------------------------------------------------------- truncation

  ghost function Within(r: Relation, ids: set<Id>): Relation {
    set e | e in r && e.0 in ids && e.1 in ids
  }

  /** `selected` is a set of nearest nodes: with a node it holds every strictly nearer one. */
  ghost predicate NearestFirst(distances: map<Id, nat>, selected: set<Id>) {
    selected <= distances.Keys
    && forall x, y :: x in selected && y in distances && distances[y] < distances[x] ==> y in selected
  }

  lemma {:induction false} NearestFirstReaches(r: Relation, inner: Relation, distances: map<Id, nat>, root: Id, depth: nat,
                                               selected: set<Id>, x: Id)
    requires forall e :: e in inner <==> e in r && e.0 in selected && e.1 in selected
    requires distances.Keys == Ball(r, root, depth)
    requires forall z :: z in distances ==> distances[z] <= depth && IsDistance(r, root, z, distances[z])
    requires NearestFirst(distances, selected) && x in selected
    ensures x in Ball(inner, root, distances[x])
    decreases distances[x]
  {
    var d := distances[x];
    if d > 0 {
      var y := NearerNeighbour(r, root, x, d);
      DistanceWithin(r, root, y, d - 1, depth);
      DistanceIsUnique(r, root, y, d - 1, distances[y]);
      NearestFirstReaches(r, inner, distances, root, depth, selected, y);
      BallStep(inner, root, d - 1, y, x);
    }
  }

  lemma FewerLinksNoShortcut(r: Relation, inner: Relation, root: Id, x: Id, d: nat)
    requires inner <= r && IsDistance(r, root, x, d) && x in Ball(inner, root, d)
    ensures IsDistance(inner, root, x, d)
  {
    if d > 0 {
      BallGrowsWithEdges(inner, r, root, d - 1);
    }
  }

  /** Truncation keeps a shortest walk from the root to every node it keeps. */
  lemma TruncationKeepsShortestWalks(r: Relation, distances: map<Id, nat>, root: Id, depth: nat, selected: set<Id>, x: Id)
    requires distances.Keys == Ball(r, root, depth)
    requires forall z :: z in distances ==> distances[z] <= depth && IsDistance(r, root, z, distances[z])
    requires NearestFirst(distances, selected) && x in selected
    ensures IsDistance(Within(r, selected), root, x, distances[x])
  {
    var inner := Within(r, selected);
    NearestFirstReaches(r, inner, distances, root, depth, selected, x);
    FewerLinksNoShortcut(r, inner, root, x, distances[x]);
  }

  // ---------------------------------------------------------------- expansions

  type ExpansionKey = (string, string)

  datatype Expansion = Expansion(relation: string, nodeKind: string, count: nat)

  predicate IsCut(e: GraphEdge, selected: set<Id>) {
    (e.source in selected) != (e.target in selected)
  }

  function KindOf(byId: map<Id, GraphNode>, id: Id): string {
    if id in byId then byId[id].kind else "UNKNOWN"
  }

  /** The relation of a cut edge and the kind of its hidden end. */
  function CutKey(byId: map<Id, GraphNode>, e: GraphEdge, selected: set<Id>): ExpansionKey {
    (e.kind, KindOf(byId, if e.source in selected then e.target else e.source))
  }

  function CutEdges(edges: seq<GraphEdge>, selected: set<Id>): nat {
    if edges == [] then 0
    else CutEdges(edges[..|edges| - 1], selected) + if IsCut(edges[|edges| - 1], selected) then 1 else 0
  }

  function CutEdgesWithKey(byId: map<Id, GraphNode>, edges: seq<GraphEdge>, selected: set<Id>, key: ExpansionKey): nat {
    if edges == [] then 0
    else
      var e := edges[|edges| - 1];
      CutEdgesWithKey(byId, edges[..|edges| - 1], selected, key)
      + if IsCut(e, selected) && CutKey(byId, e, selected) == key then 1 else 0
  }

  function TotalCount(expansions: seq<Expansion>): nat {
    if expansions == [] then 0 else expansions[0].count + TotalCount(expansions[1..])
  }

  predicate HasKey(x: Expansion, key: ExpansionKey) {
    (x.relation, x.nodeKind) == key
  }

  /** One more cut edge under `key`: its entry counts one more, a new entry goes last. */
  function CountOneMore(expansions: seq<Expansion>, key: ExpansionKey): seq<Expansion> {
    if expansions == [] then [Expansion(key.0, key.1, 1)]
    else
      var first := expansions[0];
      if HasKey(first, key) then [first.(count := first.count + 1)] + expansions[1..]
      else [first] + CountOneMore(expansions[1..], key)
  }

  function CountUnder(expansions: seq<Expansion>, key: ExpansionKey): nat {
    if expansions == [] then 0
    else (if HasKey(expansions[0], key) then expansions[0].count else 0) + CountUnder(expansions[1..], key)
  }

  ghost predicate OneEntryPerKey(expansions: seq<Expansion>) {
    (forall i :: 0 <= i < |expansions| ==> expansions[i].count > 0)
    && forall i, j :: 0 <= i < j < |expansions| ==>
         !HasKey(expansions[j], (expansions[i].relation, expansions[i].nodeKind))
  }

  lemma {:induction false} CountOneMoreAdds(expansions: seq<Expansion>, key: ExpansionKey)
    ensures TotalCount(CountOneMore(expansions, key)) == TotalCount(expansions) + 1
    ensures forall k :: CountUnder(CountOneMore(expansions, key), k)
                     == CountUnder(expansions, k) + if k == key then 1 else 0
  {
    if expansions != [] && !HasKey(expansions[0], key) {
      CountOneMoreAdds(expansions[1..], key);
    }
  }

  lemma {:induction false} CountOneMoreKeepsEntries(expansions: seq<Expansion>, key: ExpansionKey)
    requires OneEntryPerKey(expansions)
    ensures OneEntryPerKey(CountOneMore(expansions, key))
    ensures forall x :: x in CountOneMore(expansions, key) ==>
              HasKey(x, key) || exists y :: y in expansions && HasKey(x, (y.relation, y.nodeKind))
  {
    if expansions != [] {
      var first, rest := expansions[0], expansions[1..];
      assert OneEntryPerKey(rest);
      forall x | x in rest
        ensures !HasKey(x, (first.relation, first.nodeKind))
      {
      }
      if !HasKey(first, key) {
        CountOneMoreKeepsEntries(rest, key);
        var after := CountOneMore(expansions, key);
        forall i, j | 0 <= i < j < |after|
          ensures !HasKey(after[j], (after[i].relation, after[i].nodeKind))
        {
          assert after[j] in CountOneMore(rest, key);
        }
      }
    }
  }

  /** Exactly one end of the edge is shown; the edge has the relation, and its other end the kind, if it is known. */
  ghost predicate LeadsOut(byId: map<Id, GraphNode>, e: GraphEdge, selected: set<Id>, relation: string, kind: string) {
    && e.kind == relation
    && ((e.source in selected && e.target !in selected && IsOfKind(byId, e.target, kind))
        || (e.source !in selected && e.target in selected && IsOfKind(byId, e.source, kind)))
  }

  ghost predicate IsOfKind(byId: map<Id, GraphNode>, id: Id, kind: string) {
    (id in byId && byId[id].kind == kind) || (id !in byId && kind == "UNKNOWN")
  }

  /** The positions of the edges that lead out under a relation and a kind. */
  ghost function LeadingOut(byId: map<Id, GraphNode>, edges: seq<GraphEdge>, selected: set<Id>, relation: string, kind: string)
    : set<nat>
  {
    set i: nat | i < |edges| && LeadsOut(byId, edges[i], selected, relation, kind)
  }

  lemma CutLeadsOut(byId: map<Id, GraphNode>, e: GraphEdge, selected: set<Id>, relation: string, kind: string)
    ensures LeadsOut(byId, e, selected, relation, kind) <==> IsCut(e, selected) && CutKey(byId, e, selected) == (relation, kind)
  {
  }

  lemma {:induction false} CutsAreCounted(
      byId: map<Id, GraphNode>, edges: seq<GraphEdge>, selected: set<Id>, relation: string, kind: string)
    ensures CutEdgesWithKey(byId, edges, selected, (relation, kind)) == |LeadingOut(byId, edges, selected, relation, kind)|
  {
    if edges != [] {
      var init, last := edges[..|edges| - 1], edges[|edges| - 1];
      CutsAreCounted(byId, init, selected, relation, kind);
      CutLeadsOut(byId, last, selected, relation, kind);
      var earlier := LeadingOut(byId, init, selected, relation, kind);
      assert LeadingOut(byId, edges, selected, relation, kind)
          == earlier + if LeadsOut(byId, last, selected, relation, kind) then {|init|} else {};
    }
  }

  lemma {:induction false} EntryCounts(expansions: seq<Expansion>, x: Expansion)
    requires OneEntryPerKey(expansions)
    ensures x in expansions ==> CountUnder(expansions, (x.relation, x.nodeKind)) == x.count
    ensures (forall y :: y in expansions ==> !HasKey(y, (x.relation, x.nodeKind))) ==>
              CountUnder(expansions, (x.relation, x.nodeKind)) == 0
  {
    if expansions != [] {
      var first, rest := expansions[0], expansions[1..];
      assert expansions == [first] + rest;
      EntryCounts(rest, x);
      if x == first {
        forall y | y in rest
          ensures !HasKey(y, (x.relation, x.nodeKind))
        {
          var j :| 0 <= j < |rest| && rest[j] == y;
          assert expansions[j + 1] == y;
        }
      } else if x in rest {
        var j :| 0 <= j < |rest| && rest[j] == x;
        assert expansions[j + 1] == x;
      }
    }
  }

  /** An entry stands for the edges that lead out under its relation and kind: it counts them, and only where there are some. */
  ghost predicate AreExpansions(byId: map<Id, GraphNode>, edges: seq<GraphEdge>, selected: set<Id>, expansions: seq<Expansion>) {
    && OneEntryPerKey(expansions)
    && forall x: Expansion :: x in expansions <==>
         x.count == |LeadingOut(byId, edges, selected, x.relation, x.nodeKind)| && x.count > 0
  }

  lemma ExpansionsAreThose(byId: map<Id, GraphNode>, edges: seq<GraphEdge>, selected: set<Id>, expansions: seq<Expansion>)
    requires OneEntryPerKey(expansions)
    requires forall key :: CountUnder(expansions, key) == CutEdgesWithKey(byId, edges, selected, key)
    ensures AreExpansions(byId, edges, selected, expansions)
  {
    forall x: Expansion
      ensures x in expansions <==> x.count == |LeadingOut(byId, edges, selected, x.relation, x.nodeKind)| && x.count > 0
    {
      CutsAreCounted(byId, edges, selected, x.relation, x.nodeKind);
      EntryCounts(expansions, x);
      if x.count > 0 && x.count == CountUnder(expansions, (x.relation, x.nodeKind)) {
        var y :| y in expansions && HasKey(y, (x.relation, x.nodeKind));
        EntryCounts(expansions, y);
      }
    }
  }

  /** One entry per cut relation and hidden kind, with its exact count; together they count every cut edge once. */
  method AvailableExpansions(byId: map<Id, GraphNode>, edges: seq<GraphEdge>, selected: set<Id>)
    returns (expansions: seq<Expansion>)
    ensures AreExpansions(byId, edges, selected, expansions)
    ensures TotalCount(expansions) == CutEdges(edges, selected)
  {
    expansions := [];
    for i := 0 to |edges|
      invariant OneEntryPerKey(expansions)
      invariant forall key :: CountUnder(expansions, key) == CutEdgesWithKey(byId, edges[..i], selected, key)
      invariant TotalCount(expansions) == CutEdges(edges[..i], selected)
    {
      var e := edges[i];
      assert edges[..i + 1][..i] == edges[..i];
      if (e.source in selected) == (e.target in selected) {
        continue;
      }
      var key := CutKey(byId, e, selected);
      CountOneMoreAdds(expansions, key);
      CountOneMoreKeepsEntries(expansions, key);
      expansions := CountOneMore(expansions, key);
    }
    assert edges[..|edges|] == edges;
    ExpansionsAreThose(byId, edges, selected, expansions);
  }

  // ---------------------------------------------------------------- the projection

  datatype Request = Request(feature: Id, root: Id, depth: int, limit: int, view: string, nodeKinds: set<string>, relations: set<string>)

  datatype Kinds = EveryKind | Only(kinds: set<string>)

  /** The kinds of nodes that a view shows; there are no other views. */
  function ViewKinds(view: string): Option<Kinds> {
    if view == "traceability" then Some(EveryKind)
    else if view == "business" then
      Some(Only({"FEATURE", "CLAIM", "CLAIM_SCOPE", "DECISION", "ACTOR_ROLE", "BUSINESS_STATE", "STATE_TRANSITION",
                 "DESIGN_ELEMENT", "CONFLICT", "TRACE_GAP"}))
    else if view == "implementation" then
      Some(Only({"FEATURE", "CLAIM", "IMPLEMENTATION_CONFORMANCE", "ENDPOINT", "CODE_SYMBOL", "DATA_OBJECT",
                 "CONFIGURATION", "EXTERNAL_DEPENDENCY", "CONFLICT", "TRACE_GAP"}))
    else if view == "coverage" then
      Some(Only({"FEATURE", "CLAIM", "TEST_SPEC", "TEST_ASSERTION", "TEST_EXECUTION", "EVIDENCE", "CONFLICT", "TRACE_GAP"}))
    else None
  }

  predicate Admits(kinds: Kinds, kind: string) {
    kinds.EveryKind? || kind in kinds.kinds
  }

  /** The kinds of nodes of each view. */
  ghost predicate IsShownIn(view: string, kind: string) {
    || view == "traceability"
    || (view in {"business", "implementation", "coverage"} && kind in {"FEATURE", "CLAIM", "CONFLICT", "TRACE_GAP"})
    || (view == "business"
        && kind in {"CLAIM_SCOPE", "DECISION", "ACTOR_ROLE", "BUSINESS_STATE", "STATE_TRANSITION", "DESIGN_ELEMENT"})
    || (view == "implementation"
        && kind in {"IMPLEMENTATION_CONFORMANCE", "ENDPOINT", "CODE_SYMBOL", "DATA_OBJECT", "CONFIGURATION", "EXTERNAL_DEPENDENCY"})
    || (view == "coverage" && kind in {"TEST_SPEC", "TEST_ASSERTION", "TEST_EXECUTION", "EVIDENCE"})
  }

  lemma ViewAdmits(view: string, kind: string)
    ensures ViewKinds(view) == None <==> view !in {"traceability", "business", "implementation", "coverage"}
    ensures ViewKinds(view).Some? ==> (Admits(ViewKinds(view).value, kind) <==> IsShownIn(view, kind))
  {
  }

  datatype Projection =
    | Projected(nodes: seq<Id>, edges: seq<GraphEdge>, truncated: bool, expansions: seq<Expansion>)
    | NotOwned
    | OutOfRange
    | UnknownView

  ghost predicate OwnedOnlyBy(owners: map<Id, set<Id>>, id: Id, feature: Id) {
    id in owners && owners[id] == {feature}
  }

  /** A node of the Feature alone: the root, or of a kind that the view shows and the request does not exclude. */
  ghost predicate IsSourceNode(q: Request, owners: map<Id, set<Id>>, n: GraphNode) {
    OwnedOnlyBy(owners, n.id, q.feature)
    && (n.id == q.root || (IsShownIn(q.view, n.kind) && (q.nodeKinds == {} || n.kind in q.nodeKinds)))
  }

  /** Explicit owners of an edge win; otherwise both its ends must belong to the Feature alone. */
  ghost predicate IsSourceEdge(q: Request, owners: map<Id, set<Id>>, sourceIds: set<Id>, e: GraphEdge) {
    e.source in sourceIds && e.target in sourceIds
    && (if e.explicitOwners != {} then e.explicitOwners == {q.feature}
        else OwnedOnlyBy(owners, e.source, q.feature) && OwnedOnlyBy(owners, e.target, q.feature))
    && (q.relations == {} || e.kind in q.relations)
  }

  /** Whether the Feature is the single one of the owners. */
  predicate IsSoleOwner(owners: set<Id>, feature: Id) {
    |owners| == 1 && feature in owners
  }

  lemma SoleOwner(owners: set<Id>, feature: Id)
    ensures IsSoleOwner(owners, feature) <==> owners == {feature}
  {
    if |owners| == 1 && feature in owners {
      assert |owners - {feature}| == 0;
    }
  }

  predicate SelectsNode(q: Request, kinds: Kinds, owners: set<Id>, n: GraphNode) {
    IsSoleOwner(owners, q.feature)
    && (n.id == q.root || (Admits(kinds, n.kind) && (q.nodeKinds == {} || n.kind in q.nodeKinds)))
  }

  function OwnersOf(owners: map<Id, set<Id>>, id: Id): set<Id> {
    if id in owners then owners[id] else {}
  }

  predicate SelectsEdge(q: Request, owners: map<Id, set<Id>>, sourceIds: set<Id>, e: GraphEdge) {
    e.source in sourceIds && e.target in sourceIds
    && (if e.explicitOwners != {} then IsSoleOwner(e.explicitOwners, q.feature)
        else IsSoleOwner(OwnersOf(owners, e.source), q.feature) && IsSoleOwner(OwnersOf(owners, e.target), q.feature))
    && (q.relations == {} || e.kind in q.relations)
  }

  lemma SelectsSources(q: Request, kinds: Kinds, owners: map<Id, set<Id>>, n: GraphNode)
    requires ViewKinds(q.view) == Some(kinds)
    ensures SelectsNode(q, kinds, OwnersOf(owners, n.id), n) <==> IsSourceNode(q, owners, n)
  {
    SoleOwner(OwnersOf(owners, n.id), q.feature);
    ViewAdmits(q.view, n.kind);
  }

  lemma SelectsSourceEdges(q: Request, owners: map<Id, set<Id>>, sourceIds: set<Id>, e: GraphEdge)
    ensures SelectsEdge(q, owners, sourceIds, e) <==> IsSourceEdge(q, owners, sourceIds, e)
  {
    SoleOwner(e.explicitOwners, q.feature);
    SoleOwner(OwnersOf(owners, e.source), q.feature);
    SoleOwner(OwnersOf(owners, e.target), q.feature);
  }

  /** The edges that `keep` holds of, in order. */
  function Filter(edges: seq<GraphEdge>, keep: GraphEdge -> bool): seq<GraphEdge> {
    if edges == [] then []
    else if keep(edges[0]) then [edges[0]] + Filter(edges[1..], keep)
    else Filter(edges[1..], keep)
  }

  /** In their order, exactly the edges between nodes that are shown. */
  ghost predicate AreVisible(part: seq<GraphEdge>, edges: seq<GraphEdge>, shown: set<Id>) {
    exists at: seq<nat> ::
      IsPart(part, edges, at) && forall i: nat :: i < |edges| ==> (i in at <==> edges[i].source in shown && edges[i].target in shown)
  }

  /** In their order, exactly the edges that a request draws on. */
  ghost predicate AreSourceEdges(
      part: seq<GraphEdge>, edges: seq<GraphEdge>, q: Request, owners: map<Id, set<Id>>, sourceIds: set<Id>)
  {
    exists at: seq<nat> ::
      IsPart(part, edges, at) && forall i: nat :: i < |edges| ==> (i in at <==> IsSourceEdge(q, owners, sourceIds, edges[i]))
  }

  lemma {:induction false} FilterKeeps(edges: seq<GraphEdge>, keep: GraphEdge -> bool) returns (at: seq<nat>)
    ensures IsPart(Filter(edges, keep), edges, at) && forall i: nat :: i < |edges| ==> (i in at <==> keep(edges[i]))
  {
    if edges == [] {
      at := [];
    } else {
      var rest := FilterKeeps(edges[1..], keep);
      at := LaterPart(Filter(edges[1..], keep), edges, rest);
      if keep(edges[0]) {
        PartWithFirst(Filter(edges[1..], keep), edges, at);
        at := [0] + at;
      }
    }
  }

  function Nearer(distances: map<Id, nat>, idLe: (Id, Id) -> bool, a: Id, b: Id): bool {
    var da := if a in distances then distances[a] else 0;
    var db := if b in distances then distances[b] else 0;
    da < db || (da == db && idLe(a, b))
  }

  /** The `limit` nearest nodes, ties broken by `idLe`. */
  function Selection(distances: map<Id, nat>, order: seq<Id>, idLe: (Id, Id) -> bool, limit: nat): seq<Id> {
    var ordered := Sort(order, (a, b) => Nearer(distances, idLe, a, b));
    if limit < |ordered| then ordered[..limit] else ordered
  }

  lemma NearerIsPreorder(distances: map<Id, nat>, idLe: (Id, Id) -> bool)
    requires TotalPreorder(idLe)
    ensures TotalPreorder((a, b) => Nearer(distances, idLe, a, b))
  {
  }

  /** A prefix of a sequence ordered by `le` holds everything that precedes one of its members strictly. */
  lemma PrefixHoldsPredecessors(ordered: seq<Id>, n: nat, le: (Id, Id) -> bool, x: Id, y: Id)
    requires SortedBy(ordered, le) && n <= |ordered|
    requires x in ordered[..n] && y in ordered && !le(x, y)
    ensures y in ordered[..n]
  {
    var i :| 0 <= i < n && ordered[i] == x;
    var j :| 0 <= j < |ordered| && ordered[j] == y;
    assert j <= i;
    assert ordered[..n][j] == y;
  }

  lemma PrefixPrecedes(ordered: seq<Id>, n: nat, le: (Id, Id) -> bool, x: Id, y: Id)
    requires SortedBy(ordered, le) && n <= |ordered| && x in ordered[..n] && y in ordered && y !in ordered[..n]
    ensures le(x, y)
  {
    var i :| 0 <= i < n && ordered[i] == x;
    var j :| 0 <= j < |ordered| && ordered[j] == y;
    forall k | 0 <= k < n
      ensures ordered[k] in ordered[..n]
    {
      assert ordered[..n][k] == ordered[k];
    }
  }

  lemma SelectionIsNearest(distances: map<Id, nat>, order: seq<Id>, idLe: (Id, Id) -> bool, limit: nat)
    requires TotalPreorder(idLe) && NoDuplicates(order) && forall x :: x in order <==> x in distances
    ensures var selection := Selection(distances, order, idLe, limit);
            && NoDuplicates(selection)
            && |selection| == (if limit < |order| then limit else |order|)
            && NearestFirst(distances, set x | x in selection)
            && (forall i, j :: 0 <= i < j < |selection| ==> Nearer(distances, idLe, selection[i], selection[j]))
            && (forall x, y :: x in selection && y in distances && y !in selection ==> Nearer(distances, idLe, x, y))
  {
    var le := (a, b) => Nearer(distances, idLe, a, b);
    var ordered := Sort(order, le);
    NearerIsPreorder(distances, idLe);
    SortSorts(order, le);
    SortKeepsElements(order, le);
    var selection := Selection(distances, order, idLe, limit);
    assert selection == ordered[..|selection|];
    forall x, y | x in selection && y in distances && distances[y] < distances[x]
      ensures y in selection
    {
      assert !le(x, y);
      PrefixHoldsPredecessors(ordered, |selection|, le, x, y);
    }
    forall i, j | 0 <= i < j < |selection|
      ensures Nearer(distances, idLe, selection[i], selection[j])
    {
      assert le(ordered[i], ordered[j]);
    }
    forall x, y | x in selection && y in distances && y !in selection
      ensures Nearer(distances, idLe, x, y)
    {
      PrefixPrecedes(ordered, |selection|, le, x, y);
    }
  }

  /** `x` is nearer to the root than `y`, or as near and not after it by `idLe`. */
  ghost predicate ComesBefore(r: Relation, root: Id, idLe: (Id, Id) -> bool, x: Id, y: Id) {
    forall d: nat, d': nat :: IsDistance(r, root, x, d) && IsDistance(r, root, y, d') ==> d < d' || (d == d' && idLe(x, y))
  }

  /**
   What a projection shows of the links `r` around `root`: of the nodes within `depth` the nearest, at most `limit`, nearest
   first and before all that are hidden, each still joined to the root by a shortest walk through shown nodes only.
   */
  ghost predicate ShowsNearest(r: Relation, root: Id, depth: nat, limit: nat, idLe: (Id, Id) -> bool, nodes: seq<Id>) {
    var shown := set x | x in nodes;
    && NoDuplicates(nodes) && shown <= Ball(r, root, depth)
    && |nodes| == (if limit < |Ball(r, root, depth)| then limit else |Ball(r, root, depth)|)
    && (forall i, j :: 0 <= i < j < |nodes| ==> ComesBefore(r, root, idLe, nodes[i], nodes[j]))
    && (forall x, y :: x in shown && y in Ball(r, root, depth) - shown ==> ComesBefore(r, root, idLe, x, y))
    && (forall x :: x in shown ==> exists d: nat :: d <= depth && IsDistance(r, root, x, d)
                                                    && IsDistance(Within(r, shown), root, x, d))
  }

  lemma NearerComesBefore(r: Relation, root: Id, distances: map<Id, nat>, idLe: (Id, Id) -> bool, x: Id, y: Id)
    requires x in distances && IsDistance(r, root, x, distances[x]) && y in distances && IsDistance(r, root, y, distances[y])
    requires Nearer(distances, idLe, x, y)
    ensures ComesBefore(r, root, idLe, x, y)
  {
    forall d: nat, d': nat | IsDistance(r, root, x, d) && IsDistance(r, root, y, d')
      ensures d < d' || (d == d' && idLe(x, y))
    {
      DistanceIsUnique(r, root, x, d, distances[x]);
      DistanceIsUnique(r, root, y, d', distances[y]);
    }
  }

  lemma SelectionShowsNearest(r: Relation, root: Id, depth: nat, limit: nat, distances: map<Id, nat>, order: seq<Id>,
                              idLe: (Id, Id) -> bool)
    requires TotalPreorder(idLe) && NoDuplicates(order) && forall x :: x in order <==> x in distances
    requires distances.Keys == Ball(r, root, depth)
    requires forall x :: x in distances ==> distances[x] <= depth && IsDistance(r, root, x, distances[x])
    ensures ShowsNearest(r, root, depth, limit, idLe, Selection(distances, order, idLe, limit))
  {
    var nodes := Selection(distances, order, idLe, limit);
    var shown := set x | x in nodes;
    SelectionIsNearest(distances, order, idLe, limit);
    assert |nodes| == if limit < |Ball(r, root, depth)| then limit else |Ball(r, root, depth)| by {
      DistinctCount(order);
      assert (set x | x in order) == distances.Keys;
    }
    forall i, j | 0 <= i < j < |nodes|
      ensures ComesBefore(r, root, idLe, nodes[i], nodes[j])
    {
      assert nodes[i] in shown && nodes[j] in shown;
      NearerComesBefore(r, root, distances, idLe, nodes[i], nodes[j]);
    }
    forall x, y | x in shown && y in Ball(r, root, depth) - shown
      ensures ComesBefore(r, root, idLe, x, y)
    {
      NearerComesBefore(r, root, distances, idLe, x, y);
    }
    forall x | x in shown
      ensures exists d: nat :: d <= depth && IsDistance(r, root, x, d) && IsDistance(Within(r, shown), root, x, d)
    {
      TruncationKeepsShortestWalks(r, distances, root, depth, shown, x);
    }
  }

  /** Every link of the projection joins two source nodes, so every node within reach of the root is one. */
  lemma {:induction false} BallIsInside(edges: seq<GraphEdge>, sourceIds: set<Id>, root: Id, n: nat)
    requires root in sourceIds
    ensures Ball(Links(edges, sourceIds), root, n) <= sourceIds
  {
    var r := Links(edges, sourceIds);
    ClosedHoldsBall(r, sourceIds, root, n);
  }

  lemma ProperSubsetIsSmaller(a: set<Id>, b: set<Id>)
    requires a <= b
    ensures |a| <= |b| && (|a| == |b| ==> a == b)
  {
    if a != b {
      var x :| x in b && x !in a;
      assert |b - a| == |b| - |a|;
      assert x in b - a;
    } else {
      assert |a| == |b|;
    }
    assert |b - a| == |b| - |a|;
  }

  lemma TruncatedIsExact(selection: seq<Id>, sources: set<Id>, order: seq<Id>, limit: int)
    requires NoDuplicates(order) && NoDuplicates(selection)
    requires |selection| <= limit && (forall x :: x in selection ==> x in order) && forall x :: x in order ==> x in sources
    ensures var shown := set x | x in selection;
            |shown| < |sources| || |order| > limit <==> shown != sources
  {
    var shown, found := set x | x in selection, set x | x in order;
    DistinctCount(selection);
    DistinctCount(order);
    ProperSubsetIsSmaller(shown, sources);
    ProperSubsetIsSmaller(found, sources);
  }

  /** The nearest nodes with their visible edges, whether any source is hidden, and what the hidden ends count. */
  ghost predicate IsProjectionOf(byId: map<Id, GraphNode>, edges: seq<GraphEdge>, sources: set<Id>, root: Id, depth: nat,
                                 limit: nat, idLe: (Id, Id) -> bool, p: Projection)
    requires p.Projected?
  {
    var shown := set x | x in p.nodes;
    && ShowsNearest(Links(edges, sources), root, depth, limit, idLe, p.nodes) && shown <= sources
    && AreVisible(p.edges, edges, shown)
    && (p.truncated <==> shown != sources)
    && AreExpansions(byId, edges, shown, p.expansions)
    && TotalCount(p.expansions) == CutEdges(edges, shown)
  }

  method VisibleEdges(edges: seq<GraphEdge>, shown: set<Id>) returns (visible: seq<GraphEdge>)
    ensures AreVisible(visible, edges, shown)
  {
    var keep := (e: GraphEdge) => e.source in shown && e.target in shown;
    visible := Filter(edges, keep);
    ghost var at := FilterKeeps(edges, keep);
  }

  method SourceNodes(q: Request, kinds: Kinds, owners: map<Id, set<Id>>, byId: map<Id, GraphNode>) returns (sources: set<Id>)
    requires ViewKinds(q.view) == Some(kinds) && forall id :: id in byId ==> byId[id].id == id
    ensures sources == set id | id in byId && IsSourceNode(q, owners, byId[id])
  {
    sources := set id | id in byId && SelectsNode(q, kinds, OwnersOf(owners, id), byId[id]);
    forall id | id in byId
      ensures SelectsNode(q, kinds, OwnersOf(owners, id), byId[id]) <==> IsSourceNode(q, owners, byId[id])
    {
      SelectsSources(q, kinds, owners, byId[id]);
    }
  }

  method SourceEdges(q: Request, owners: map<Id, set<Id>>, sourceIds: set<Id>, edges: seq<GraphEdge>)
    returns (sources: seq<GraphEdge>)
    ensures AreSourceEdges(sources, edges, q, owners, sourceIds)
  {
    var keep := (e: GraphEdge) => SelectsEdge(q, owners, sourceIds, e);
    sources := Filter(edges, keep);
    ghost var at := FilterKeeps(edges, keep);
    forall i: nat | i < |edges|
      ensures i in at <==> IsSourceEdge(q, owners, sourceIds, edges[i])
    {
      SelectsSourceEdges(q, owners, sourceIds, edges[i]);
    }
  }

  method ProjectAround(byId: map<Id, GraphNode>, edges: seq<GraphEdge>, sources: set<Id>, root: Id, depth: nat, limit: nat,
                       idLe: (Id, Id) -> bool)
    returns (p: Projection)
    requires TotalPreorder(idLe) && root in sources
    ensures p.Projected? && IsProjectionOf(byId, edges, sources, root, depth, limit, idLe, p)
  {
    var adjacency := UndirectedAdjacency(edges, sources);
    ghost var r := Links(edges, sources);
    var distances, order := ShortestDistances(r, adjacency, root, depth);
    var selection := Selection(distances, order, idLe, limit);
    var shown := set x | x in selection;
    SelectionShowsNearest(r, root, depth, limit, distances, order, idLe);
    BallIsInside(edges, sources, root, depth);
    var expansions := AvailableExpansions(byId, edges, shown);
    var truncated := |shown| < |sources| || |order| > limit;
    TruncatedIsExact(selection, sources, order, limit);
    var visible := VisibleEdges(edges, shown);
    p := Projected(selection, visible, truncated, expansions);
  }

  method ProjectLegacyArtifactGraph(nodes: seq<GraphNode>, artifactEdges: seq<GraphEdge>, q: Request,
                                    idLe: (Id, Id) -> bool)
    returns (p: Projection, ghost owners: map<Id, set<Id>>, ghost sourceIds: set<Id>, ghost sourceEdges: seq<GraphEdge>)
    requires TotalPreorder(idLe)
    ensures p == UnknownView <==> q.view !in {"traceability", "business", "implementation", "coverage"}
    ensures p == OutOfRange <==> p != UnknownView && !(1 <= q.depth <= 8 && 1 <= q.limit <= 100)
    ensures owners.Keys == NodesById(nodes).Keys
    ensures forall id, f :: id in owners ==> (f in owners[id] <==> OwnsNode(NodesById(nodes), artifactEdges, f, id))
    ensures sourceIds == set id | id in NodesById(nodes) && IsSourceNode(q, owners, NodesById(nodes)[id])
    ensures p == NotOwned <==>
            p != UnknownView && p != OutOfRange && !(IsFeature(NodesById(nodes), q.feature) && OwnedOnlyBy(owners, q.root, q.feature))
    ensures p.Projected? ==>
              && AreSourceEdges(sourceEdges, artifactEdges, q, owners, sourceIds)
              && IsProjectionOf(NodesById(nodes), sourceEdges, sourceIds, q.root, q.depth, q.limit, idLe, p)
  {
    var byId := NodesById(nodes);
    var ownership := FeatureOwnership(nodes, artifactEdges);
    owners, sourceEdges := ownership, [];
    sourceIds := set id | id in byId && IsSourceNode(q, ownership, byId[id]);
    var kinds := ViewKinds(q.view);
    ViewAdmits(q.view, "");
    if kinds == None {
      return UnknownView, owners, sourceIds, sourceEdges;
    }
    if q.depth < 1 || 8 < q.depth || q.limit < 1 || 100 < q.limit {
      return OutOfRange, owners, sourceIds, sourceEdges;
    }
    SoleOwner(OwnersOf(ownership, q.root), q.feature);
    if !(q.feature in byId && byId[q.feature].kind == FEATURE) || !IsSoleOwner(OwnersOf(ownership, q.root), q.feature) {
      return NotOwned, owners, sourceIds, sourceEdges;
    }
    var sources := SourceNodes(q, kinds.value, ownership, byId);
    var selected := SourceEdges(q, ownership, sources, artifactEdges);
    sourceEdges := selected;
    p := ProjectAround(byId, selected, sources, q.root, q.depth, q.limit, idLe);
  }
}
