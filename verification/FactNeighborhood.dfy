/**
 The bounded neighbourhood of a fact node: a breadth-first search that stops at a depth and refuses what a token
 budget does not admit.
 */
module FactNeighborhood {
  import opened Distances
  import opened FactGraphs
  import opened Graphs

  datatype Item = Item(id: Id, depth: nat)

  /** How a node came to be visited: as the root, or over an edge from a visited node. */
  datatype Lead = Start | Via(origin: Id, edge: FactEdge)

  /** The search between two iterations; `via` and `refused` only record its history. */
  datatype Search = Search(queue: seq<Item>, depths: map<Id, nat>, via: map<Id, Lead>,
                           edgeIds: set<Id>, tokens: nat, refused: bool)

  /** The hops admitted one after the other while the budget lasts. */
  function Admitted(hops: seq<Hop>, tokens: nat, budget: nat): seq<Hop> {
    if hops == [] then []
    else
      var last := hops[|hops| - 1];
      var earlier := Admitted(hops[..|hops| - 1], tokens, budget);
      if tokens + CostOfHops(earlier) + TokenEstimate(last.edge.jsonLength) <= budget then earlier + [last] else earlier
  }

  function EdgeIdsOf(hops: seq<Hop>): set<Id> {
    set h | h in hops :: h.edge.id
  }

  function ItemsOf(hops: seq<Hop>, depth: nat): seq<Item> {
    seq(|hops|, i requires 0 <= i < |hops| => Item(hops[i].nodeId, depth))
  }

  // ---------------------------------------------------------------- steps

  function Dropped(s: Search): Search
    requires |s.queue| > 0
  {
    s.(queue := s.queue[1..])
  }

  function Visited(s: Search, lead: Lead, cost: nat): Search
    requires |s.queue| > 0
  {
    var item := s.queue[0];
    Dropped(s).(depths := s.depths[item.id := item.depth], via := s.via[item.id := lead], tokens := s.tokens + cost)
  }

  function Expanded(s: Search, item: Item, admitted: seq<Hop>, refused: bool): Search {
    s.(queue := s.queue + ItemsOf(admitted, item.depth + 1),
       edgeIds := s.edgeIds + EdgeIdsOf(admitted),
       tokens := s.tokens + CostOfHops(admitted),
       refused := s.refused || refused)
  }

  // ---------------------------------------------------------------- invariants

  ghost predicate Justifies(edges: seq<FactEdge>, root: Id, edgeIds: set<Id>, depths: map<Id, nat>,
                            lead: Lead, id: Id, depth: nat) {
    match lead
    case Start => id == root && depth == 0
    case Via(origin, e) =>
      origin in depths && depth == depths[origin] + 1 && e in edges && e.id in edgeIds && Joins(e, origin, id)
  }

  ghost predicate Justified(edges: seq<FactEdge>, root: Id, edgeIds: set<Id>, depths: map<Id, nat>, id: Id, depth: nat) {
    exists lead :: Justifies(edges, root, edgeIds, depths, lead, id, depth)
  }

  /** Every visited or queued node but the root hangs on a chosen edge from a node one step nearer. */
  ghost predicate Led(edges: seq<FactEdge>, root: Id, s: Search) {
    && (forall item :: item in s.queue ==> Justified(edges, root, s.edgeIds, s.depths, item.id, item.depth))
    && s.depths.Keys <= s.via.Keys
    && (forall x {:trigger s.via[x]} :: x in s.depths ==>
          x in s.via && Justifies(edges, root, s.edgeIds, s.depths, s.via[x], x, s.depths[x]))
  }

  /** The depths of a queue never decrease and lie between `low` and `high`. */
  ghost predicate Layered(queue: seq<Item>, low: nat, high: nat) {
    queue != [] ==> low <= queue[0].depth <= high && Layered(queue[1..], queue[0].depth, high)
  }

  ghost function HeadDepth(queue: seq<Item>): nat {
    if queue == [] then 0 else queue[0].depth
  }

  /** The queue spans at most two consecutive depths, and no visited node is deeper than its head. */
  ghost predicate Ordered(queue: seq<Item>, depths: map<Id, nat>, maxDepth: nat) {
    && Layered(queue, HeadDepth(queue), HeadDepth(queue) + 1)
    && (forall item :: item in queue ==> item.depth <= maxDepth)
    && (forall x :: x in depths ==> depths[x] <= maxDepth)
    && (forall x :: x in depths && queue != [] ==> depths[x] <= HeadDepth(queue))
  }

  ghost predicate SettledBut(r: Relation, depths: map<Id, nat>, queue: seq<Item>, maxDepth: nat) {
    forall x, y :: (x, y) in r && x in depths && depths[x] < maxDepth ==>
      (y in depths && depths[y] <= depths[x] + 1) || Item(y, depths[x] + 1) in queue
  }

  ghost function Explored(depths: map<Id, nat>, maxDepth: nat): set<Id> {
    set x | x in depths && depths[x] < maxDepth
  }

  /** The chosen edges touch explored nodes; if nothing was refused they are all the edges that do. */
  ghost predicate ChosenTouch(edges: seq<FactEdge>, explored: set<Id>, edgeIds: set<Id>, refused: bool) {
    && (forall e :: e in edges && e.id in edgeIds ==> Touches(e, explored))
    && (forall id :: id in edgeIds ==> exists e :: e in edges && e.id == id)
    && (!refused ==> forall e :: e in edges && Touches(e, explored) ==> e.id in edgeIds)
  }

  ghost function RootCost(g: FactGraph, root: Id): nat {
    if root in NodesById(g.nodes) then TokenEstimate(NodesById(g.nodes)[root].jsonLength) else 0
  }

  /** The running total covers what was chosen and stays within the budget, the root apart. */
  ghost predicate Accounts(g: FactGraph, visited: set<Id>, explored: set<Id>, edgeIds: set<Id>, tokens: nat,
                           budget: nat, rootCost: nat, refused: bool) {
    && CostOfNodes(g.nodes, visited) + CostOfEdges(g.edges, edgeIds) <= tokens
    && tokens <= CostOfNodes(g.nodes, visited) + Incidence(g.edges, explored)
    && (!refused ==> tokens == CostOfNodes(g.nodes, visited) + Incidence(g.edges, explored))
    && (tokens <= budget || tokens <= rootCost)
  }

  /** The nodes whose edges belong to the neighbourhood. */
  ghost function Near(g: FactGraph, root: Id, maxDepth: nat): set<Id> {
    if maxDepth == 0 then {} else Ball(NodeLinks(g), root, maxDepth - 1)
  }

  /** What the whole neighbourhood costs: its nodes, and the edges at nearer nodes once from each such end. */
  ghost function WholeCost(g: FactGraph, root: Id, maxDepth: nat): nat {
    CostOfNodes(g.nodes, Ball(NodeLinks(g), root, maxDepth)) + Incidence(g.edges, Near(g, root, maxDepth))
  }

  /** The whole neighbourhood fits the budget, or is the root alone. */
  ghost predicate Fits(g: FactGraph, root: Id, budget: nat, maxDepth: nat) {
    WholeCost(g, root, maxDepth) <= budget || WholeCost(g, root, maxDepth) <= RootCost(g, root)
  }

  /** No neighbourhood costs more than all nodes once and all edges from both ends. */
  lemma WholeCostIsBounded(g: FactGraph, root: Id, maxDepth: nat)
    ensures WholeCost(g, root, maxDepth) <= WorstCase(g)
  {
    var ids, ball := set n | n in g.nodes :: n.id, Ball(NodeLinks(g), root, maxDepth);
    CostOfNodesMonotone(g.nodes, ball, ids + ball);
    CostOfNodesOfGraph(g.nodes, ids, ids + ball);
    IncidenceBounded(g.edges, Near(g, root, maxDepth));
  }

  lemma {:induction false} CostOfNodesOfGraph(nodes: seq<FactNode>, ids: set<Id>, more: set<Id>)
    requires ids <= more && forall n :: n in nodes ==> n.id in ids
    ensures CostOfNodes(nodes, more) == CostOfNodes(nodes, ids)
  {
    if nodes != [] {
      CostOfNodesOfGraph(nodes[1..], ids, more);
    }
  }

  ghost predicate Exploring(g: FactGraph, r: Relation, root: Id, budget: nat, maxDepth: nat, s: Search) {
    && Led(g.edges, root, s)
    && Ordered(s.queue, s.depths, maxDepth)
    && s.depths.Keys <= NodesById(g.nodes).Keys
    && (!s.refused ==> SettledBut(r, s.depths, s.queue, maxDepth))
    && ChosenTouch(g.edges, Explored(s.depths, maxDepth), s.edgeIds, s.refused)
    && Accounts(g, s.depths.Keys, Explored(s.depths, maxDepth), s.edgeIds, s.tokens, budget, RootCost(g, root), s.refused)
    && (Fits(g, root, budget, maxDepth) ==> !s.refused)
    && (if root in s.depths then s.depths[root] == 0
        else s.depths == map[] && s.tokens == 0 && !s.refused && (s.queue == [Item(root, 0)] || (s.queue == [] && root !in NodesById(g.nodes).Keys)))
  }

  // ---------------------------------------------------------------- every step keeps them

  lemma {:induction false} LayeredWidens(queue: seq<Item>, low: nat, high: nat, low': nat, high': nat)
    requires Layered(queue, low, high) && high <= high' && (queue != [] ==> low' <= queue[0].depth)
    ensures Layered(queue, low', high')
  {
    if queue != [] {
      LayeredWidens(queue[1..], queue[0].depth, high, queue[0].depth, high');
    }
  }

  lemma {:induction false} LayeredAppends(queue: seq<Item>, low: nat, high: nat, more: seq<Item>)
    requires Layered(queue, low, high) && low <= high && forall item :: item in more ==> item.depth == high
    ensures Layered(queue + more, low, high)
    decreases |queue| + |more|
  {
    if queue != [] {
      LayeredAppends(queue[1..], queue[0].depth, high, more);
      assert (queue + more)[1..] == queue[1..] + more;
    } else {
      assert queue + more == more;
      if more != [] {
        assert more[0] in more;
        assert [] + more[1..] == more[1..];
        LayeredAppends([], high, high, more[1..]);
      }
    }
  }

  lemma DropKeepsOrder(queue: seq<Item>, depths: map<Id, nat>, maxDepth: nat)
    requires |queue| > 0 && Ordered(queue, depths, maxDepth)
    ensures Ordered(queue[1..], depths, maxDepth)
    ensures Layered(queue[1..], queue[0].depth, queue[0].depth + 1)
  {
    var rest := queue[1..];
    assert forall item :: item in rest ==> item in queue;
    LayeredWidens(rest, queue[0].depth, queue[0].depth + 1, HeadDepth(rest),
                  if rest == [] then queue[0].depth + 1 else HeadDepth(rest) + 1);
  }

  /** A dropped item is settled: it was visited no later, or it is no node of the graph. */
  lemma DropKeepsSettled(r: Relation, queue: seq<Item>, depths: map<Id, nat>, maxDepth: nat)
    requires |queue| > 0 && SettledBut(r, depths, queue, maxDepth)
    requires queue[0].id in depths ==> depths[queue[0].id] <= queue[0].depth
    requires queue[0].id !in depths ==> forall e :: e in r ==> e.1 != queue[0].id
    ensures SettledBut(r, depths, queue[1..], maxDepth)
  {
    forall x, y | (x, y) in r && x in depths && depths[x] < maxDepth
      ensures (y in depths && depths[y] <= depths[x] + 1) || Item(y, depths[x] + 1) in queue[1..]
    {
      if Item(y, depths[x] + 1) in queue && Item(y, depths[x] + 1) !in queue[1..] {
        assert queue == [queue[0]] + queue[1..];
        assert queue[0] == Item(y, depths[x] + 1);
        assert (x, y) in r;
      }
    }
  }

  lemma DropKeepsExploring(g: FactGraph, r: Relation, root: Id, budget: nat, maxDepth: nat, s: Search)
    requires Exploring(g, r, root, budget, maxDepth, s) && |s.queue| > 0
    requires forall e :: e in r ==> e.1 in NodesById(g.nodes).Keys
    requires s.queue[0].id in s.depths || s.queue[0].id !in NodesById(g.nodes).Keys
    ensures Exploring(g, r, root, budget, maxDepth, Dropped(s))
  {
    DropKeepsOrder(s.queue, s.depths, maxDepth);
    if !s.refused {
      DropKeepsSettled(r, s.queue, s.depths, maxDepth);
    }
  }

  lemma RefusalKeepsExploring(g: FactGraph, r: Relation, root: Id, budget: nat, maxDepth: nat, s: Search)
    requires Exploring(g, r, root, budget, maxDepth, s) && |s.queue| > 0 && s.depths != map[]
    requires !Fits(g, root, budget, maxDepth)
    ensures Exploring(g, r, root, budget, maxDepth, Dropped(s).(refused := true))
  {
    DropKeepsOrder(s.queue, s.depths, maxDepth);
  }

  lemma VisitKeepsLed(edges: seq<FactEdge>, root: Id, s: Search, lead: Lead, cost: nat, s': Search)
    requires Led(edges, root, s) && |s.queue| > 0 && s.queue[0].id !in s.depths
    requires Justifies(edges, root, s.edgeIds, s.depths, lead, s.queue[0].id, s.queue[0].depth)
    requires s' == Visited(s, lead, cost)
    ensures Led(edges, root, s')
  {
    var id := s.queue[0].id;
    forall item | item in s'.queue
      ensures Justified(edges, root, s'.edgeIds, s'.depths, item.id, item.depth)
    {
      assert item in s.queue;
      var l :| Justifies(edges, root, s.edgeIds, s.depths, l, item.id, item.depth);
      assert Justifies(edges, root, s'.edgeIds, s'.depths, l, item.id, item.depth);
    }
    forall x | x in s'.depths
      ensures x in s'.via && Justifies(edges, root, s'.edgeIds, s'.depths, s'.via[x], x, s'.depths[x])
    {
      if x == id {
        assert s'.via[x] == lead;
      } else {
        assert s'.via[x] == s.via[x];
      }
    }
  }

  lemma VisitKeepsOrder(queue: seq<Item>, depths: map<Id, nat>, maxDepth: nat)
    requires |queue| > 0 && Ordered(queue, depths, maxDepth) && queue[0].id !in depths
    ensures Ordered(queue[1..], depths[queue[0].id := queue[0].depth], maxDepth)
  {
    DropKeepsOrder(queue, depths, maxDepth);
    assert queue[0] in queue;
  }

  /** After a visit only the links of the visited node itself may be unsettled. */
  lemma VisitSettles(r: Relation, queue: seq<Item>, depths: map<Id, nat>, maxDepth: nat, x: Id, y: Id)
    requires |queue| > 0 && SettledBut(r, depths, queue, maxDepth) && queue[0].id !in depths
    requires (x, y) in r && x in depths && depths[x] < maxDepth
    ensures var depths' := depths[queue[0].id := queue[0].depth];
            (y in depths' && depths'[y] <= depths'[x] + 1) || Item(y, depths'[x] + 1) in queue[1..]
  {
    assert queue == [queue[0]] + queue[1..];
    if Item(y, depths[x] + 1) in queue && Item(y, depths[x] + 1) !in queue[1..] {
      assert queue[0] == Item(y, depths[x] + 1);
    }
  }

  lemma VisitKeepsAccounts(g: FactGraph, visited: set<Id>, explored: set<Id>, edgeIds: set<Id>, tokens: nat,
                           budget: nat, rootCost: nat, refused: bool, n: FactNode)
    requires DistinctIds(g) && n in g.nodes && n.id !in visited
    requires Accounts(g, visited, explored, edgeIds, tokens, budget, rootCost, refused)
    requires tokens + TokenEstimate(n.jsonLength) <= budget || tokens + TokenEstimate(n.jsonLength) <= rootCost
    ensures Accounts(g, visited + {n.id}, explored, edgeIds, tokens + TokenEstimate(n.jsonLength), budget, rootCost, refused)
  {
    CostOfNodesGrows(g.nodes, visited, n);
  }

  /** What has been spent, with one more node of the neighbourhood, is no more than the cost of the whole. */
  lemma RoomForNode(g: FactGraph, visited: set<Id>, explored: set<Id>, edgeIds: set<Id>, tokens: nat,
                    budget: nat, rootCost: nat, refused: bool, n: FactNode, ball: set<Id>, near: set<Id>)
    requires DistinctIds(g) && n in g.nodes && n.id !in visited && visited + {n.id} <= ball && explored <= near
    requires Accounts(g, visited, explored, edgeIds, tokens, budget, rootCost, refused)
    ensures tokens + TokenEstimate(n.jsonLength) <= CostOfNodes(g.nodes, ball) + Incidence(g.edges, near)
  {
    CostOfNodesGrows(g.nodes, visited, n);
    CostOfNodesMonotone(g.nodes, visited + {n.id}, ball);
    IncidenceMonotone(g.edges, explored, near);
  }

  /** Likewise with the hops of one more node that is expanded. */
  lemma RoomForHops(g: FactGraph, visited: set<Id>, explored: set<Id>, edgeIds: set<Id>, tokens: nat,
                    budget: nat, rootCost: nat, refused: bool, id: Id, hops: seq<Hop>, ball: set<Id>, near: set<Id>)
    requires visited <= ball && id !in explored && explored + {id} <= near
    requires Accounts(g, visited, explored, edgeIds, tokens, budget, rootCost, refused)
    requires CostOfHops(hops) == Incidence(g.edges, {id})
    ensures tokens + CostOfHops(hops) <= CostOfNodes(g.nodes, ball) + Incidence(g.edges, near)
  {
    CostOfNodesMonotone(g.nodes, visited, ball);
    IncidenceAdds(g.edges, explored, id);
    IncidenceMonotone(g.edges, explored + {id}, near);
  }

  /** The root is paid for as soon as it has been visited. */
  lemma {:induction false} RootIsPaid(nodes: seq<FactNode>, visited: set<Id>, n: FactNode)
    requires n in nodes && n.id in visited
    ensures TokenEstimate(n.jsonLength) <= CostOfNodes(nodes, visited)
  {
    if n in nodes[1..] {
      RootIsPaid(nodes[1..], visited, n);
    }
  }

  /** Hops that cost nothing are none. */
  lemma FreeHops(hops: seq<Hop>)
    requires CostOfHops(hops) == 0
    ensures hops == []
  {
  }

  // ---------------------------------------------------------------- how far the search gets

  ghost function ParentsOf(via: map<Id, Lead>): map<Id, Id> {
    map x | x in via && via[x].Via? :: via[x].origin
  }

  lemma LedMeansDiscovered(edges: seq<FactEdge>, root: Id, s: Search, links: Relation)
    requires Led(edges, root, s) && root in s.depths && s.depths[root] == 0
    requires forall e, x, y :: e in edges && e.id in s.edgeIds && Joins(e, x, y) && x in s.depths && y in s.depths ==>
               (x, y) in links
    ensures DiscoveredFrom(links, s.depths, root, ParentsOf(s.via))
  {
    var parent := ParentsOf(s.via);
    forall x | x in s.depths && x != root
      ensures x in parent && (parent[x], x) in links && parent[x] in s.depths && s.depths[x] == s.depths[parent[x]] + 1
    {
      var lead := s.via[x];
      assert Justifies(edges, root, s.edgeIds, s.depths, lead, x, s.depths[x]);
      assert Joins(lead.edge, lead.origin, x);
    }
  }

  lemma EdgesBetweenNodesAreLinks(g: FactGraph, x: Id, y: Id, e: FactEdge)
    requires e in g.edges && Joins(e, x, y) && x in NodeIds(g) && y in NodeIds(g)
    ensures (x, y) in NodeLinks(g)
  {
  }

  lemma DiscoveredNear(links: Relation, depths: map<Id, nat>, root: Id, parent: map<Id, Id>, x: Id, n: nat)
    requires DiscoveredFrom(links, depths, root, parent) && x in depths && depths[x] <= n
    ensures x in Ball(links, root, n)
  {
    DiscoveredInBall(links, depths, root, parent, x);
    BallMonotone(links, root, depths[x], n);
  }

  lemma DiscoveredWithin(links: Relation, depths: map<Id, nat>, root: Id, parent: map<Id, Id>, maxDepth: nat)
    requires DiscoveredFrom(links, depths, root, parent) && forall x :: x in depths ==> depths[x] <= maxDepth
    ensures depths.Keys <= Ball(links, root, maxDepth)
  {
    forall x | x in depths
      ensures x in Ball(links, root, maxDepth)
    {
      DiscoveredNear(links, depths, root, parent, x, maxDepth);
    }
  }

  lemma SearchIsDiscovered(g: FactGraph, root: Id, s: Search)
    requires Led(g.edges, root, s) && root in s.depths && s.depths[root] == 0
    requires s.depths.Keys <= NodesById(g.nodes).Keys
    ensures DiscoveredFrom(NodeLinks(g), s.depths, root, ParentsOf(s.via))
  {
    forall e, x, y | e in g.edges && e.id in s.edgeIds && Joins(e, x, y) && x in s.depths && y in s.depths
      ensures (x, y) in NodeLinks(g)
    {
      EdgesBetweenNodesAreLinks(g, x, y, e);
    }
    LedMeansDiscovered(g.edges, root, s, NodeLinks(g));
  }

  lemma ExploredNearer(links: Relation, depths: map<Id, nat>, root: Id, parent: map<Id, Id>, maxDepth: nat)
    requires DiscoveredFrom(links, depths, root, parent)
    ensures Explored(depths, maxDepth) <= if maxDepth == 0 then {} else Ball(links, root, maxDepth - 1)
  {
    forall x | x in depths && depths[x] < maxDepth
      ensures x in Ball(links, root, maxDepth - 1)
    {
      DiscoveredNear(links, depths, root, parent, x, maxDepth - 1);
    }
  }

  /** The search visits no node outside the ball, and expands none outside the ball of the radius before. */
  lemma SearchStaysWithin(g: FactGraph, root: Id, maxDepth: nat, s: Search)
    requires Led(g.edges, root, s) && root in s.depths && s.depths[root] == 0
    requires s.depths.Keys <= NodesById(g.nodes).Keys && forall x :: x in s.depths ==> s.depths[x] <= maxDepth
    ensures s.depths.Keys <= Ball(NodeLinks(g), root, maxDepth)
    ensures Explored(s.depths, maxDepth) <= Near(g, root, maxDepth)
  {
    SearchIsDiscovered(g, root, s);
    DiscoveredWithin(NodeLinks(g), s.depths, root, ParentsOf(s.via), maxDepth);
    ExploredNearer(NodeLinks(g), s.depths, root, ParentsOf(s.via), maxDepth);
  }

  lemma HeadIsWithin(g: FactGraph, r: Relation, root: Id, budget: nat, maxDepth: nat, s: Search, lead: Lead)
    requires Exploring(g, r, root, budget, maxDepth, s) && |s.queue| > 0
    requires s.queue[0].id !in s.depths && s.queue[0].id in NodesById(g.nodes)
    requires Justifies(g.edges, root, s.edgeIds, s.depths, lead, s.queue[0].id, s.queue[0].depth)
    ensures s.depths.Keys + {s.queue[0].id} <= Ball(NodeLinks(g), root, maxDepth)
    ensures Explored(s.depths, maxDepth) + (if s.queue[0].depth < maxDepth then {s.queue[0].id} else {})
            <= Near(g, root, maxDepth)
  {
    var next := Visited(s, lead, 0);
    VisitKeepsLed(g.edges, root, s, lead, 0, next);
    assert s.queue[0] in s.queue;
    SearchStaysWithin(g, root, maxDepth, next);
    ExploredGrows(s.depths, maxDepth, s.queue[0].id, s.queue[0].depth);
  }

  /** What a budget admits of the hops: some of them, within the budget, and all of them if they fit. */
  ghost predicate Admits(hops: seq<Hop>, admitted: seq<Hop>, tokens: nat, budget: nat) {
    && (forall h :: h in admitted ==> h in hops)
    && CostOfHops(admitted) <= CostOfHops(hops)
    && (admitted == [] || tokens + CostOfHops(admitted) <= budget)
    && (tokens + CostOfHops(hops) <= budget ==> admitted == hops)
  }

  lemma AdmitsOneMore(hops: seq<Hop>, admitted: seq<Hop>, tokens: nat, budget: nat, last: Hop, more: seq<Hop>)
    requires Admits(hops, admitted, tokens, budget)
    requires more == (if tokens + CostOfHops(admitted) + TokenEstimate(last.edge.jsonLength) <= budget then admitted + [last] else admitted)
    ensures Admits(hops + [last], more, tokens, budget)
  {
    assert (hops + [last])[..|hops|] == hops && (admitted + [last])[..|admitted|] == admitted;
  }

  lemma {:induction false} AdmittedWithin(hops: seq<Hop>, tokens: nat, budget: nat)
    ensures Admits(hops, Admitted(hops, tokens, budget), tokens, budget)
  {
    if hops == [] {
    } else {
      var init, last := hops[..|hops| - 1], hops[|hops| - 1];
      AdmittedWithin(init, tokens, budget);
      AdmitsOneMore(init, Admitted(init, tokens, budget), tokens, budget, last, Admitted(hops, tokens, budget));
      assert init + [last] == hops;
    }
  }

  /** Where the whole neighbourhood fits, no further node of it is refused. */
  lemma NodeFits(g: FactGraph, root: Id, budget: nat, maxDepth: nat, visited: set<Id>, explored: set<Id>,
                 edgeIds: set<Id>, tokens: nat, refused: bool, n: FactNode)
    requires DistinctIds(g) && Fits(g, root, budget, maxDepth) && root in visited && root in NodesById(g.nodes)
    requires Accounts(g, visited, explored, edgeIds, tokens, budget, RootCost(g, root), refused)
    requires n in g.nodes && n.id !in visited && visited + {n.id} <= Ball(NodeLinks(g), root, maxDepth)
    requires explored <= Near(g, root, maxDepth)
    ensures tokens + TokenEstimate(n.jsonLength) <= budget
  {
    RoomForNode(g, visited, explored, edgeIds, tokens, budget, RootCost(g, root), refused, n,
                Ball(NodeLinks(g), root, maxDepth), Near(g, root, maxDepth));
    RootIsPaid(g.nodes, visited, NodesById(g.nodes)[root]);
  }

  /** Nor is a hop from it. */
  lemma HopsFit(g: FactGraph, root: Id, budget: nat, maxDepth: nat, visited: set<Id>, explored: set<Id>,
                edgeIds: set<Id>, tokens: nat, refused: bool, id: Id, hops: seq<Hop>, admitted: seq<Hop>)
    requires Fits(g, root, budget, maxDepth) && root in visited && root in NodesById(g.nodes)
    requires Accounts(g, visited, explored, edgeIds, tokens, budget, RootCost(g, root), refused)
    requires visited <= Ball(NodeLinks(g), root, maxDepth)
    requires id !in explored && explored + {id} <= Near(g, root, maxDepth)
    requires CostOfHops(hops) == Incidence(g.edges, {id}) && Admits(hops, admitted, tokens, budget)
    ensures admitted == hops
  {
    RoomForHops(g, visited, explored, edgeIds, tokens, budget, RootCost(g, root), refused, id, hops,
                Ball(NodeLinks(g), root, maxDepth), Near(g, root, maxDepth));
    RootIsPaid(g.nodes, visited, NodesById(g.nodes)[root]);
    if WholeCost(g, root, maxDepth) > budget {
      FreeHops(hops);
    }
  }

  /** Edges are counted at least once: chosen again from its other end, an edge costs again. */
  lemma {:induction false} EdgesCostAtMostHops(edges: seq<FactEdge>, edgeIds: set<Id>, hops: seq<Hop>)
    requires forall i, j :: 0 <= i < j < |edges| ==> edges[i].id != edges[j].id
    requires forall h :: h in hops ==> h.edge in edges
    ensures CostOfEdges(edges, edgeIds + EdgeIdsOf(hops)) <= CostOfEdges(edges, edgeIds) + CostOfHops(hops)
  {
    if hops == [] {
      assert edgeIds + EdgeIdsOf(hops) == edgeIds;
    } else {
      var earlier, last := hops[..|hops| - 1], hops[|hops| - 1];
      assert hops == earlier + [last];
      EdgesCostAtMostHops(edges, edgeIds, earlier);
      var before := edgeIds + EdgeIdsOf(earlier);
      assert edgeIds + EdgeIdsOf(hops) == before + {last.edge.id};
      if last.edge.id in before {
        assert before + {last.edge.id} == before;
      } else {
        CostOfEdgesGrows(edges, before, last.edge);
      }
    }
  }

  lemma ExpansionKeepsAccounts(g: FactGraph, visited: set<Id>, explored: set<Id>, edgeIds: set<Id>, tokens: nat,
                               budget: nat, rootCost: nat, refused: bool, id: Id, hops: seq<Hop>, admitted: seq<Hop>)
    requires DistinctIds(g) && id !in explored
    requires Accounts(g, visited, explored, edgeIds, tokens, budget, rootCost, refused)
    requires CostOfHops(hops) == Incidence(g.edges, {id}) && forall h :: h in hops ==> h.edge in g.edges
    requires Admits(hops, admitted, tokens, budget)
    ensures Accounts(g, visited, explored + {id}, edgeIds + EdgeIdsOf(admitted), tokens + CostOfHops(admitted), budget,
                     rootCost, refused || admitted != hops)
  {
    EdgesCostAtMostHops(g.edges, edgeIds, admitted);
    IncidenceAdds(g.edges, explored, id);
  }

  lemma ExpansionKeepsLed(edges: seq<FactEdge>, root: Id, s: Search, item: Item, admitted: seq<Hop>, refused: bool)
    requires Led(edges, root, s) && item.id in s.depths && s.depths[item.id] == item.depth
    requires forall h :: h in admitted ==> h.edge in edges && Joins(h.edge, item.id, h.nodeId)
    ensures Led(edges, root, Expanded(s, item, admitted, refused))
  {
    var s' := Expanded(s, item, admitted, refused);
    forall q | q in s'.queue
      ensures Justified(edges, root, s'.edgeIds, s'.depths, q.id, q.depth)
    {
      if q in s.queue {
        var l :| Justifies(edges, root, s.edgeIds, s.depths, l, q.id, q.depth);
        assert Justifies(edges, root, s'.edgeIds, s'.depths, l, q.id, q.depth);
      } else {
        var i :| 0 <= i < |admitted| && q == ItemsOf(admitted, item.depth + 1)[i];
        assert admitted[i] in admitted;
        assert Justifies(edges, root, s'.edgeIds, s'.depths, Via(item.id, admitted[i].edge), q.id, q.depth);
      }
    }
  }

  lemma ExpansionKeepsTouch(edges: seq<FactEdge>, explored: set<Id>, edgeIds: set<Id>, refused: bool,
                            id: Id, hops: seq<Hop>, admitted: seq<Hop>)
    requires forall i, j :: 0 <= i < j < |edges| ==> edges[i].id != edges[j].id
    requires ChosenTouch(edges, explored, edgeIds, refused)
    requires forall h :: h in hops <==> h.edge in edges && Joins(h.edge, id, h.nodeId)
    requires forall h :: h in admitted ==> h in hops
    ensures ChosenTouch(edges, explored + {id}, edgeIds + EdgeIdsOf(admitted), refused || admitted != hops)
  {
    var edgeIds' := edgeIds + EdgeIdsOf(admitted);
    forall e | e in edges && e.id in edgeIds'
      ensures Touches(e, explored + {id})
    {
      if e.id !in edgeIds {
        var h :| h in admitted && h.edge.id == e.id;
        assert h.edge == e;
      }
    }
    forall e | !(refused || admitted != hops) && e in edges && Touches(e, explored + {id})
      ensures e.id in edgeIds'
    {
      if !Touches(e, explored) {
        var h := Hop(e, if e.subject == id then e.object_ else e.subject);
        assert h in hops;
      }
    }
  }

  lemma ExpansionSettles(r: Relation, queue: seq<Item>, depths: map<Id, nat>, maxDepth: nat, hops: seq<Hop>, queue': seq<Item>)
    requires |queue| > 0 && SettledBut(r, depths, queue, maxDepth) && queue[0].id !in depths
    requires queue' == queue[1..] + ItemsOf(hops, queue[0].depth + 1)
    requires forall y :: (queue[0].id, y) in r ==> exists h :: h in hops && h.nodeId == y
    ensures SettledBut(r, depths[queue[0].id := queue[0].depth], queue', maxDepth)
  {
    var depths' := depths[queue[0].id := queue[0].depth];
    forall x, y | (x, y) in r && x in depths' && depths'[x] < maxDepth
      ensures (y in depths' && depths'[y] <= depths'[x] + 1) || Item(y, depths'[x] + 1) in queue'
    {
      if x == queue[0].id {
        var h :| h in hops && h.nodeId == y;
        var i :| 0 <= i < |hops| && hops[i] == h;
        assert queue'[|queue| - 1 + i] == Item(y, depths'[x] + 1);
      } else {
        VisitSettles(r, queue, depths, maxDepth, x, y);
      }
    }
  }

  lemma ExploredGrows(depths: map<Id, nat>, maxDepth: nat, id: Id, depth: nat)
    requires id !in depths
    ensures Explored(depths[id := depth], maxDepth) == Explored(depths, maxDepth) + if depth < maxDepth then {id} else {}
    ensures depths[id := depth].Keys == depths.Keys + {id}
  {
  }

  /** What visiting the head of the queue requires: its node exists, is new, and is the first or fits the budget. */
  ghost predicate AdmitsHead(g: FactGraph, budget: nat, s: Search) {
    && |s.queue| > 0
    && s.queue[0].id !in s.depths
    && s.queue[0].id in NodesById(g.nodes)
    && (s.depths == map[] || s.tokens + TokenEstimate(NodesById(g.nodes)[s.queue[0].id].jsonLength) <= budget)
  }

  lemma LastVisitSettles(r: Relation, queue: seq<Item>, depths: map<Id, nat>, maxDepth: nat)
    requires |queue| > 0 && SettledBut(r, depths, queue, maxDepth) && queue[0].id !in depths && queue[0].depth >= maxDepth
    ensures SettledBut(r, depths[queue[0].id := queue[0].depth], queue[1..], maxDepth)
  {
    var depths' := depths[queue[0].id := queue[0].depth];
    forall x, y | (x, y) in r && x in depths' && depths'[x] < maxDepth
      ensures (y in depths' && depths'[y] <= depths'[x] + 1) || Item(y, depths'[x] + 1) in queue[1..]
    {
      VisitSettles(r, queue, depths, maxDepth, x, y);
    }
  }

  lemma HeadIsAccounted(g: FactGraph, r: Relation, root: Id, budget: nat, maxDepth: nat, s: Search)
    requires DistinctIds(g) && Exploring(g, r, root, budget, maxDepth, s) && AdmitsHead(g, budget, s)
    ensures var item := s.queue[0];
            var cost := TokenEstimate(NodesById(g.nodes)[item.id].jsonLength);
            Accounts(g, s.depths.Keys + {item.id}, Explored(s.depths, maxDepth), s.edgeIds, s.tokens + cost,
                     budget, RootCost(g, root), s.refused)
  {
    VisitKeepsAccounts(g, s.depths.Keys, Explored(s.depths, maxDepth), s.edgeIds, s.tokens, budget, RootCost(g, root),
                       s.refused, NodesById(g.nodes)[s.queue[0].id]);
  }

  /** The accounts after a visit without expansion, and after one with expansion, in terms of the new depths. */
  lemma LastVisitAccounts(g: FactGraph, depths: map<Id, nat>, depths': map<Id, nat>, maxDepth: nat, item: Item,
                          edgeIds: set<Id>, tokens: nat, budget: nat, rootCost: nat, refused: bool)
    requires item.id !in depths && depths' == depths[item.id := item.depth] && item.depth >= maxDepth
    requires Accounts(g, depths.Keys + {item.id}, Explored(depths, maxDepth), edgeIds, tokens, budget, rootCost, refused)
    ensures Accounts(g, depths'.Keys, Explored(depths', maxDepth), edgeIds, tokens, budget, rootCost, refused)
    ensures Explored(depths', maxDepth) == Explored(depths, maxDepth)
  {
    ExploredGrows(depths, maxDepth, item.id, item.depth);
    assert Explored(depths', maxDepth) == Explored(depths, maxDepth);
  }

  lemma ExpansionAccounts(g: FactGraph, depths: map<Id, nat>, depths': map<Id, nat>, maxDepth: nat, item: Item,
                          edgeIds: set<Id>, tokens: nat, budget: nat, rootCost: nat, hops: seq<Hop>, admitted: seq<Hop>,
                          refused: bool)
    requires DistinctIds(g) && item.id !in depths && depths' == depths[item.id := item.depth] && item.depth < maxDepth
    requires depths'.Keys <= NodesById(g.nodes).Keys
    requires Accounts(g, depths.Keys + {item.id}, Explored(depths, maxDepth), edgeIds, tokens, budget, rootCost, refused)
    requires ChosenTouch(g.edges, Explored(depths, maxDepth), edgeIds, refused)
    requires forall h :: h in hops <==> h.edge in g.edges && Joins(h.edge, item.id, h.nodeId)
    requires CostOfHops(hops) == Incidence(g.edges, {item.id})
    requires Admits(hops, admitted, tokens, budget)
    ensures Accounts(g, depths'.Keys, Explored(depths', maxDepth), edgeIds + EdgeIdsOf(admitted),
                     tokens + CostOfHops(admitted), budget, rootCost, refused || admitted != hops)
    ensures ChosenTouch(g.edges, Explored(depths', maxDepth), edgeIds + EdgeIdsOf(admitted), refused || admitted != hops)
  {
    var explored := Explored(depths, maxDepth);
    ExploredGrows(depths, maxDepth, item.id, item.depth);
    assert Explored(depths', maxDepth) == explored + {item.id};
    ExpansionKeepsTouch(g.edges, explored, edgeIds, refused, item.id, hops, admitted);
    ExpansionKeepsAccounts(g, depths.Keys + {item.id}, explored, edgeIds, tokens, budget, rootCost, refused, item.id, hops,
                           admitted);
  }

  lemma RootStaysRoot(g: FactGraph, r: Relation, root: Id, budget: nat, maxDepth: nat, s: Search)
    requires Exploring(g, r, root, budget, maxDepth, s) && AdmitsHead(g, budget, s)
    ensures var depths' := s.depths[s.queue[0].id := s.queue[0].depth];
            root in depths' && depths'[root] == 0
  {
  }

  lemma LastVisitKeepsExploring(g: FactGraph, r: Relation, root: Id, budget: nat, maxDepth: nat, s: Search, lead: Lead)
    requires DistinctIds(g) && Exploring(g, r, root, budget, maxDepth, s) && AdmitsHead(g, budget, s)
    requires s.queue[0].depth >= maxDepth
    requires Justifies(g.edges, root, s.edgeIds, s.depths, lead, s.queue[0].id, s.queue[0].depth)
    ensures var cost := TokenEstimate(NodesById(g.nodes)[s.queue[0].id].jsonLength);
            Exploring(g, r, root, budget, maxDepth, Visited(s, lead, cost))
  {
    var item := s.queue[0];
    var cost := TokenEstimate(NodesById(g.nodes)[item.id].jsonLength);
    var s' := Visited(s, lead, cost);
    VisitKeepsLed(g.edges, root, s, lead, cost, s');
    VisitKeepsOrder(s.queue, s.depths, maxDepth);
    HeadIsAccounted(g, r, root, budget, maxDepth, s);
    LastVisitAccounts(g, s.depths, s'.depths, maxDepth, item, s.edgeIds, s'.tokens, budget, RootCost(g, root),
                      s.refused);
    RootStaysRoot(g, r, root, budget, maxDepth, s);
    if !s.refused {
      LastVisitSettles(r, s.queue, s.depths, maxDepth);
    }
  }

  lemma ExpansionOrders(queue: seq<Item>, depths: map<Id, nat>, maxDepth: nat, more: seq<Item>)
    requires |queue| > 0 && Ordered(queue, depths, maxDepth) && queue[0].id !in depths && queue[0].depth < maxDepth
    requires forall item :: item in more ==> item.depth == queue[0].depth + 1
    ensures Ordered(queue[1..] + more, depths[queue[0].id := queue[0].depth], maxDepth)
  {
    var rest, d := queue[1..], queue[0].depth;
    DropKeepsOrder(queue, depths, maxDepth);
    LayeredAppends(rest, d, d + 1, more);
    var next := rest + more;
    assert forall item :: item in next ==> item in rest || item in more;
    if next != [] {
      assert next[0] in next;
      assert d <= next[0].depth;
      LayeredWidens(next, d, d + 1, HeadDepth(next), HeadDepth(next) + 1);
    }
    assert queue[0] in queue;
  }

  lemma ExploreKeepsLed(edges: seq<FactEdge>, root: Id, s: Search, lead: Lead, cost: nat, hops: seq<Hop>,
                        admitted: seq<Hop>, s': Search)
    requires Led(edges, root, s) && |s.queue| > 0 && s.queue[0].id !in s.depths
    requires Justifies(edges, root, s.edgeIds, s.depths, lead, s.queue[0].id, s.queue[0].depth)
    requires forall h :: h in hops ==> h.edge in edges && Joins(h.edge, s.queue[0].id, h.nodeId)
    requires forall h :: h in admitted ==> h in hops
    requires s' == Expanded(Visited(s, lead, cost), s.queue[0], admitted, admitted != hops)
    ensures Led(edges, root, s')
  {
    var visited := Visited(s, lead, cost);
    VisitKeepsLed(edges, root, s, lead, cost, visited);
    ExpansionKeepsLed(edges, root, visited, s.queue[0], admitted, admitted != hops);
  }

  lemma ExploreKeepsQueue(r: Relation, maxDepth: nat, s: Search, lead: Lead, cost: nat, hops: seq<Hop>,
                          admitted: seq<Hop>, s': Search)
    requires |s.queue| > 0 && s.queue[0].id !in s.depths && s.queue[0].depth < maxDepth
    requires Ordered(s.queue, s.depths, maxDepth) && (!s.refused ==> SettledBut(r, s.depths, s.queue, maxDepth))
    requires forall y :: (s.queue[0].id, y) in r ==> exists h :: h in hops && h.nodeId == y
    requires s' == Expanded(Visited(s, lead, cost), s.queue[0], admitted, admitted != hops)
    ensures Ordered(s'.queue, s'.depths, maxDepth)
    ensures !s'.refused ==> SettledBut(r, s'.depths, s'.queue, maxDepth)
  {
    ExpansionOrders(s.queue, s.depths, maxDepth, ItemsOf(admitted, s.queue[0].depth + 1));
    if !s'.refused {
      ExpansionSettles(r, s.queue, s.depths, maxDepth, hops, s'.queue);
    }
  }

  lemma ExploreKeepsAccounts(g: FactGraph, r: Relation, root: Id, budget: nat, maxDepth: nat, s: Search, lead: Lead,
                             hops: seq<Hop>, cost: nat, admitted: seq<Hop>, s': Search)
    requires DistinctIds(g) && Exploring(g, r, root, budget, maxDepth, s) && AdmitsHead(g, budget, s)
    requires s.queue[0].depth < maxDepth
    requires forall h :: h in hops <==> h.edge in g.edges && Joins(h.edge, s.queue[0].id, h.nodeId)
    requires CostOfHops(hops) == Incidence(g.edges, {s.queue[0].id})
    requires cost == TokenEstimate(NodesById(g.nodes)[s.queue[0].id].jsonLength)
    requires Admits(hops, admitted, s.tokens + cost, budget)
    requires Justifies(g.edges, root, s.edgeIds, s.depths, lead, s.queue[0].id, s.queue[0].depth)
    requires s' == Expanded(Visited(s, lead, cost), s.queue[0], admitted, admitted != hops)
    ensures ChosenTouch(g.edges, Explored(s'.depths, maxDepth), s'.edgeIds, s'.refused)
    ensures Accounts(g, s'.depths.Keys, Explored(s'.depths, maxDepth), s'.edgeIds, s'.tokens, budget, RootCost(g, root), s'.refused)
    ensures Fits(g, root, budget, maxDepth) ==> !s'.refused
    ensures root in s'.depths && s'.depths[root] == 0
  {
    HeadIsAccounted(g, r, root, budget, maxDepth, s);
    ExpansionAccounts(g, s.depths, s'.depths, maxDepth, s.queue[0], s.edgeIds, s.tokens + cost, budget, RootCost(g, root),
                      hops, admitted, s.refused);
    RootStaysRoot(g, r, root, budget, maxDepth, s);
    if Fits(g, root, budget, maxDepth) {
      HeadIsWithin(g, r, root, budget, maxDepth, s, lead);
      HopsFit(g, root, budget, maxDepth, s.depths.Keys + {s.queue[0].id}, Explored(s.depths, maxDepth), s.edgeIds,
              s.tokens + cost, s.refused, s.queue[0].id, hops, admitted);
    }
  }

  // ---------------------------------------------------------------- what a finished search has found

  /** The whole neighbourhood: every node within the depth, and every edge at a node strictly nearer. */
  ghost predicate IsWholeNeighborhood(g: FactGraph, root: Id, maxDepth: nat, nodeIds: set<Id>, edgeIds: set<Id>) {
    && nodeIds == Ball(NodeLinks(g), root, maxDepth)
    && edgeIds == set e | e in g.edges && Touches(e, Near(g, root, maxDepth)) :: e.id
  }

  lemma ChosenEdgesAreLinks(g: FactGraph, edgeIds: set<Id>, x: Id, y: Id, e: FactEdge)
    requires e in g.edges && e.id in edgeIds && Joins(e, x, y)
    ensures (x, y) in ChosenLinks(g, edgeIds)
  {
  }

  /** Whatever the budget refused, every chosen node is joined to the root by at most `maxDepth` chosen edges. */
  lemma FoundIsJoined(g: FactGraph, r: Relation, root: Id, budget: nat, maxDepth: nat, s: Search)
    requires Exploring(g, r, root, budget, maxDepth, s)
    ensures s.depths.Keys <= Ball(ChosenLinks(g, s.edgeIds), root, maxDepth)
  {
    if s.depths != map[] {
      var links := ChosenLinks(g, s.edgeIds);
      forall e, x, y | e in g.edges && e.id in s.edgeIds && Joins(e, x, y) && x in s.depths && y in s.depths
        ensures (x, y) in links
      {
        ChosenEdgesAreLinks(g, s.edgeIds, x, y, e);
      }
      LedMeansDiscovered(g.edges, root, s, links);
      DiscoveredWithin(links, s.depths, root, ParentsOf(s.via), maxDepth);
    }
  }

  lemma EmptyQueueSettles(links: Relation, depths: map<Id, nat>, maxDepth: nat)
    requires SettledBut(links, depths, [], maxDepth)
    ensures Settled(links, depths, maxDepth)
  {
    forall e | e in links && e.0 in depths && depths[e.0] < maxDepth
      ensures e.1 in depths && depths[e.1] <= depths[e.0] + 1
    {
      assert (e.0, e.1) in links;
    }
  }

  lemma ExploredIsNear(links: Relation, depths: map<Id, nat>, root: Id, parent: map<Id, Id>, maxDepth: nat)
    requires DiscoveredFrom(links, depths, root, parent) && Settled(links, depths, maxDepth)
    ensures Explored(depths, maxDepth) == if maxDepth == 0 then {} else Ball(links, root, maxDepth - 1)
  {
    ExploredNearer(links, depths, root, parent, maxDepth);
    if maxDepth > 0 {
      SettledCoversBall(links, depths, root, maxDepth, maxDepth - 1);
    }
  }

  lemma UnrefusedIsWhole(g: FactGraph, root: Id, budget: nat, maxDepth: nat, s: Search)
    requires Exploring(g, NodeLinks(g), root, budget, maxDepth, s) && s.queue == [] && !s.refused
    requires root in NodesById(g.nodes)
    ensures IsWholeNeighborhood(g, root, maxDepth, s.depths.Keys, s.edgeIds)
    ensures s.tokens == WholeCost(g, root, maxDepth)
  {
    var links := NodeLinks(g);
    SearchIsDiscovered(g, root, s);
    EmptyQueueSettles(links, s.depths, maxDepth);
    SearchIsExact(links, s.depths, root, ParentsOf(s.via), maxDepth);
    ExploredIsNear(links, s.depths, root, ParentsOf(s.via), maxDepth);
    TouchingEdges(g.edges, Explored(s.depths, maxDepth), s.edgeIds);
  }

  lemma TouchingEdges(edges: seq<FactEdge>, explored: set<Id>, edgeIds: set<Id>)
    requires ChosenTouch(edges, explored, edgeIds, false)
    ensures edgeIds == set e | e in edges && Touches(e, explored) :: e.id
  {
    forall id | id in edgeIds
      ensures exists e :: e in edges && Touches(e, explored) && e.id == id
    {
      var e :| e in edges && e.id == id;
      assert Touches(e, explored);
    }
  }

  // ---------------------------------------------------------------- the search

  lemma OneMoreAdmitted(admitted: seq<Hop>, hop: Hop, depth: nat) returns (more: seq<Hop>)
    ensures more == admitted + [hop]
    ensures EdgeIdsOf(more) == EdgeIdsOf(admitted) + {hop.edge.id}
    ensures CostOfHops(more) == CostOfHops(admitted) + TokenEstimate(hop.edge.jsonLength)
    ensures ItemsOf(more, depth) == ItemsOf(admitted, depth) + [Item(hop.nodeId, depth)]
  {
    more := admitted + [hop];
    assert more[..|admitted|] == admitted;
  }

  /** The inner loop: each hop is admitted, with its edge, while the budget lasts. */
  method AdmitHops(hops: seq<Hop>, depth: nat, budget: nat, edgeIds0: set<Id>, tokens0: nat, queue0: seq<Item>)
    returns (edgeIds: set<Id>, tokens: nat, queue: seq<Item>, ghost admitted: seq<Hop>)
    ensures admitted == Admitted(hops, tokens0, budget)
    ensures edgeIds == edgeIds0 + EdgeIdsOf(admitted) && tokens == tokens0 + CostOfHops(admitted)
    ensures queue == queue0 + ItemsOf(admitted, depth)
  {
    edgeIds, tokens, queue, admitted := edgeIds0, tokens0, queue0, [];
    for i := 0 to |hops|
      invariant admitted == Admitted(hops[..i], tokens0, budget)
      invariant edgeIds == edgeIds0 + EdgeIdsOf(admitted) && tokens == tokens0 + CostOfHops(admitted)
      invariant queue == queue0 + ItemsOf(admitted, depth)
    {
      var hop := hops[i];
      assert hops[..i + 1][..i] == hops[..i];
      var cost := TokenEstimate(hop.edge.jsonLength);
      if tokens + cost <= budget {
        edgeIds := edgeIds + {hop.edge.id};
        tokens := tokens + cost;
        queue := queue + [Item(hop.nodeId, depth)];
        admitted := OneMoreAdmitted(admitted, hop, depth);
      }
    }
    assert hops[..|hops|] == hops;
  }

  /** What admitting some of the hops, to be queued at `depth`, makes of the search variables. */
  ghost predicate Gathers(hops: seq<Hop>, admitted: seq<Hop>, depth: nat, budget: nat,
                          edgeIds0: set<Id>, tokens0: nat, queue0: seq<Item>,
                          edgeIds: set<Id>, tokens: nat, queue: seq<Item>) {
    && Admits(hops, admitted, tokens0, budget)
    && edgeIds == edgeIds0 + EdgeIdsOf(admitted)
    && tokens == tokens0 + CostOfHops(admitted)
    && queue == queue0 + ItemsOf(admitted, depth)
  }

  method AdmitWithin(hops: seq<Hop>, depth: nat, budget: nat, edgeIds0: set<Id>, tokens0: nat, queue0: seq<Item>)
    returns (edgeIds: set<Id>, tokens: nat, queue: seq<Item>, ghost admitted: seq<Hop>)
    ensures Gathers(hops, admitted, depth, budget, edgeIds0, tokens0, queue0, edgeIds, tokens, queue)
  {
    AdmittedWithin(hops, tokens0, budget);
    edgeIds, tokens, queue, admitted := AdmitHops(hops, depth, budget, edgeIds0, tokens0, queue0);
  }

  ghost predicate Covers(g: FactGraph, adjacency: Adjacency, r: Relation) {
    && (forall e :: e in r ==> e.1 in NodesById(g.nodes).Keys)
    && forall id :: HopsOf(g, r, id, HopsFrom(adjacency, id))
  }

  lemma HopsCover(g: FactGraph, id: Id, hops: seq<Hop>)
    requires hops == HopsAt(g.edges, id)
    ensures HopsOf(g, NodeLinks(g), id, hops)
  {
    HopsCost(g.edges, id);
    forall h
      ensures h in hops <==> h.edge in g.edges && Joins(h.edge, id, h.nodeId)
    {
      HopsAreEnds(g.edges, id, h);
    }
    forall y | (id, y) in NodeLinks(g)
      ensures exists h :: h in hops && h.nodeId == y
    {
      var e :| e in g.edges && Joins(e, id, y);
      assert Hop(e, y) in hops;
    }
  }

  lemma HopsCoverLinks(g: FactGraph, adjacency: Adjacency)
    requires Indexes(adjacency, g.edges)
    ensures Covers(g, adjacency, NodeLinks(g))
  {
    forall id
      ensures HopsOf(g, NodeLinks(g), id, HopsFrom(adjacency, id))
    {
      HopsCover(g, id, HopsFrom(adjacency, id));
    }
  }

  lemma NothingFound(g: FactGraph, maxDepth: nat, budget: nat, rootCost: nat, none: map<Id, nat>)
    requires none == map[]
    ensures Accounts(g, none.Keys, Explored(none, maxDepth), {}, 0, budget, rootCost, false)
    ensures ChosenTouch(g.edges, Explored(none, maxDepth), {}, false)
  {
    CostOfNothing(g);
    assert none.Keys == {} && Explored(none, maxDepth) == {};
  }

  lemma SearchStarts(g: FactGraph, r: Relation, root: Id, budget: nat, maxDepth: nat, s: Search)
    requires s == Search([Item(root, 0)], map[], map[], {}, 0, false)
    ensures Exploring(g, r, root, budget, maxDepth, s)
  {
    NothingFound(g, maxDepth, budget, RootCost(g, root), s.depths);
    assert Justifies(g.edges, root, s.edgeIds, s.depths, Start, root, 0);
  }

  lemma HeadIsJustified(edges: seq<FactEdge>, root: Id, s: Search) returns (lead: Lead)
    requires Led(edges, root, s) && |s.queue| > 0
    ensures Justifies(edges, root, s.edgeIds, s.depths, lead, s.queue[0].id, s.queue[0].depth)
  {
    assert s.queue[0] in s.queue;
    lead :| Justifies(edges, root, s.edgeIds, s.depths, lead, s.queue[0].id, s.queue[0].depth);
  }

  lemma RefusesHead(g: FactGraph, r: Relation, root: Id, budget: nat, maxDepth: nat, s: Search)
    requires DistinctIds(g) && Exploring(g, r, root, budget, maxDepth, s) && |s.queue| > 0 && s.depths != map[]
    requires s.queue[0].id !in s.depths && s.queue[0].id in NodesById(g.nodes)
    requires s.tokens + TokenEstimate(NodesById(g.nodes)[s.queue[0].id].jsonLength) > budget
    ensures Exploring(g, r, root, budget, maxDepth, Dropped(s).(refused := true))
  {
    if Fits(g, root, budget, maxDepth) {
      var lead := HeadIsJustified(g.edges, root, s);
      HeadIsWithin(g, r, root, budget, maxDepth, s, lead);
      NodeFits(g, root, budget, maxDepth, s.depths.Keys, Explored(s.depths, maxDepth), s.edgeIds, s.tokens, s.refused,
               NodesById(g.nodes)[s.queue[0].id]);
    }
    RefusalKeepsExploring(g, r, root, budget, maxDepth, s);
  }

  /** The hops of a node: one for each of its edge ends, covering every link from it. */
  ghost predicate HopsOf(g: FactGraph, r: Relation, id: Id, hops: seq<Hop>) {
    && (forall h :: h in hops <==> h.edge in g.edges && Joins(h.edge, id, h.nodeId))
    && CostOfHops(hops) == Incidence(g.edges, {id})
    && forall y :: (id, y) in r ==> exists h :: h in hops && h.nodeId == y
  }

  /** What the search keeps in its variables of the recorded search `s`. */
  ghost predicate Shows(s: Search, queue: seq<Item>, nodeIds: set<Id>, edgeIds: set<Id>, tokens: nat) {
    s.queue == queue && s.depths.Keys == nodeIds && s.edgeIds == edgeIds && s.tokens == tokens
  }

  lemma HeadExpanded(s: Search, lead: Lead, cost: nat, hops: seq<Hop>, admitted: seq<Hop>, depth: nat, budget: nat,
                     edgeIds0: set<Id>, tokens0: nat, queue0: seq<Item>, edgeIds: set<Id>, tokens: nat, queue: seq<Item>)
    returns (s': Search)
    requires |s.queue| > 0 && depth == s.queue[0].depth + 1
    requires queue0 == s.queue[1..] && edgeIds0 == s.edgeIds && tokens0 == s.tokens + cost
    requires Gathers(hops, admitted, depth, budget, edgeIds0, tokens0, queue0, edgeIds, tokens, queue)
    ensures s' == Expanded(Visited(s, lead, cost), s.queue[0], admitted, admitted != hops)
    ensures Shows(s', queue, s.depths.Keys + {s.queue[0].id}, edgeIds, tokens)
  {
    s' := Expanded(Visited(s, lead, cost), s.queue[0], admitted, admitted != hops);
    assert s'.depths.Keys == s.depths.Keys + {s.queue[0].id};
  }

  lemma HeadExplored(g: FactGraph, r: Relation, root: Id, budget: nat, maxDepth: nat, s: Search, hops: seq<Hop>,
                     cost: nat, admitted: seq<Hop>, depth: nat,
                     edgeIds0: set<Id>, tokens0: nat, queue0: seq<Item>, edgeIds: set<Id>, tokens: nat, queue: seq<Item>)
    returns (s': Search)
    requires DistinctIds(g) && Exploring(g, r, root, budget, maxDepth, s) && AdmitsHead(g, budget, s)
    requires s.queue[0].depth < maxDepth && HopsOf(g, r, s.queue[0].id, hops)
    requires cost == TokenEstimate(NodesById(g.nodes)[s.queue[0].id].jsonLength)
    requires depth == s.queue[0].depth + 1
    requires queue0 == s.queue[1..] && edgeIds0 == s.edgeIds && tokens0 == s.tokens + cost
    requires Gathers(hops, admitted, depth, budget, edgeIds0, tokens0, queue0, edgeIds, tokens, queue)
    ensures Exploring(g, r, root, budget, maxDepth, s')
    ensures Shows(s', queue, s.depths.Keys + {s.queue[0].id}, edgeIds, tokens)
  {
    var lead := HeadIsJustified(g.edges, root, s);
    s' := HeadExpanded(s, lead, cost, hops, admitted, depth, budget, edgeIds0, tokens0, queue0, edgeIds, tokens, queue);
    ExploreKeepsLed(g.edges, root, s, lead, cost, hops, admitted, s');
    ExploreKeepsQueue(r, maxDepth, s, lead, cost, hops, admitted, s');
    ExploreKeepsAccounts(g, r, root, budget, maxDepth, s, lead, hops, cost, admitted, s');
  }

  lemma HeadVisited(g: FactGraph, r: Relation, root: Id, budget: nat, maxDepth: nat, s: Search, cost: nat) returns (s': Search)
    requires DistinctIds(g) && Exploring(g, r, root, budget, maxDepth, s) && AdmitsHead(g, budget, s)
    requires s.queue[0].depth >= maxDepth && cost == TokenEstimate(NodesById(g.nodes)[s.queue[0].id].jsonLength)
    ensures Exploring(g, r, root, budget, maxDepth, s')
    ensures Shows(s', s.queue[1..], s.depths.Keys + {s.queue[0].id}, s.edgeIds, s.tokens + cost)
  {
    var lead := HeadIsJustified(g.edges, root, s);
    LastVisitKeepsExploring(g, r, root, budget, maxDepth, s, lead);
    ExploredGrows(s.depths, maxDepth, s.queue[0].id, s.queue[0].depth);
    s' := Visited(s, lead, cost);
  }

  lemma HeadDropped(g: FactGraph, adjacency: Adjacency, r: Relation, root: Id, budget: nat, maxDepth: nat, s: Search) returns (s': Search)
    requires DistinctIds(g) && Exploring(g, r, root, budget, maxDepth, s) && |s.queue| > 0
    requires Covers(g, adjacency, r)
    requires s.queue[0].id !in s.depths && s.queue[0].id in NodesById(g.nodes) ==>
               s.depths != map[] && s.tokens + TokenEstimate(NodesById(g.nodes)[s.queue[0].id].jsonLength) > budget
    ensures Exploring(g, r, root, budget, maxDepth, s')
    ensures Shows(s', s.queue[1..], s.depths.Keys, s.edgeIds, s.tokens)
  {
    if s.queue[0].id in s.depths || s.queue[0].id !in NodesById(g.nodes) {
      DropKeepsExploring(g, r, root, budget, maxDepth, s);
      s' := Dropped(s);
    } else {
      RefusesHead(g, r, root, budget, maxDepth, s);
      s' := Dropped(s).(refused := true);
    }
  }

  /** Admits the head of the queue and what the budget allows of its hops. */
  method ExpandHead(g: FactGraph, ghost r: Relation, ghost root: Id, budget: nat, ghost maxDepth: nat, ghost s: Search,
                    current: Item, hops: seq<Hop>, ghost cost: nat, queue0: seq<Item>, edgeIds0: set<Id>, tokens0: nat)
    returns (queue: seq<Item>, edgeIds: set<Id>, tokens: nat, ghost s': Search)
    requires DistinctIds(g) && Exploring(g, r, root, budget, maxDepth, s) && AdmitsHead(g, budget, s)
    requires current == s.queue[0] && s.queue[0].depth < maxDepth && HopsOf(g, r, s.queue[0].id, hops)
    requires cost == TokenEstimate(NodesById(g.nodes)[s.queue[0].id].jsonLength)
    requires queue0 == s.queue[1..] && edgeIds0 == s.edgeIds && tokens0 == s.tokens + cost
    ensures Exploring(g, r, root, budget, maxDepth, s')
    ensures Shows(s', queue, s.depths.Keys + {s.queue[0].id}, edgeIds, tokens)
  {
    var depth := current.depth + 1;
    ghost var admitted;
    edgeIds, tokens, queue, admitted := AdmitWithin(hops, depth, budget, edgeIds0, tokens0, queue0);
    s' := HeadExplored(g, r, root, budget, maxDepth, s, hops, cost, admitted, depth, edgeIds0, tokens0, queue0,
                       edgeIds, tokens, queue);
  }

  /** One iteration. */
  method ExploreHead(g: FactGraph, byId: map<Id, FactNode>, adjacency: Adjacency, ghost r: Relation, ghost root: Id,
                     budget: nat, maxDepth: nat, ghost s: Search,
                     queue0: seq<Item>, nodeIds0: set<Id>, edgeIds0: set<Id>, tokens0: nat)
    returns (queue: seq<Item>, nodeIds: set<Id>, edgeIds: set<Id>, tokens: nat, ghost s': Search)
    requires DistinctIds(g) && byId == NodesById(g.nodes) && Covers(g, adjacency, r)
    requires Exploring(g, r, root, budget, maxDepth, s) && Shows(s, queue0, nodeIds0, edgeIds0, tokens0) && |queue0| > 0
    ensures Exploring(g, r, root, budget, maxDepth, s') && Shows(s', queue, nodeIds, edgeIds, tokens)
    ensures (nodeIds == nodeIds0 && |queue| < |queue0|) || nodeIds0 < nodeIds <= byId.Keys
  {
    var current := queue0[0];
    queue, nodeIds, edgeIds, tokens := queue0[1..], nodeIds0, edgeIds0, tokens0;
    if current.id in nodeIds || current.id !in byId {
      s' := HeadDropped(g, adjacency, r, root, budget, maxDepth, s);
      return;
    }
    var addition := TokenEstimate(byId[current.id].jsonLength);
    if nodeIds != {} && tokens + addition > budget {
      s' := HeadDropped(g, adjacency, r, root, budget, maxDepth, s);
      return;
    }
    nodeIds := nodeIds + {current.id};
    tokens := tokens + addition;
    if current.depth >= maxDepth {
      s' := HeadVisited(g, r, root, budget, maxDepth, s, addition);
      return;
    }
    queue, edgeIds, tokens, s' := ExpandHead(g, r, root, budget, maxDepth, s, current, HopsFrom(adjacency, current.id),
                                             addition, queue, edgeIds, tokens);
  }

  method Explore(g: FactGraph, byId: map<Id, FactNode>, adjacency: Adjacency, ghost r: Relation,
                 root: Id, budget: nat, maxDepth: nat)
    returns (nodeIds: set<Id>, edgeIds: set<Id>, tokens: nat, ghost s: Search)
    requires DistinctIds(g) && byId == NodesById(g.nodes) && Covers(g, adjacency, r)
    ensures Exploring(g, r, root, budget, maxDepth, s) && s.queue == []
    ensures s.depths.Keys == nodeIds && s.edgeIds == edgeIds && s.tokens == tokens
  {
    var queue := [Item(root, 0)];
    nodeIds, edgeIds, tokens, s := {}, {}, 0, Search(queue, map[], map[], {}, 0, false);
    SearchStarts(g, r, root, budget, maxDepth, s);
    while |queue| > 0
      invariant Exploring(g, r, root, budget, maxDepth, s) && Shows(s, queue, nodeIds, edgeIds, tokens)
      decreases byId.Keys - nodeIds, |queue|
    {
      queue, nodeIds, edgeIds, tokens, s :=
        ExploreHead(g, byId, adjacency, r, root, budget, maxDepth, s, queue, nodeIds, edgeIds, tokens);
    }
  }

  method BoundedNeighborhood(g: FactGraph, byId: map<Id, FactNode>, adjacency: Adjacency, root: Id, budget: nat, maxDepth: nat)
    returns (nodeIds: set<Id>, edgeIds: set<Id>, tokens: nat, ghost refused: bool)
    requires DistinctIds(g) && byId == NodesById(g.nodes) && Indexes(adjacency, g.edges)
    // never more than the budget, unless the root alone exceeds it
    ensures tokens <= budget || tokens <= RootCost(g, root)
    // the total covers everything chosen
    ensures CostOfNodes(g.nodes, nodeIds) + CostOfEdges(g.edges, edgeIds) <= tokens
    // an existing root is always chosen; an unknown root has no neighbourhood
    ensures nodeIds <= byId.Keys && (root in byId <==> root in nodeIds) && (root !in byId ==> nodeIds == {})
    // whatever was refused, the chosen edges join the chosen nodes to the root
    ensures nodeIds <= Ball(ChosenLinks(g, edgeIds), root, maxDepth)
    // if nothing was refused, this is the whole neighbourhood, counted with its edges from each nearer end
    ensures !refused && root in byId ==>
              IsWholeNeighborhood(g, root, maxDepth, nodeIds, edgeIds) && tokens == WholeCost(g, root, maxDepth)
    // and nothing is refused exactly if it fits
    ensures !refused <==> root !in byId || Fits(g, root, budget, maxDepth)
  {
    HopsCoverLinks(g, adjacency);
    ghost var s: Search;
    nodeIds, edgeIds, tokens, s := Explore(g, byId, adjacency, NodeLinks(g), root, budget, maxDepth);
    refused := s.refused;
    FoundIsJoined(g, NodeLinks(g), root, budget, maxDepth, s);
    if !refused && root in byId {
      UnrefusedIsWhole(g, root, budget, maxDepth, s);
    }
  }
}
