/**
 Selection of the analysis work units: fingerprints of the facts, what changed since a baseline, and which bounded
 neighbourhoods have to be analysed again.
 */
module IncrementalSelection {
  import opened FactGraphs
  import opened FactNeighborhood
  import opened Graphs
  import opened Sorting

  /** Fingerprint keys: one for a node, one for the two ends and the predicate of an edge. */
  datatype Key = NodeKey(id: Id) | EdgeKey(subject: Id, predicate_: string, object_: Id)

  /** Content ids of semantic content: an injective digest is the content itself. */
  datatype Digest = NodeDigest(semantic: string) | EdgeDigest(semantic: string)

  type Fingerprint = map<Key, Digest>

  datatype BaselineResult = NoBaseline | WithoutFingerprint | WithFingerprint(fingerprint: Fingerprint)

  datatype Mode = FULL | INCREMENTAL | AUTO

  const MAXIMUM_DEPTH := 5

  function EdgeKeyOf(e: FactEdge): Key {
    EdgeKey(e.subject, e.predicate_, e.object_)
  }

  /** Entries in graph order; of two edges with one key the later entry stays. */
  function NodePrints(nodes: seq<FactNode>): Fingerprint {
    if nodes == [] then map[]
    else
      var last := nodes[|nodes| - 1];
      NodePrints(nodes[..|nodes| - 1])[NodeKey(last.id) := NodeDigest(last.semantic)]
  }

  function EdgePrints(edges: seq<FactEdge>): Fingerprint {
    if edges == [] then map[]
    else
      var last := edges[|edges| - 1];
      EdgePrints(edges[..|edges| - 1])[EdgeKeyOf(last) := EdgeDigest(last.semantic)]
  }

  function FactFingerprint(g: FactGraph): Fingerprint {
    NodePrints(g.nodes) + EdgePrints(g.edges)
  }

  /** The nodes a changed key stands for; the two ends of an edge, unless blank. */
  function AffectedStableIds(key: Key): set<Id> {
    match key
    case NodeKey(id) => {id}
    case EdgeKey(subject, _, object_) => {subject, object_} - {Id("")}
  }

  predicate SameEntry(current: Fingerprint, baseline: Fingerprint, key: Key) {
    (key in current <==> key in baseline) && (key in current && key in baseline ==> current[key] == baseline[key])
  }

  function ChangedStableIds(current: Fingerprint, baseline: BaselineResult): set<Id> {
    match baseline
    case WithFingerprint(fingerprint) =>
      set key, id | key in current.Keys + fingerprint.Keys && !SameEntry(current, fingerprint, key)
                    && id in AffectedStableIds(key) :: id
    case _ => set key, id | key in current.Keys && id in AffectedStableIds(key) :: id
  }

  function EffectiveMode(mode: Mode, baseline: BaselineResult): Mode {
    if mode == AUTO then (if baseline.NoBaseline? then FULL else INCREMENTAL) else mode
  }

  datatype WorkUnit = WorkUnit(root: Id, nodeIds: set<Id>, edgeIds: set<Id>, tokens: nat)

  predicate IsSelected(unit: WorkUnit, mode: Mode, baseline: BaselineResult, changes: set<Id>) {
    mode == FULL || baseline.NoBaseline? || unit.nodeIds * changes != {} || unit.edgeIds * changes != {}
  }

  function Selected(units: seq<WorkUnit>, mode: Mode, baseline: BaselineResult, changes: set<Id>): (selected: seq<WorkUnit>)
    ensures |selected| <= |units|
    ensures forall unit :: unit in selected <==> unit in units && IsSelected(unit, mode, baseline, changes)
  {
    if units == [] then []
    else
      var rest := Selected(units[1..], mode, baseline, changes);
      assert units == [units[0]] + units[1..];
      if IsSelected(units[0], mode, baseline, changes) then [units[0]] + rest else rest
  }

  datatype Plan = Plan(effectiveMode: Mode, changes: set<Id>, workUnits: seq<WorkUnit>, unchangedWorkUnitCount: nat,
                       fingerprint: Fingerprint)

  /** The unit of a root: its neighbourhood, whole unless the budget refused something. */
  ghost predicate IsUnitOf(g: FactGraph, root: Id, budget: nat, unit: WorkUnit, refused: bool) {
    && unit.root == root && root in unit.nodeIds
    && (!refused ==> IsWholeNeighborhood(g, root, MAXIMUM_DEPTH, unit.nodeIds, unit.edgeIds))
    && (!refused <==> Fits(g, root, budget, MAXIMUM_DEPTH))
  }

  method UnitOf(g: FactGraph, byId: map<Id, FactNode>, adjacency: Adjacency, root: Id, budget: nat)
    returns (unit: WorkUnit, ghost refused: bool)
    requires DistinctIds(g) && byId == NodesById(g.nodes) && Indexes(adjacency, g.edges) && root in byId
    ensures IsUnitOf(g, root, budget, unit, refused)
  {
    var nodeIds, edgeIds, tokens, over := BoundedNeighborhood(g, byId, adjacency, root, budget, MAXIMUM_DEPTH);
    unit, refused := WorkUnit(root, nodeIds, edgeIds, tokens), over;
  }

  /** The units of the first `n` roots. */
  ghost predicate AreUnitsOf(g: FactGraph, roots: seq<Id>, n: nat, budget: nat, units: seq<WorkUnit>, refused: seq<bool>) {
    && |units| == |refused| == n <= |roots|
    && forall i :: 0 <= i < n ==> IsUnitOf(g, roots[i], budget, units[i], refused[i])
  }

  lemma OneMoreUnit(g: FactGraph, roots: seq<Id>, n: nat, budget: nat, units: seq<WorkUnit>, refused: seq<bool>,
                    unit: WorkUnit, over: bool)
    requires AreUnitsOf(g, roots, n, budget, units, refused) && n < |roots| && IsUnitOf(g, roots[n], budget, unit, over)
    ensures AreUnitsOf(g, roots, n + 1, budget, units + [unit], refused + [over])
  {
  }

  method UnitsOf(g: FactGraph, roots: seq<Id>, budget: nat) returns (units: seq<WorkUnit>, ghost refused: seq<bool>)
    requires DistinctIds(g) && forall i :: 0 <= i < |roots| ==> roots[i] in NodeIds(g)
    ensures AreUnitsOf(g, roots, |roots|, budget, units, refused)
  {
    var byId, adjacency := GraphIndexes(g);
    units, refused := [], [];
    for i := 0 to |roots|
      invariant AreUnitsOf(g, roots, i, budget, units, refused)
    {
      var unit, over := UnitOf(g, byId, adjacency, roots[i], budget);
      OneMoreUnit(g, roots, i, budget, units, refused, unit, over);
      units, refused := units + [unit], refused + [over];
    }
  }

  /** The units of all roots, of which the plan keeps the selected ones, in root order. */
  ghost predicate IsPlanOf(g: FactGraph, roots: seq<Id>, mode: Mode, baseline: BaselineResult, budget: nat,
                           plan: Plan, units: seq<WorkUnit>, refused: seq<bool>) {
    && AreUnitsOf(g, roots, |roots|, budget, units, refused)
    && plan.fingerprint == FactFingerprint(g) && plan.changes == ChangedStableIds(plan.fingerprint, baseline)
    && (plan.effectiveMode == FULL <==> mode == FULL || (mode == AUTO && baseline.NoBaseline?))
    && (plan.effectiveMode == FULL || plan.effectiveMode == INCREMENTAL)
    && plan.workUnits == Selected(units, plan.effectiveMode, baseline, plan.changes)
    && plan.unchangedWorkUnitCount + |plan.workUnits| == |roots|
  }

  method PlanWorkUnits(g: FactGraph, roots: seq<Id>, mode: Mode, baseline: BaselineResult, budget: nat)
    returns (plan: Plan, ghost units: seq<WorkUnit>, ghost refused: seq<bool>)
    requires DistinctIds(g) && forall i :: 0 <= i < |roots| ==> roots[i] in NodeIds(g)
    ensures IsPlanOf(g, roots, mode, baseline, budget, plan, units, refused)
  {
    var fingerprint := FactFingerprint(g);
    var changes := ChangedStableIds(fingerprint, baseline);
    var effective := EffectiveMode(mode, baseline);
    var allUnits;
    allUnits, refused := UnitsOf(g, roots, budget);
    units := allUnits;
    var selected := Selected(allUnits, effective, baseline, changes);
    plan := Plan(effective, changes, selected, |allUnits| - |selected|, fingerprint);
  }

  // ---------------------------------------------------------------- what a fingerprint says

  lemma {:induction false} NodePrintsAreNodes(nodes: seq<FactNode>)
    ensures forall key :: key in NodePrints(nodes) <==> exists n :: n in nodes && key == NodeKey(n.id)
    ensures (forall i, j :: 0 <= i < j < |nodes| ==> nodes[i].id != nodes[j].id) ==>
              forall n :: n in nodes ==> NodePrints(nodes)[NodeKey(n.id)] == NodeDigest(n.semantic)
  {
    if nodes != [] {
      var init, last := nodes[..|nodes| - 1], nodes[|nodes| - 1];
      assert nodes == init + [last];
      NodePrintsAreNodes(init);
      assert forall n :: n in nodes <==> n in init || n == last;
    }
  }

  lemma {:induction false} EdgePrintsAreEdges(edges: seq<FactEdge>)
    ensures forall key :: key in EdgePrints(edges) <==> exists e :: e in edges && key == EdgeKeyOf(e)
    ensures (forall i, j :: 0 <= i < j < |edges| ==> EdgeKeyOf(edges[i]) != EdgeKeyOf(edges[j])) ==>
              forall e :: e in edges ==> EdgePrints(edges)[EdgeKeyOf(e)] == EdgeDigest(e.semantic)
  {
    if edges != [] {
      var init, last := edges[..|edges| - 1], edges[|edges| - 1];
      assert edges == init + [last];
      EdgePrintsAreEdges(init);
      assert forall e :: e in edges <==> e in init || e == last;
    }
  }

  ghost predicate DistinctKeys(g: FactGraph) {
    forall i, j :: 0 <= i < j < |g.edges| ==> EdgeKeyOf(g.edges[i]) != EdgeKeyOf(g.edges[j])
  }

  /** The keys of the edges of a graph that touch `ids`. */
  ghost function KeysAt(g: FactGraph, ids: set<Id>): set<Key> {
    set e | e in g.edges && Touches(e, ids) :: EdgeKeyOf(e)
  }

  lemma FingerprintEntries(g: FactGraph)
    requires DistinctIds(g)
    ensures forall id :: NodeKey(id) in FactFingerprint(g) <==> id in NodeIds(g)
    ensures forall n :: n in g.nodes ==> FactFingerprint(g)[NodeKey(n.id)] == NodeDigest(n.semantic)
    ensures forall key: Key :: key.EdgeKey? ==> (key in FactFingerprint(g) <==> exists e :: e in g.edges && key == EdgeKeyOf(e))
    ensures DistinctKeys(g) ==> forall e :: e in g.edges ==> FactFingerprint(g)[EdgeKeyOf(e)] == EdgeDigest(e.semantic)
  {
    NodePrintsAreNodes(g.nodes);
    EdgePrintsAreEdges(g.edges);
  }

  // ---------------------------------------------------------------- a skipped unit is unchanged

  /** What fact bundles guarantee: distinct non-blank ids, and no edge to a node outside the graph. */
  ghost predicate WellFormed(g: FactGraph) {
    DistinctIds(g) && NoDanglingEdge(g) && Id("") !in NodeIds(g)
  }

  /** No entry that stands for one of `ids` differs between the two graphs. */
  ghost predicate UnchangedAt(g: FactGraph, g0: FactGraph, ids: set<Id>) {
    forall key, id :: id in ids && id in AffectedStableIds(key) ==>
      SameEntry(FactFingerprint(g), FactFingerprint(g0), key)
  }

  ghost function NodeContent(g: FactGraph, ids: set<Id>): set<(Id, string)> {
    set n | n in g.nodes && n.id in ids :: (n.id, n.semantic)
  }

  ghost function EdgeContent(g: FactGraph, edgeIds: set<Id>): set<(Key, string)> {
    set e | e in g.edges && e.id in edgeIds :: (EdgeKeyOf(e), e.semantic)
  }

  lemma SkippedMeansUnchanged(g: FactGraph, g0: FactGraph, ids: set<Id>)
    requires ids * ChangedStableIds(FactFingerprint(g), WithFingerprint(FactFingerprint(g0))) == {}
    ensures UnchangedAt(g, g0, ids)
  {
    var current, baseline := FactFingerprint(g), FactFingerprint(g0);
    forall key, id | id in ids && id in AffectedStableIds(key)
      ensures SameEntry(current, baseline, key)
    {
      assert id !in ChangedStableIds(current, WithFingerprint(baseline));
    }
  }

  /** An edge at an unchanged node has a counterpart with the same key in the other graph. */
  lemma CounterpartEdge(g: FactGraph, g0: FactGraph, ids: set<Id>, e: FactEdge) returns (e0: FactEdge)
    requires WellFormed(g) && WellFormed(g0) && UnchangedAt(g, g0, ids)
    requires e in g.edges && Touches(e, ids)
    ensures e0 in g0.edges && EdgeKeyOf(e0) == EdgeKeyOf(e)
    ensures DistinctKeys(g) && DistinctKeys(g0) ==> e0.semantic == e.semantic
  {
    FingerprintEntries(g);
    FingerprintEntries(g0);
    var key := EdgeKeyOf(e);
    var id := if e.subject in ids then e.subject else e.object_;
    assert id in AffectedStableIds(key);
    assert SameEntry(FactFingerprint(g), FactFingerprint(g0), key);
    assert key in FactFingerprint(g);
    e0 :| e0 in g0.edges && key == EdgeKeyOf(e0);
  }

  lemma UnchangedIsSymmetric(g: FactGraph, g0: FactGraph, ids: set<Id>)
    requires UnchangedAt(g, g0, ids)
    ensures UnchangedAt(g0, g, ids)
  {
    forall key, id | id in ids && id in AffectedStableIds(key)
      ensures SameEntry(FactFingerprint(g0), FactFingerprint(g), key)
    {
      assert SameEntry(FactFingerprint(g), FactFingerprint(g0), key);
    }
  }

  lemma LinkIsEdge(g: FactGraph, x: Id, y: Id) returns (e: FactEdge)
    requires (x, y) in NodeLinks(g)
    ensures e in g.edges && Joins(e, x, y)
  {
    e :| e in g.edges && Joins(e, x, y);
  }

  lemma LinkSurvives(g: FactGraph, g0: FactGraph, ids: set<Id>, x: Id, y: Id)
    requires WellFormed(g) && WellFormed(g0) && UnchangedAt(g, g0, ids)
    requires x in ids && (x, y) in NodeLinks(g)
    ensures (x, y) in NodeLinks(g0)
  {
    var e := LinkIsEdge(g, x, y);
    var e0 := CounterpartEdge(g, g0, ids, e);
    EdgesBetweenNodesAreLinks(g0, x, y, e0);
  }

  lemma SameBalls(g: FactGraph, g0: FactGraph, ids: set<Id>, root: Id, n: nat)
    requires WellFormed(g) && WellFormed(g0) && UnchangedAt(g, g0, ids) && Ball(NodeLinks(g), root, n) <= ids
    ensures Ball(NodeLinks(g), root, n) == Ball(NodeLinks(g0), root, n)
  {
    UnchangedIsSymmetric(g, g0, ids);
    forall x, y | x in ids
      ensures (x, y) in NodeLinks(g) <==> (x, y) in NodeLinks(g0)
    {
      if (x, y) in NodeLinks(g) {
        LinkSurvives(g, g0, ids, x, y);
      }
      if (x, y) in NodeLinks(g0) {
        LinkSurvives(g0, g, ids, x, y);
      }
    }
    SameLinksSameBall(NodeLinks(g), NodeLinks(g0), ids, root, n);
  }

  lemma NodeSurvives(g: FactGraph, g0: FactGraph, ids: set<Id>, id: Id)
    requires WellFormed(g) && WellFormed(g0) && UnchangedAt(g, g0, ids) && id in ids && id in NodeIds(g)
    ensures id in NodeIds(g0)
    ensures forall n, n0 :: n in g.nodes && n0 in g0.nodes && n.id == n0.id == id ==> n.semantic == n0.semantic
  {
    FingerprintEntries(g);
    FingerprintEntries(g0);
    assert id in AffectedStableIds(NodeKey(id));
    assert SameEntry(FactFingerprint(g), FactFingerprint(g0), NodeKey(id));
  }

  lemma NodeContentSurvives(g: FactGraph, g0: FactGraph, ids: set<Id>)
    requires WellFormed(g) && WellFormed(g0) && UnchangedAt(g, g0, ids)
    ensures NodeContent(g, ids) <= NodeContent(g0, ids)
  {
    forall n | n in g.nodes && n.id in ids
      ensures (n.id, n.semantic) in NodeContent(g0, ids)
    {
      NodeSurvives(g, g0, ids, n.id);
      var n0 :| n0 in g0.nodes && n0.id == n.id;
      assert (n0.id, n0.semantic) in NodeContent(g0, ids);
    }
  }

  /** The edges chosen by a whole neighbourhood are told by their ids. */
  lemma ChosenEdgesTouchNear(g: FactGraph, root: Id, nodeIds: set<Id>, edgeIds: set<Id>, e: FactEdge)
    requires DistinctIds(g) && IsWholeNeighborhood(g, root, MAXIMUM_DEPTH, nodeIds, edgeIds) && e in g.edges
    ensures e.id in edgeIds <==> Touches(e, Near(g, root, MAXIMUM_DEPTH))
  {
  }

  lemma KeysSurvive(g: FactGraph, g0: FactGraph, ids: set<Id>, near: set<Id>)
    requires WellFormed(g) && WellFormed(g0) && UnchangedAt(g, g0, ids) && near <= ids
    ensures KeysAt(g, near) <= KeysAt(g0, near)
  {
    forall e | e in g.edges && Touches(e, near)
      ensures EdgeKeyOf(e) in KeysAt(g0, near)
    {
      var e0 := CounterpartEdge(g, g0, ids, e);
      assert Touches(e0, near);
    }
  }

  lemma EdgeContentSurvives(g: FactGraph, g0: FactGraph, ids: set<Id>, near: set<Id>, edgeIds: set<Id>, edgeIds0: set<Id>)
    requires WellFormed(g) && WellFormed(g0) && UnchangedAt(g, g0, ids) && near <= ids
    requires DistinctKeys(g) && DistinctKeys(g0)
    requires forall e :: e in g.edges ==> (e.id in edgeIds <==> Touches(e, near))
    requires forall e :: e in g0.edges ==> (e.id in edgeIds0 <==> Touches(e, near))
    ensures EdgeContent(g, edgeIds) <= EdgeContent(g0, edgeIds0)
  {
    forall e | e in g.edges && e.id in edgeIds
      ensures (EdgeKeyOf(e), e.semantic) in EdgeContent(g0, edgeIds0)
    {
      var e0 := CounterpartEdge(g, g0, ids, e);
      assert Touches(e0, near) && e0.id in edgeIds0;
      assert (EdgeKeyOf(e0), e0.semantic) in EdgeContent(g0, edgeIds0);
    }
  }

  /**
   A unit that is skipped has in the baseline graph, from the same root, the same nodes with the same content and the
   same relations; where no two edges of a graph share a key, the same edge content as well.
   */
  lemma SkippedUnitIsUnchanged(g: FactGraph, g0: FactGraph, mode: Mode, unit: WorkUnit, nodeIds0: set<Id>, edgeIds0: set<Id>)
    requires WellFormed(g) && WellFormed(g0) && unit.root in NodeIds(g)
    requires IsWholeNeighborhood(g, unit.root, MAXIMUM_DEPTH, unit.nodeIds, unit.edgeIds)
    requires unit.root in NodeIds(g0) ==> IsWholeNeighborhood(g0, unit.root, MAXIMUM_DEPTH, nodeIds0, edgeIds0)
    requires var baseline := WithFingerprint(FactFingerprint(g0));
             !IsSelected(unit, mode, baseline, ChangedStableIds(FactFingerprint(g), baseline))
    ensures unit.root in NodeIds(g0)
    ensures unit.nodeIds == nodeIds0 && NodeContent(g, unit.nodeIds) == NodeContent(g0, nodeIds0)
    ensures KeysAt(g, Near(g, unit.root, MAXIMUM_DEPTH)) == KeysAt(g0, Near(g0, unit.root, MAXIMUM_DEPTH))
    ensures DistinctKeys(g) && DistinctKeys(g0) ==> EdgeContent(g, unit.edgeIds) == EdgeContent(g0, edgeIds0)
  {
    var ids, root := unit.nodeIds, unit.root;
    SkippedMeansUnchanged(g, g0, ids);
    UnchangedIsSymmetric(g, g0, ids);
    BallMonotone(NodeLinks(g), root, 0, MAXIMUM_DEPTH);
    BallMonotone(NodeLinks(g), root, MAXIMUM_DEPTH - 1, MAXIMUM_DEPTH);
    NodeSurvives(g, g0, ids, root);
    SameBalls(g, g0, ids, root, MAXIMUM_DEPTH);
    SameBalls(g, g0, ids, root, MAXIMUM_DEPTH - 1);
    NodeContentSurvives(g, g0, ids);
    NodeContentSurvives(g0, g, ids);
    var near := Near(g, root, MAXIMUM_DEPTH);
    KeysSurvive(g, g0, ids, near);
    KeysSurvive(g0, g, ids, near);
    if DistinctKeys(g) && DistinctKeys(g0) {
      forall e | e in g.edges
        ensures e.id in unit.edgeIds <==> Touches(e, near)
      {
        ChosenEdgesTouchNear(g, root, unit.nodeIds, unit.edgeIds, e);
      }
      forall e | e in g0.edges
        ensures e.id in edgeIds0 <==> Touches(e, near)
      {
        ChosenEdgesTouchNear(g0, root, nodeIds0, edgeIds0, e);
      }
      EdgeContentSurvives(g, g0, ids, near, unit.edgeIds, edgeIds0);
      EdgeContentSurvives(g0, g, ids, near, edgeIds0, unit.edgeIds);
    }
  }

  /**
   A planned root whose unit is not in the plan is unchanged since the baseline, as long as its whole neighbourhood fits
   the budgets that the two graphs were planned with.
   */
  lemma UnplannedRootIsUnchanged(
      g: FactGraph, g0: FactGraph, roots: seq<Id>, mode: Mode, budget: nat, budget0: nat, plan: Plan,
      units: seq<WorkUnit>, refused: seq<bool>, i: nat, unit0: WorkUnit, refused0: bool)
    requires WellFormed(g) && WellFormed(g0) && i < |roots| && roots[i] in NodeIds(g)
    requires IsPlanOf(g, roots, mode, WithFingerprint(FactFingerprint(g0)), budget, plan, units, refused)
    requires roots[i] in NodeIds(g0) ==> IsUnitOf(g0, roots[i], budget0, unit0, refused0)
    requires Fits(g, roots[i], budget, MAXIMUM_DEPTH)
    requires roots[i] in NodeIds(g0) ==> Fits(g0, roots[i], budget0, MAXIMUM_DEPTH)
    requires units[i] !in plan.workUnits
    ensures roots[i] in NodeIds(g0) && units[i].nodeIds == unit0.nodeIds
    ensures NodeContent(g, units[i].nodeIds) == NodeContent(g0, unit0.nodeIds)
    ensures KeysAt(g, Near(g, roots[i], MAXIMUM_DEPTH)) == KeysAt(g0, Near(g0, roots[i], MAXIMUM_DEPTH))
    ensures DistinctKeys(g) && DistinctKeys(g0) ==> EdgeContent(g, units[i].edgeIds) == EdgeContent(g0, unit0.edgeIds)
  {
    var unit := units[i];
    assert IsUnitOf(g, roots[i], budget, unit, refused[i]);
    assert unit in units;
    SkippedUnitIsUnchanged(g, g0, plan.effectiveMode, unit, unit0.nodeIds, unit0.edgeIds);
  }

  // ---------------------------------------------------------------- exactly which units are planned

  /** The edges at a node, by what they relate and say. */
  ghost function EdgesAt(g: FactGraph, id: Id): set<(Id, string, Id, string)> {
    set e | e in g.edges && (e.subject == id || e.object_ == id) :: (e.subject, e.predicate_, e.object_, e.semantic)
  }

  /** A node of either graph that the other one does not have, or has with other content or other edges. */
  ghost predicate DiffersAt(g: FactGraph, g0: FactGraph, id: Id) {
    NodeContent(g, {id}) != NodeContent(g0, {id}) || EdgesAt(g, id) != EdgesAt(g0, id)
  }

  lemma ChangedMeansDifferentEntry(g: FactGraph, g0: FactGraph, id: Id)
    ensures id in ChangedStableIds(FactFingerprint(g), WithFingerprint(FactFingerprint(g0))) <==>
            exists key :: id in AffectedStableIds(key) && !SameEntry(FactFingerprint(g), FactFingerprint(g0), key)
  {
  }

  lemma ContentOfEntry(g: FactGraph, id: Id)
    requires DistinctIds(g)
    ensures if NodeKey(id) in FactFingerprint(g) then
              exists s :: FactFingerprint(g)[NodeKey(id)] == NodeDigest(s) && NodeContent(g, {id}) == {(id, s)}
            else NodeContent(g, {id}) == {}
  {
    FingerprintEntries(g);
    if id in NodeIds(g) {
      var n :| n in g.nodes && n.id == id;
      assert NodeContent(g, {id}) == {(id, n.semantic)};
    }
  }

  lemma EntryOfNode(g: FactGraph, g0: FactGraph, id: Id)
    requires DistinctIds(g) && DistinctIds(g0)
    ensures SameEntry(FactFingerprint(g), FactFingerprint(g0), NodeKey(id)) <==> NodeContent(g, {id}) == NodeContent(g0, {id})
  {
    ContentOfEntry(g, id);
    ContentOfEntry(g0, id);
  }

  ghost predicate SameEntriesAt(g: FactGraph, g0: FactGraph, id: Id) {
    forall key: Key :: key.EdgeKey? && (key.subject == id || key.object_ == id) ==>
      SameEntry(FactFingerprint(g), FactFingerprint(g0), key)
  }

  lemma SameEntriesSameEdges(g: FactGraph, g0: FactGraph, id: Id)
    requires DistinctIds(g) && DistinctIds(g0) && DistinctKeys(g) && DistinctKeys(g0) && SameEntriesAt(g, g0, id)
    ensures EdgesAt(g, id) <= EdgesAt(g0, id)
  {
    FingerprintEntries(g);
    FingerprintEntries(g0);
    forall e | e in g.edges && (e.subject == id || e.object_ == id)
      ensures (e.subject, e.predicate_, e.object_, e.semantic) in EdgesAt(g0, id)
    {
      assert SameEntry(FactFingerprint(g), FactFingerprint(g0), EdgeKeyOf(e));
      var e0 :| e0 in g0.edges && EdgeKeyOf(e0) == EdgeKeyOf(e);
      assert (e0.subject, e0.predicate_, e0.object_, e0.semantic) in EdgesAt(g0, id);
    }
  }

  lemma EntryOfEdge(g: FactGraph, g0: FactGraph, id: Id, key: Key)
    requires DistinctIds(g) && DistinctIds(g0) && DistinctKeys(g) && DistinctKeys(g0) && EdgesAt(g, id) <= EdgesAt(g0, id)
    requires key.EdgeKey? && (key.subject == id || key.object_ == id) && key in FactFingerprint(g)
    ensures key in FactFingerprint(g0) && FactFingerprint(g0)[key] == FactFingerprint(g)[key]
  {
    FingerprintEntries(g);
    FingerprintEntries(g0);
    var e :| e in g.edges && key == EdgeKeyOf(e);
    assert (e.subject, e.predicate_, e.object_, e.semantic) in EdgesAt(g0, id);
    var e0 :| e0 in g0.edges
      && (e0.subject, e0.predicate_, e0.object_, e0.semantic) == (e.subject, e.predicate_, e.object_, e.semantic);
    assert EdgeKeyOf(e0) == key;
  }

  lemma EntriesOfEdges(g: FactGraph, g0: FactGraph, id: Id)
    requires DistinctIds(g) && DistinctIds(g0) && DistinctKeys(g) && DistinctKeys(g0)
    ensures SameEntriesAt(g, g0, id) <==> EdgesAt(g, id) == EdgesAt(g0, id)
  {
    if SameEntriesAt(g, g0, id) {
      SameEntriesSameEdges(g, g0, id);
      assert SameEntriesAt(g0, g, id) by {
        forall key: Key | key.EdgeKey? && (key.subject == id || key.object_ == id)
          ensures SameEntry(FactFingerprint(g0), FactFingerprint(g), key)
        {
          assert SameEntry(FactFingerprint(g), FactFingerprint(g0), key);
        }
      }
      SameEntriesSameEdges(g0, g, id);
    }
    if EdgesAt(g, id) == EdgesAt(g0, id) {
      forall key: Key | key.EdgeKey? && (key.subject == id || key.object_ == id)
        ensures SameEntry(FactFingerprint(g), FactFingerprint(g0), key)
      {
        if key in FactFingerprint(g) {
          EntryOfEdge(g, g0, id, key);
        }
        if key in FactFingerprint(g0) {
          EntryOfEdge(g0, g, id, key);
        }
      }
    }
  }

  /** An identifier stands for a change exactly if the graphs differ in its node or in the edges at it. */
  lemma ChangedExactly(g: FactGraph, g0: FactGraph, id: Id)
    requires DistinctIds(g) && DistinctIds(g0) && DistinctKeys(g) && DistinctKeys(g0) && id != Id("")
    ensures id in ChangedStableIds(FactFingerprint(g), WithFingerprint(FactFingerprint(g0))) <==> DiffersAt(g, g0, id)
  {
    ChangedMeansDifferentEntry(g, g0, id);
    EntryOfNode(g, g0, id);
    EntriesOfEdges(g, g0, id);
    if DiffersAt(g, g0, id) {
      if NodeContent(g, {id}) != NodeContent(g0, {id}) {
        assert id in AffectedStableIds(NodeKey(id));
      } else {
        var key: Key :| key.EdgeKey? && (key.subject == id || key.object_ == id)
          && !SameEntry(FactFingerprint(g), FactFingerprint(g0), key);
        assert id in AffectedStableIds(key);
      }
    }
  }

  lemma ChangedMeansNotUnchanged(g: FactGraph, g0: FactGraph, ids: set<Id>)
    ensures ids * ChangedStableIds(FactFingerprint(g), WithFingerprint(FactFingerprint(g0))) != {} <==> !UnchangedAt(g, g0, ids)
  {
    var changed := ChangedStableIds(FactFingerprint(g), WithFingerprint(FactFingerprint(g0)));
    if ids * changed != {} {
      var id :| id in ids * changed;
      ChangedMeansDifferentEntry(g, g0, id);
    } else {
      SkippedMeansUnchanged(g, g0, ids);
    }
  }

  lemma {:induction false} SelectedInOrder(units: seq<WorkUnit>, mode: Mode, baseline: BaselineResult, changes: set<Id>)
    returns (at: seq<nat>)
    ensures IsPart(Selected(units, mode, baseline, changes), units, at)
    ensures forall i: nat :: i < |units| ==> (i in at <==> IsSelected(units[i], mode, baseline, changes))
  {
    if units == [] {
      at := [];
    } else {
      var rest := SelectedInOrder(units[1..], mode, baseline, changes);
      at := LaterPart(Selected(units[1..], mode, baseline, changes), units, rest);
      if IsSelected(units[0], mode, baseline, changes) {
        PartWithFirst(Selected(units[1..], mode, baseline, changes), units, at);
        at := [0] + at;
      }
    }
  }

  /**
   Since a baseline with the fingerprint of `g0`, the planned units are, in the order of the roots, exactly those with a
   node or an edge whose identifier stands for a change; all of them in FULL mode. The others are counted.
   */
  lemma PlannedExactly(
      g: FactGraph, g0: FactGraph, roots: seq<Id>, mode: Mode, budget: nat, plan: Plan, units: seq<WorkUnit>, refused: seq<bool>)
    returns (at: seq<nat>)
    requires IsPlanOf(g, roots, mode, WithFingerprint(FactFingerprint(g0)), budget, plan, units, refused)
    ensures IsPart(plan.workUnits, units, at) && plan.unchangedWorkUnitCount == |units| - |at|
    ensures forall i: nat :: i < |units| ==>
              (i in at <==> mode == FULL || !UnchangedAt(g, g0, units[i].nodeIds) || !UnchangedAt(g, g0, units[i].edgeIds))
  {
    at := SelectedInOrder(units, plan.effectiveMode, WithFingerprint(FactFingerprint(g0)), plan.changes);
    forall i: nat | i < |units|
      ensures i in at <==> mode == FULL || !UnchangedAt(g, g0, units[i].nodeIds) || !UnchangedAt(g, g0, units[i].edgeIds)
    {
      ChangedMeansNotUnchanged(g, g0, units[i].nodeIds);
      ChangedMeansNotUnchanged(g, g0, units[i].edgeIds);
    }
  }

  /** Nodes are unchanged exactly if the two graphs agree about each of them, and about the edges at it. */
  lemma UnchangedExactly(g: FactGraph, g0: FactGraph, ids: set<Id>)
    requires DistinctIds(g) && DistinctIds(g0) && DistinctKeys(g) && DistinctKeys(g0) && Id("") !in ids
    ensures UnchangedAt(g, g0, ids) <==> forall id :: id in ids ==> !DiffersAt(g, g0, id)
  {
    ChangedMeansNotUnchanged(g, g0, ids);
    var changed := ChangedStableIds(FactFingerprint(g), WithFingerprint(FactFingerprint(g0)));
    forall id | id in ids
      ensures id in ids * changed <==> DiffersAt(g, g0, id)
    {
      ChangedExactly(g, g0, id);
    }
  }

  lemma {:induction false} AllSelected(units: seq<WorkUnit>, mode: Mode, baseline: BaselineResult, changes: set<Id>)
    requires forall unit :: unit in units ==> IsSelected(unit, mode, baseline, changes)
    ensures Selected(units, mode, baseline, changes) == units
  {
    if units != [] {
      assert units == [units[0]] + units[1..];
      AllSelected(units[1..], mode, baseline, changes);
    }
  }

  /** In FULL mode, and without the fingerprint of a baseline in any mode, every unit is planned. */
  lemma EverythingIsPlanned(
      g: FactGraph, roots: seq<Id>, mode: Mode, baseline: BaselineResult, budget: nat, plan: Plan,
      units: seq<WorkUnit>, refused: seq<bool>)
    requires DistinctIds(g) && forall i :: 0 <= i < |roots| ==> roots[i] in NodeIds(g)
    requires IsPlanOf(g, roots, mode, baseline, budget, plan, units, refused) && (mode == FULL || !baseline.WithFingerprint?)
    ensures plan.workUnits == units && plan.unchangedWorkUnitCount == 0
  {
    FingerprintEntries(g);
    forall unit | unit in units
      ensures IsSelected(unit, plan.effectiveMode, baseline, plan.changes)
    {
      var i :| 0 <= i < |units| && units[i] == unit;
      assert IsUnitOf(g, roots[i], budget, unit, refused[i]);
      if mode != FULL && !baseline.NoBaseline? {
        assert roots[i] in AffectedStableIds(NodeKey(roots[i])) && roots[i] in unit.nodeIds * plan.changes;
      }
    }
    AllSelected(units, plan.effectiveMode, baseline, plan.changes);
  }

  // ---------------------------------------------------------------- what a fingerprint misses

  function WithSemantic(g: FactGraph, i: nat, semantic: string): FactGraph
    requires i < |g.edges|
  {
    g.(edges := g.edges[i := g.edges[i].(semantic := semantic)])
  }

  ghost predicate AgreeExceptAt(a: Fingerprint, b: Fingerprint, k: Key) {
    forall key :: key != k ==> SameEntry(a, b, key)
  }

  /** Changing one edge changes no entry but its own. */
  lemma {:induction false} OtherEntriesStay(edges: seq<FactEdge>, i: nat, semantic: string)
    requires i < |edges|
    ensures AgreeExceptAt(EdgePrints(edges), EdgePrints(edges[i := edges[i].(semantic := semantic)]), EdgeKeyOf(edges[i]))
    ensures EdgePrints(edges[i := edges[i].(semantic := semantic)]).Keys == EdgePrints(edges).Keys
  {
    var changed := edges[i := edges[i].(semantic := semantic)];
    var init := edges[..|edges| - 1];
    if i < |init| {
      OtherEntriesStay(init, i, semantic);
      var earlier := init[i := init[i].(semantic := semantic)];
      assert changed[..|edges| - 1] == earlier;
      forall key | key != EdgeKeyOf(edges[i])
        ensures SameEntry(EdgePrints(edges), EdgePrints(changed), key)
      {
        assert SameEntry(EdgePrints(init), EdgePrints(earlier), key);
      }
    } else {
      assert changed[..|edges| - 1] == init;
    }
  }

  lemma {:induction false} ShadowedEntryStays(edges: seq<FactEdge>, i: nat, j: nat, semantic: string)
    requires i < j < |edges| && EdgeKeyOf(edges[i]) == EdgeKeyOf(edges[j])
    ensures EdgePrints(edges[i := edges[i].(semantic := semantic)]) == EdgePrints(edges)
  {
    var changed := edges[i := edges[i].(semantic := semantic)];
    var init := edges[..|edges| - 1];
    assert changed[..|edges| - 1] == init[i := init[i].(semantic := semantic)];
    if j < |init| {
      ShadowedEntryStays(init, i, j, semantic);
    } else {
      OtherEntriesStay(init, i, semantic);
      forall key | key in EdgePrints(edges)
        ensures SameEntry(EdgePrints(edges), EdgePrints(changed), key)
      {
        if key != EdgeKeyOf(edges[i]) {
          assert SameEntry(EdgePrints(init), EdgePrints(init[i := init[i].(semantic := semantic)]), key);
        }
      }
    }
  }

  lemma KeysStayDistinct(g: FactGraph, i: nat, semantic: string)
    requires DistinctIds(g) && DistinctKeys(g) && i < |g.edges|
    ensures DistinctIds(WithSemantic(g, i, semantic)) && DistinctKeys(WithSemantic(g, i, semantic))
  {
  }

  /** The fingerprint of a graph sees every change of an edge's content exactly if no two of its edges share a key. */
  lemma FingerprintSeesEveryEdge(g: FactGraph)
    requires DistinctIds(g)
    ensures DistinctKeys(g) <==>
            forall i: nat, semantic :: i < |g.edges| && semantic != g.edges[i].semantic ==>
              FactFingerprint(WithSemantic(g, i, semantic)) != FactFingerprint(g)
  {
    if DistinctKeys(g) {
      forall i: nat, semantic | i < |g.edges| && semantic != g.edges[i].semantic
        ensures FactFingerprint(WithSemantic(g, i, semantic)) != FactFingerprint(g)
      {
        var changed := WithSemantic(g, i, semantic);
        KeysStayDistinct(g, i, semantic);
        FingerprintEntries(g);
        FingerprintEntries(changed);
        assert changed.edges[i] in changed.edges && g.edges[i] in g.edges;
      }
    } else {
      var i: nat, j: nat :| i < j < |g.edges| && EdgeKeyOf(g.edges[i]) == EdgeKeyOf(g.edges[j]);
      var semantic := g.edges[i].semantic + "!";
      ShadowedEntryStays(g.edges, i, j, semantic);
      assert FactFingerprint(WithSemantic(g, i, semantic)) == FactFingerprint(g);
    }
  }
}
