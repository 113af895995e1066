/**
 The work units of an understanding plan: one for each partition, one synthesis for each module with sources, one for
 the project; and the follow-ups appended to it later.
 */
module UnderstandingPlanner {
  import opened Graphs
  import opened Sorting
  import opened UnderstandingPlans
  import opened Wrappers

  datatype Plan = Plan(partitions: seq<Partition>, units: seq<WorkUnit>)

  datatype Planning = Planned(plan: Plan) | RefusedPartitionSize | RefusedAssignment

  function Ids(ranges: seq<Range>): seq<Id> {
    seq(|ranges|, i requires 0 <= i < |ranges| => ranges[i].artifact)
  }

  // ---------------------------------------------------------------- units

  function LeafUnit(names: Names, p: Partition): WorkUnit {
    var id := names.partition(p);
    WorkUnit(names.unit(LeafIdentity(id)), Some(id), if p.key.lane == GAP then GAP_UNIT else LEAF_UNIT, {}, Ids(p.ranges))
  }

  function LeafUnits(names: Names, partitions: seq<Partition>): (units: seq<WorkUnit>)
    ensures |units| == |partitions| && forall i :: 0 <= i < |units| ==> units[i] == LeafUnit(names, partitions[i])
  {
    seq(|partitions|, i requires 0 <= i < |partitions| => LeafUnit(names, partitions[i]))
  }

  function ModuleUnit(names: Names, locality: string, dependencies: set<Id>): WorkUnit {
    WorkUnit(names.unit(ModuleIdentity(locality, dependencies)), None, MODULE_SYNTHESIS, dependencies, [])
  }

  function ProjectUnit(names: Names, dependencies: set<Id>): WorkUnit {
    WorkUnit(names.unit(ProjectIdentity(dependencies)), None, PROJECT_SYNTHESIS, dependencies, [])
  }

  /** The partition with identifier `id`, if a unit has one. */
  function FindPartition(names: Names, partitions: seq<Partition>, id: Option<Id>): Option<Partition> {
    if partitions == [] || id == None then None
    else if names.partition(partitions[0]) == id.value then Some(partitions[0])
    else FindPartition(names, partitions[1..], id)
  }

  lemma {:induction false} PartitionIsFound(names: Names, partitions: seq<Partition>, i: nat)
    requires AreInjective(names) && i < |partitions|
    ensures FindPartition(names, partitions, Some(names.partition(partitions[i]))) == Some(partitions[i])
  {
    if names.partition(partitions[0]) != names.partition(partitions[i]) {
      PartitionIsFound(names, partitions[1..], i - 1);
    }
  }

  /** The units of a module's partitions that are not gaps. */
  ghost function LeafIds(names: Names, partitions: seq<Partition>, locality: string): set<Id> {
    set p | p in partitions && p.key.locality == locality && p.key.lane != GAP :: LeafUnit(names, p).id
  }

  ghost function ModuleUnits(names: Names, partitions: seq<Partition>, localities: seq<string>): (units: seq<WorkUnit>)
    ensures |units| == |localities|
    ensures forall j :: 0 <= j < |units| ==> units[j] == ModuleUnit(names, localities[j], LeafIds(names, partitions, localities[j]))
  {
    seq(|localities|, j requires 0 <= j < |localities| => ModuleUnit(names, localities[j], LeafIds(names, partitions, localities[j])))
  }

  ghost function UnitIds(units: seq<WorkUnit>): set<Id> {
    set u | u in units :: u.id
  }

  ghost function ProjectUnits(names: Names, modules: seq<WorkUnit>): seq<WorkUnit> {
    if modules == [] then [] else [ProjectUnit(names, UnitIds(modules))]
  }

  predicate HasSources(partitions: seq<Partition>, locality: string) {
    exists p :: p in partitions && p.key.locality == locality && p.key.lane != GAP
  }

  /** The units of a plan: leaves in the order of the partitions, then one synthesis per module with sources, then the project. */
  ghost predicate HasUnits(names: Names, plan: Plan, localities: seq<string>) {
    && NoDuplicates(localities) && (forall l :: l in localities <==> HasSources(plan.partitions, l))
    && var modules := ModuleUnits(names, plan.partitions, localities);
       plan.units == LeafUnits(names, plan.partitions) + modules + ProjectUnits(names, modules)
  }

  ghost predicate IsPlan(names: Names, artifacts: seq<Artifact>, max: nat, plan: Plan, localities: seq<string>) {
    PartitionsHold(artifacts, max, plan.partitions) && HasUnits(names, plan, localities)
  }

  // ---------------------------------------------------------------- what follows for the order of work

  ghost predicate DependenciesComeFirst(units: seq<WorkUnit>) {
    forall i, d :: 0 <= i < |units| && d in units[i].dependencies ==> exists j :: 0 <= j < i && units[j].id == d
  }

  ghost predicate IdsAreDistinct(units: seq<WorkUnit>) {
    forall i, j :: 0 <= i < j < |units| ==> units[i].id != units[j].id
  }

  lemma PlannedDependenciesComeFirst(names: Names, plan: Plan, localities: seq<string>)
    requires HasUnits(names, plan, localities)
    ensures DependenciesComeFirst(plan.units)
  {
    var leaves := LeafUnits(names, plan.partitions);
    var modules := ModuleUnits(names, plan.partitions, localities);
    var units := plan.units;
    forall i, d | 0 <= i < |units| && d in units[i].dependencies
      ensures exists j :: 0 <= j < i && units[j].id == d
    {
      if i < |leaves| + |modules| {
        assert i >= |leaves| && units[i] == modules[i - |leaves|];
        var p :| p in plan.partitions && LeafUnit(names, p).id == d;
        var j :| 0 <= j < |plan.partitions| && plan.partitions[j] == p;
        assert units[j] == leaves[j];
      } else {
        var u :| u in modules && u.id == d;
        var j :| 0 <= j < |modules| && modules[j] == u;
        assert units[|leaves| + j] == u;
      }
    }
  }

  lemma PlannedIdsAreDistinct(names: Names, plan: Plan, localities: seq<string>)
    requires AreInjective(names) && HasUnits(names, plan, localities) && ShardsInOrder(plan.partitions)
    ensures IdsAreDistinct(plan.units)
  {
    var leaves := LeafUnits(names, plan.partitions);
    var modules := ModuleUnits(names, plan.partitions, localities);
    forall i, j | 0 <= i < j < |leaves|
      ensures leaves[i].id != leaves[j].id
    {
      assert plan.partitions[i] != plan.partitions[j];
      assert names.partition(plan.partitions[i]) != names.partition(plan.partitions[j]);
    }
    forall i, j | 0 <= i < j < |modules|
      ensures modules[i].id != modules[j].id
    {
      assert localities[i] != localities[j];
    }
  }

  ghost function DependencyLinks(units: seq<WorkUnit>): Relation {
    set u, d | u in units && d in u.dependencies :: (d, u.id)
  }

  /** No unit is reached again from a unit that depends on it. */
  lemma DependenciesAreAcyclic(units: seq<WorkUnit>, u: WorkUnit, d: Id)
    requires DependenciesComeFirst(units) && IdsAreDistinct(units) && u in units && d in u.dependencies
    ensures !Reaches(DependencyLinks(units), u.id, d)
  {
    var r := DependencyLinks(units);
    var i :| 0 <= i < |units| && units[i] == u;
    var later := set k | i <= k < |units| :: units[k].id;
    forall e | e in r && e.0 in later
      ensures e.1 in later
    {
      var v, c :| v in units && c in v.dependencies && e == (c, v.id);
      var k :| 0 <= k < |units| && units[k] == v;
      var j :| 0 <= j < k && units[j].id == c;
      var m :| i <= m < |units| && units[m].id == e.0;
      assert j == m;
    }
    assert u.id in later;
    var j :| 0 <= j < i && units[j].id == d;
    if Reaches(r, u.id, d) {
      ClosedHoldsReachable(r, later, u.id, d);
    }
  }

  // ---------------------------------------------------------------- the assignment guard

  lemma TakeOut(ranges: seq<Range>, x: Range) returns (rest: seq<Range>)
    requires x in ranges
    ensures multiset(ranges) == multiset(rest) + multiset{x}
    ensures multiset(Ids(ranges)) == multiset(Ids(rest)) + multiset{x.artifact}
  {
    var j :| 0 <= j < |ranges| && ranges[j] == x;
    var before, after := ranges[..j], ranges[j + 1..];
    assert ranges == before + [x] + after;
    assert Ids(ranges) == Ids(before) + [x.artifact] + Ids(after);
    rest := before + after;
    assert Ids(rest) == Ids(before) + Ids(after);
  }

  lemma {:induction false} SameRangesSameIds(a: seq<Range>, b: seq<Range>)
    requires multiset(a) == multiset(b)
    ensures multiset(Ids(a)) == multiset(Ids(b))
    decreases |multiset(a)|
  {
    assert |a| == |multiset(a)| && |b| == |multiset(b)|;
    if a != [] {
      var x := a[0];
      assert x in multiset(b);
      var c := TakeOut(a, x);
      var d := TakeOut(b, x);
      assert multiset(c) == multiset(a) - multiset{x} == multiset(d);
      SameRangesSameIds(c, d);
    }
  }

  /** The final guard passes exactly when the artifacts of the inventory have distinct identifiers. */
  lemma GuardIsDistinctness(artifacts: seq<Artifact>, partitions: seq<Partition>)
    requires multiset(Assigned(partitions)) == multiset(RangesOf(artifacts))
    ensures var held := Ids(Assigned(partitions));
      && (|held| == |artifacts| && |artifacts| - |set id | id in held| == 0 <==> NoDuplicates(Ids(RangesOf(artifacts))))
      && (NoDuplicates(held) <==> NoDuplicates(Ids(RangesOf(artifacts))))
  {
    var held, all := Ids(Assigned(partitions)), Ids(RangesOf(artifacts));
    SameRangesSameIds(Assigned(partitions), RangesOf(artifacts));
    assert |held| == |multiset(held)| == |multiset(all)| == |all|;
    NoDuplicatesByCount(held);
    NoDuplicatesByCount(all);
    DistinctCount(held);
  }

  lemma {:induction false} IdOfTwoPartitionsRepeats(partitions: seq<Partition>, i: nat, j: nat, r: Range, q: Range)
    requires i < j < |partitions| && r in partitions[i].ranges && q in partitions[j].ranges && r.artifact == q.artifact
    ensures !NoDuplicates(Ids(Assigned(partitions)))
  {
    var init, last := partitions[..|partitions| - 1], partitions[|partitions| - 1];
    var before := Assigned(init);
    assert Assigned(partitions) == before + last.ranges;
    var all := Ids(before + last.ranges);
    if j < |init| {
      IdOfTwoPartitionsRepeats(init, i, j, r, q);
      var a, b :| 0 <= a < b < |before| && Ids(before)[a] == Ids(before)[b];
      assert all[a] == all[b];
    } else {
      RangeIsAssigned(init, i, r);
      var a :| 0 <= a < |before| && before[a] == r;
      var b :| 0 <= b < |last.ranges| && last.ranges[b] == q;
      assert all[a] == all[|before| + b];
    }
  }

  lemma {:induction false} RangeIsAssigned(partitions: seq<Partition>, i: nat, r: Range)
    requires i < |partitions| && r in partitions[i].ranges
    ensures r in Assigned(partitions)
  {
    if i < |partitions| - 1 {
      RangeIsAssigned(partitions[..|partitions| - 1], i, r);
    }
  }

  lemma {:induction false} MemberOf(artifacts: seq<Artifact>, a: Artifact)
    requires a in artifacts
    ensures a.range in Members(artifacts, KeyFor(a))
  {
    if a != artifacts[|artifacts| - 1] {
      MemberOf(artifacts[..|artifacts| - 1], a);
    }
  }

  lemma {:induction false} HolderOf(partitions: seq<Partition>, key: GroupKey, r: Range) returns (i: nat)
    requires r in HeldBy(partitions, key)
    ensures i < |partitions| && partitions[i].key == key && r in partitions[i].ranges
  {
    var last := |partitions| - 1;
    if partitions[last].key == key && r in partitions[last].ranges {
      i := last;
    } else {
      i := HolderOf(partitions[..last], key, r);
    }
  }

  /** Every artifact is in exactly one partition, of its own lane and module. */
  lemma ArtifactHasOnePartition(artifacts: seq<Artifact>, max: nat, partitions: seq<Partition>, a: Artifact) returns (i: nat)
    requires PartitionsHold(artifacts, max, partitions) && NoDuplicates(Ids(RangesOf(artifacts))) && a in artifacts
    ensures i < |partitions| && partitions[i].key == KeyFor(a) && a.range in partitions[i].ranges
    ensures forall j, r :: 0 <= j < |partitions| && r in partitions[j].ranges && r.artifact == a.range.artifact ==> j == i
  {
    MemberOf(artifacts, a);
    i := HolderOf(partitions, KeyFor(a), a.range);
    GuardIsDistinctness(artifacts, partitions);
    forall j, r | 0 <= j < |partitions| && r in partitions[j].ranges && r.artifact == a.range.artifact
      ensures j == i
    {
      if j < i {
        IdOfTwoPartitionsRepeats(partitions, j, i, r, a.range);
      } else if i < j {
        IdOfTwoPartitionsRepeats(partitions, i, j, a.range, r);
      }
    }
  }

  // ---------------------------------------------------------------- the planner

  /** The sources of one module among the units made so far. */
  method LeafDependencies(
      names: Names, partitions: seq<Partition>, units: seq<WorkUnit>, locality: string, ghost modules: seq<WorkUnit>)
    returns (dependencies: set<Id>)
    requires AreInjective(names) && units == LeafUnits(names, partitions) + modules
    requires forall u :: u in modules ==> u.kind == MODULE_SYNTHESIS
    ensures dependencies == LeafIds(names, partitions, locality)
  {
    dependencies := {};
    ghost var leaves := |partitions|;
    for i := 0 to |units|
      invariant dependencies == LeafIds(names, partitions[..if i < leaves then i else leaves], locality)
    {
      var found := FindPartition(names, partitions, units[i].partition);
      if i < leaves {
        PartitionIsFound(names, partitions, i);
        assert partitions[..i + 1] == partitions[..i] + [partitions[i]];
      } else {
        assert units[i] in modules;
      }
      if found.Some? && found.value.key.locality == locality && units[i].kind == LEAF_UNIT {
        dependencies := dependencies + {units[i].id};
      }
    }
    assert partitions[..leaves] == partitions;
  }

  function Localities(partitions: seq<Partition>): (localities: seq<string>)
    ensures NoDuplicates(localities) && forall l :: l in localities <==> exists p :: p in partitions && p.key.locality == l
  {
    if partitions == [] then []
    else
      var last := partitions[|partitions| - 1];
      assert partitions == partitions[..|partitions| - 1] + [last];
      var rest := Localities(partitions[..|partitions| - 1]);
      if last.key.locality in rest then rest else rest + [last.key.locality]
  }

  lemma SourcesAreLeaves(names: Names, partitions: seq<Partition>, locality: string)
    ensures LeafIds(names, partitions, locality) != {} <==> HasSources(partitions, locality)
  {
    if HasSources(partitions, locality) {
      var p :| p in partitions && p.key.locality == locality && p.key.lane != GAP;
      assert LeafUnit(names, p).id in LeafIds(names, partitions, locality);
    }
  }

  method SynthesizeModules(names: Names, partitions: seq<Partition>, textLe: (string, string) -> bool)
    returns (units: seq<WorkUnit>, ghost localities: seq<string>)
    requires AreInjective(names)
    ensures NoDuplicates(localities) && forall l :: l in localities <==> HasSources(partitions, l)
    ensures units == LeafUnits(names, partitions) + ModuleUnits(names, partitions, localities)
  {
    units := LeafUnits(names, partitions);
    var modules := Sort(Localities(partitions), textLe);
    SortKeepsElements(Localities(partitions), textLe);
    localities := [];
    for i := 0 to |modules|
      invariant units == LeafUnits(names, partitions) + ModuleUnits(names, partitions, localities)
      invariant SynthesizedFrom(partitions, modules, i, localities)
    {
      var dependencies := LeafDependencies(names, partitions, units, modules[i], ModuleUnits(names, partitions, localities));
      SourcesAreLeaves(names, partitions, modules[i]);
      if dependencies == {} {
        continue;
      }
      OneMoreModule(names, partitions, modules, i, localities);
      units := units + [ModuleUnit(names, modules[i], dependencies)];
      localities := localities + [modules[i]];
    }
    AllSynthesized(partitions, modules, localities);
  }

  lemma AllSynthesized(partitions: seq<Partition>, modules: seq<string>, localities: seq<string>)
    requires SynthesizedFrom(partitions, modules, |modules|, localities)
    requires forall l :: l in modules <==> exists p :: p in partitions && p.key.locality == l
    ensures forall l :: l in localities <==> HasSources(partitions, l)
  {
    forall l | HasSources(partitions, l)
      ensures l in localities
    {
      assert l in modules;
      var i :| 0 <= i < |modules| && modules[i] == l;
    }
  }

  ghost predicate SynthesizedFrom(partitions: seq<Partition>, modules: seq<string>, i: nat, localities: seq<string>)
    requires i <= |modules|
  {
    && NoDuplicates(localities)
    && (forall l :: l in localities ==> HasSources(partitions, l) && exists k :: 0 <= k < i && modules[k] == l)
    && forall k :: 0 <= k < i && HasSources(partitions, modules[k]) ==> modules[k] in localities
  }

  lemma OneMoreModule(names: Names, partitions: seq<Partition>, modules: seq<string>, i: nat, localities: seq<string>)
    requires i < |modules| && NoDuplicates(modules) && SynthesizedFrom(partitions, modules, i, localities)
    requires HasSources(partitions, modules[i])
    ensures SynthesizedFrom(partitions, modules, i + 1, localities + [modules[i]])
    ensures ModuleUnits(names, partitions, localities + [modules[i]])
            == ModuleUnits(names, partitions, localities) + [ModuleUnit(names, modules[i], LeafIds(names, partitions, modules[i]))]
  {
    DistinctConcat(localities, [modules[i]]);
  }

  /** The units of the partitions, with the syntheses of modules and project above them. */
  method Synthesize(names: Names, partitions: seq<Partition>, textLe: (string, string) -> bool)
    returns (units: seq<WorkUnit>, ghost localities: seq<string>)
    requires AreInjective(names)
    ensures HasUnits(names, Plan(partitions, units), localities)
  {
    units, localities := SynthesizeModules(names, partitions, textLe);
    var moduleIds := set u | u in units && u.kind == MODULE_SYNTHESIS :: u.id;
    ModuleIdsAreThose(names, partitions, localities, units);
    if moduleIds != {} {
      units := units + [ProjectUnit(names, moduleIds)];
    }
  }

  method CreateUnderstandingPlan(
      names: Names, artifacts: seq<Artifact>, max: int,
      localeLe: (GroupKey, GroupKey) -> bool, textLe: (string, string) -> bool)
    returns (planning: Planning, ghost localities: seq<string>)
    requires AreInjective(names)
    ensures planning == RefusedPartitionSize <==> !(1 <= max <= 1000)
    ensures planning.Planned? <==> 1 <= max <= 1000 && NoDuplicates(Ids(RangesOf(artifacts)))
    ensures planning.Planned? ==>
              && IsPlan(names, artifacts, max, planning.plan, localities)
              && DependenciesComeFirst(planning.plan.units) && IdsAreDistinct(planning.plan.units)
  {
    localities := [];
    if max < 1 || max > 1000 {
      return RefusedPartitionSize, localities;
    }
    var partitions := PartitionArtifacts(artifacts, max, localeLe);
    var units;
    units, localities := Synthesize(names, partitions, textLe);
    var held := Ids(Assigned(partitions));
    GuardIsDistinctness(artifacts, partitions);
    if |artifacts| - |set id | id in held| != 0 || |held| != |artifacts| {
      return RefusedAssignment, localities;
    }
    var plan := Plan(partitions, units);
    PlannedDependenciesComeFirst(names, plan, localities);
    PlannedIdsAreDistinct(names, plan, localities);
    planning := Planned(plan);
  }

  lemma ModuleIdsAreThose(names: Names, partitions: seq<Partition>, localities: seq<string>, units: seq<WorkUnit>)
    requires units == LeafUnits(names, partitions) + ModuleUnits(names, partitions, localities)
    ensures (set u | u in units && u.kind == MODULE_SYNTHESIS :: u.id) == UnitIds(ModuleUnits(names, partitions, localities))
    ensures UnitIds(ModuleUnits(names, partitions, localities)) == {} <==> ModuleUnits(names, partitions, localities) == []
  {
    var modules := ModuleUnits(names, partitions, localities);
    forall u | u in units
      ensures u.kind == MODULE_SYNTHESIS <==> u in modules
    {
      if u !in modules {
        assert u in LeafUnits(names, partitions);
      }
    }
    if modules != [] {
      assert modules[0] in modules && modules[0].id in UnitIds(modules);
    }
  }

  // ---------------------------------------------------------------- follow-ups

  datatype FollowUp = Appended(plan: Plan) | UnexploredBudgetLimit | UnknownParent

  function FindUnit(units: seq<WorkUnit>, id: Id): Option<WorkUnit> {
    if units == [] then None else if units[0].id == id then Some(units[0]) else FindUnit(units[1..], id)
  }

  lemma {:induction false} UnitIsFound(units: seq<WorkUnit>, id: Id)
    ensures match FindUnit(units, id)
            case Some(u) => u in units && u.id == id
            case None => forall u :: u in units ==> u.id != id
  {
    if units != [] && units[0].id != id {
      UnitIsFound(units[1..], id);
      assert units == [units[0]] + units[1..];
    }
  }

  function CountFollowUps(units: seq<WorkUnit>): nat {
    if units == [] then 0 else CountFollowUps(units[1..]) + if units[0].kind == FOLLOW_UP then 1 else 0
  }

  /** The positions of the follow-ups. */
  ghost function FollowUps(units: seq<WorkUnit>): set<nat> {
    set i: nat | i < |units| && units[i].kind == FOLLOW_UP
  }

  lemma {:induction false} FollowUpsAreCounted(units: seq<WorkUnit>)
    ensures CountFollowUps(units) == |FollowUps(units)|
  {
    if units != [] {
      var init, last := units[..|units| - 1], units[|units| - 1];
      FollowUpsAreCounted(init);
      CountOneMore(init, last);
      assert units == init + [last];
      assert FollowUps(units) == FollowUps(init) + if last.kind == FOLLOW_UP then {|init|} else {};
    }
  }

  function AppendFollowUp(names: Names, plan: Plan, parent: Id, question: string, depth: int, maxDepth: int, maxFollowUps: int): FollowUp {
    if depth > maxDepth || CountFollowUps(plan.units) >= maxFollowUps then UnexploredBudgetLimit
    else
      match FindUnit(plan.units, parent)
      case None => UnknownParent
      case Some(u) =>
        var unit := WorkUnit(names.unit(FollowUpIdentity(parent, question, depth)), u.partition, FOLLOW_UP, {parent}, u.artifacts);
        Appended(plan.(units := plan.units + [unit]))
  }

  /** One more unit: it depends on its parent, and works on the parent's artifacts. */
  ghost predicate IsFollowedUp(units: seq<WorkUnit>, next: seq<WorkUnit>, parent: Id) {
    && |next| == |units| + 1 && units < next
    && var unit := next[|units|];
       && unit.kind == FOLLOW_UP && unit.dependencies == {parent}
       && exists u :: u in units && u.id == parent && unit.artifacts == u.artifacts && unit.partition == u.partition
  }

  /**
   * A follow-up is appended exactly when depth and budget allow it and its parent exists; the work it extends keeps its
   * order and the follow-ups stay within budget.
   */
  lemma FollowUpKeepsTheOrder(names: Names, plan: Plan, parent: Id, question: string, depth: int, maxDepth: int, maxFollowUps: int)
    requires DependenciesComeFirst(plan.units)
    ensures var result := AppendFollowUp(names, plan, parent, question, depth, maxDepth, maxFollowUps);
      && (result.Appended? <==>
            depth <= maxDepth && |FollowUps(plan.units)| < maxFollowUps && exists u :: u in plan.units && u.id == parent)
      && (result.Appended? ==>
            && DependenciesComeFirst(result.plan.units)
            && IsFollowedUp(plan.units, result.plan.units, parent) && result.plan.partitions == plan.partitions
            && |FollowUps(result.plan.units)| == |FollowUps(plan.units)| + 1 <= maxFollowUps)
  {
    FollowUpsAreCounted(plan.units);
    UnitIsFound(plan.units, parent);
    var result := AppendFollowUp(names, plan, parent, question, depth, maxDepth, maxFollowUps);
    if result.Appended? {
      var units := result.plan.units;
      CountOneMore(plan.units, units[|plan.units|]);
      FollowUpsAreCounted(units);
      forall i, d | 0 <= i < |units| && d in units[i].dependencies
        ensures exists j :: 0 <= j < i && units[j].id == d
      {
        if i < |plan.units| {
          var j :| 0 <= j < i && plan.units[j].id == d;
          assert units[j].id == d;
        } else {
          var u :| u in plan.units && u.id == parent;
          var j :| 0 <= j < |plan.units| && plan.units[j] == u;
          assert units[j].id == d;
        }
      }
    }
  }

  lemma {:induction false} CountOneMore(units: seq<WorkUnit>, u: WorkUnit)
    ensures CountFollowUps(units + [u]) == CountFollowUps(units) + if u.kind == FOLLOW_UP then 1 else 0
  {
    if units == [] {
      assert units + [u] == [u];
    } else {
      CountOneMore(units[1..], u);
      assert (units + [u])[1..] == units[1..] + [u];
    }
  }
}
