/**
 Incremental understanding: which work units of the current plan have to be done again after a change of the inventory,
 and which results can be reused.
 */
module IncrementalUnderstanding {
  import opened Graphs
  import GraphArtifacts
  import opened Sorting
  import opened UnderstandingPlans
  import opened UnderstandingPlanner
  import opened Wrappers

  datatype Snapshot = Snapshot(artifacts: seq<Artifact>, plan: Plan, names: Names)

  datatype ChangeType = ADDED | REMOVED | MODIFIED

  datatype Change = Change(path: string, kind: ChangeType, before: Option<Id>, after: Option<Id>)

  datatype Mode = AUTO | FULL | INCREMENTAL

  // ---------------------------------------------------------------- comparing inventories

  /** The artifact recorded for each path, the last one if there are several. */
  function ByPath(artifacts: seq<Artifact>): (byPath: map<string, Artifact>)
    ensures forall p :: p in byPath ==> byPath[p] in artifacts && byPath[p].path == p
    ensures forall a :: a in artifacts ==> a.path in byPath
  {
    if artifacts == [] then map[]
    else
      var last := artifacts[|artifacts| - 1];
      assert artifacts == artifacts[..|artifacts| - 1] + [last];
      ByPath(artifacts[..|artifacts| - 1])[last.path := last]
  }

  /** What happened to a path: nothing, if both inventories hold it with the same content or neither holds it. */
  function ChangeAt(previous: map<string, Artifact>, current: map<string, Artifact>, path: string): Option<Change> {
    if path !in previous then
      if path in current then Some(Change(path, ADDED, None, Some(current[path].range.artifact))) else None
    else if path !in current then Some(Change(path, REMOVED, Some(previous[path].range.artifact), None))
    else if previous[path].range.digest != current[path].range.digest then
      Some(Change(path, MODIFIED, Some(previous[path].range.artifact), Some(current[path].range.artifact)))
    else None
  }

  /** A path that only one of the inventories holds, or both with different content, and the artifacts it stands for there. */
  ghost predicate IsChange(previous: map<string, Artifact>, current: map<string, Artifact>, c: Change) {
    match c.kind
    case ADDED =>
      c.path !in previous && c.path in current && c.before == None && c.after == Some(current[c.path].range.artifact)
    case REMOVED =>
      c.path in previous && c.path !in current && c.before == Some(previous[c.path].range.artifact) && c.after == None
    case MODIFIED =>
      && c.path in previous && c.path in current && previous[c.path].range.digest != current[c.path].range.digest
      && c.before == Some(previous[c.path].range.artifact) && c.after == Some(current[c.path].range.artifact)
  }

  lemma ChangeAtIsChange(previous: map<string, Artifact>, current: map<string, Artifact>, c: Change)
    ensures ChangeAt(previous, current, c.path) == Some(c) <==> IsChange(previous, current, c)
  {
  }

  /** `changes` reports each changed path once, and nothing else. */
  ghost predicate AreChanges(previous: seq<Artifact>, current: seq<Artifact>, changes: seq<Change>) {
    && (forall c :: c in changes <==> IsChange(ByPath(previous), ByPath(current), c))
    && forall i, j :: 0 <= i < j < |changes| ==> changes[i].path != changes[j].path
  }

  ghost predicate InPathOrder(changes: seq<Change>, textLe: (string, string) -> bool) {
    forall i, j :: 0 <= i < j < |changes| ==> textLe(changes[i].path, changes[j].path)
  }

  /** The paths of both inventories, each once. */
  function AllPaths(artifacts: seq<Artifact>): (paths: seq<string>)
    ensures NoDuplicates(paths) && forall p :: p in paths <==> exists a :: a in artifacts && a.path == p
  {
    if artifacts == [] then []
    else
      var last := artifacts[|artifacts| - 1];
      assert artifacts == artifacts[..|artifacts| - 1] + [last];
      var rest := AllPaths(artifacts[..|artifacts| - 1]);
      if last.path in rest then rest else rest + [last.path]
  }

  method CompareSnapshots(previous: seq<Artifact>, current: seq<Artifact>, textLe: (string, string) -> bool)
    returns (changes: seq<Change>)
    ensures AreChanges(previous, current, changes)
    ensures TotalPreorder(textLe) ==> InPathOrder(changes, textLe)
  {
    var paths := Sort(AllPaths(previous + current), textLe);
    changes := CompareAlong(ByPath(previous), ByPath(current), paths);
    SortKeepsElements(AllPaths(previous + current), textLe);
    ChangedPathsAreListed(previous, current, paths);
    AllCompared(previous, current, paths);
    if TotalPreorder(textLe) {
      SortSorts(AllPaths(previous + current), textLe);
      ChangesKeepOrder(ByPath(previous), ByPath(current), paths, textLe);
    }
  }

  method CompareAlong(before: map<string, Artifact>, after: map<string, Artifact>, paths: seq<string>)
    returns (changes: seq<Change>)
    ensures changes == ChangesAlong(before, after, paths)
  {
    changes := [];
    for i := 0 to |paths|
      invariant changes == ChangesAlong(before, after, paths[..i])
    {
      var change := ChangeAt(before, after, paths[i]);
      assert paths[..i + 1][..i] == paths[..i];
      if change.Some? {
        changes := changes + [change.value];
      }
    }
    assert paths[..|paths|] == paths;
  }

  function ChangesAlong(before: map<string, Artifact>, after: map<string, Artifact>, paths: seq<string>): seq<Change> {
    if paths == [] then []
    else
      var rest := ChangesAlong(before, after, paths[..|paths| - 1]);
      var change := ChangeAt(before, after, paths[|paths| - 1]);
      if change.Some? then rest + [change.value] else rest
  }

  lemma {:induction false} ChangesAlongPaths(before: map<string, Artifact>, after: map<string, Artifact>, paths: seq<string>)
    requires NoDuplicates(paths)
    ensures forall c :: c in ChangesAlong(before, after, paths) <==> c.path in paths && ChangeAt(before, after, c.path) == Some(c)
    ensures forall i, j :: 0 <= i < j < |ChangesAlong(before, after, paths)| ==>
              ChangesAlong(before, after, paths)[i].path != ChangesAlong(before, after, paths)[j].path
  {
    if paths != [] {
      var init, last := paths[..|paths| - 1], paths[|paths| - 1];
      assert paths == init + [last];
      ChangesAlongPaths(before, after, init);
      var rest := ChangesAlong(before, after, init);
      assert forall i :: 0 <= i < |rest| ==> rest[i] in rest;
    }
  }

  lemma {:induction false} ChangesKeepOrder(
      before: map<string, Artifact>, after: map<string, Artifact>, paths: seq<string>, textLe: (string, string) -> bool)
    requires SortedBy(paths, textLe)
    ensures InPathOrder(ChangesAlong(before, after, paths), textLe)
    ensures forall c :: c in ChangesAlong(before, after, paths) ==> c.path in paths
  {
    if paths != [] {
      var init, last := paths[..|paths| - 1], paths[|paths| - 1];
      assert paths == init + [last];
      ChangesKeepOrder(before, after, init, textLe);
      var rest := ChangesAlong(before, after, init);
      forall i | 0 <= i < |rest|
        ensures textLe(rest[i].path, last)
      {
        assert rest[i] in rest;
        var k :| 0 <= k < |init| && init[k] == rest[i].path;
        assert textLe(paths[k], paths[|paths| - 1]);
      }
    }
  }

  lemma AllCompared(previous: seq<Artifact>, current: seq<Artifact>, paths: seq<string>)
    requires NoDuplicates(paths)
    requires forall p :: ChangeAt(ByPath(previous), ByPath(current), p).Some? ==> p in paths
    ensures AreChanges(previous, current, ChangesAlong(ByPath(previous), ByPath(current), paths))
  {
    ChangesAlongPaths(ByPath(previous), ByPath(current), paths);
    forall c
      ensures c in ChangesAlong(ByPath(previous), ByPath(current), paths) <==> IsChange(ByPath(previous), ByPath(current), c)
    {
      ChangeAtIsChange(ByPath(previous), ByPath(current), c);
    }
  }

  lemma ChangedPathsAreListed(previous: seq<Artifact>, current: seq<Artifact>, paths: seq<string>)
    requires forall p :: p in paths <==> exists a :: a in previous + current && a.path == p
    ensures forall p :: ChangeAt(ByPath(previous), ByPath(current), p).Some? ==> p in paths
  {
    forall p | ChangeAt(ByPath(previous), ByPath(current), p).Some?
      ensures p in paths
    {
      var a := if p in ByPath(previous) then ByPath(previous)[p] else ByPath(current)[p];
      assert a in previous + current && a.path == p;
    }
  }

  // ---------------------------------------------------------------- the closure over dependents

  /** Who depends on each unit. */
  method ReverseDependencies(units: seq<WorkUnit>) returns (dependents: map<Id, seq<Id>>)
    ensures GraphArtifacts.Represents(dependents, DependencyLinks(units))
  {
    dependents := map[];
    for i := 0 to |units|
      invariant GraphArtifacts.Represents(dependents, DependencyLinks(units[..i]))
    {
      dependents := AddDependents(dependents, DependencyLinks(units[..i]), units[i]);
      assert units[..i + 1] == units[..i] + [units[i]];
      assert DependencyLinks(units[..i + 1]) == DependencyLinks(units[..i]) + LinksOf(units[i].dependencies, units[i].id);
    }
    assert units[..|units|] == units;
  }

  ghost function LinksOf(dependencies: set<Id>, id: Id): Relation {
    set d | d in dependencies :: (d, id)
  }

  method AddDependents(dependents: map<Id, seq<Id>>, ghost links: Relation, unit: WorkUnit) returns (next: map<Id, seq<Id>>)
    requires GraphArtifacts.Represents(dependents, links)
    ensures GraphArtifacts.Represents(next, links + LinksOf(unit.dependencies, unit.id))
  {
    next := dependents;
    var todo := unit.dependencies;
    while todo != {}
      invariant todo <= unit.dependencies
      invariant GraphArtifacts.Represents(next, links + LinksOf(unit.dependencies - todo, unit.id))
    {
      var d :| d in todo;
      ghost var known := links + LinksOf(unit.dependencies - todo, unit.id);
      next := next[d := GraphArtifacts.Neighbours(next, d) + [unit.id]];
      todo := todo - {d};
      assert links + LinksOf(unit.dependencies - todo, unit.id) == known + {(d, unit.id)};
    }
  }

  /** Breadth-first closure of the seeds: a closed set that holds them and lies in any closed set `reach` that does. */
  method SpreadOverDependents(ghost r: Relation, dependents: map<Id, seq<Id>>, seeds: seq<Id>, ghost reach: set<Id>)
    returns (affected: set<Id>)
    requires GraphArtifacts.Represents(dependents, r) && (forall x :: x in seeds ==> x in reach) && Closed(r, reach)
    ensures (forall x :: x in seeds ==> x in affected) && affected <= reach && Closed(r, affected)
  {
    affected := set x | x in seeds;
    var pending := seeds;
    while |pending| > 0
      invariant affected <= reach && (forall x :: x in seeds ==> x in affected)
      invariant forall x :: x in pending ==> x in affected
      invariant forall e :: e in r && e.0 in affected ==> e.0 in pending || e.1 in affected
      decreases reach - affected, |pending|
    {
      var dependency := pending[0];
      ghost var before, known := pending, affected;
      pending := pending[1..];
      assert forall x :: x in before <==> x == dependency || x in pending;
      var next := GraphArtifacts.Neighbours(dependents, dependency);
      for i := 0 to |next|
        invariant known <= affected <= reach
        invariant affected == known ==> |pending| < |before|
        invariant forall x :: x in pending ==> x in affected
        invariant forall e :: e in r && e.0 in affected && e.0 != dependency ==> e.0 in pending || e.1 in affected
        invariant forall k :: 0 <= k < i ==> next[k] in affected
      {
        var y := next[i];
        if y in affected {
          continue;
        }
        assert (dependency, y) in r;
        affected := affected + {y};
        pending := pending + [y];
      }
    }
  }

  // ---------------------------------------------------------------- where the closure starts

  function ChangedArtifacts(changes: seq<Change>): set<Id> {
    (set c | c in changes && c.before.Some? :: c.before.value) + set c | c in changes && c.after.Some? :: c.after.value
  }

  /** The units that hold a changed artifact. */
  function Holders(units: seq<WorkUnit>, changed: set<Id>): set<Id> {
    set u | u in units && exists a :: a in u.artifacts && a in changed :: u.id
  }

  function FirstHolder(units: seq<WorkUnit>, artifact: Id): Option<WorkUnit> {
    if units == [] then None else if artifact in units[0].artifacts then Some(units[0]) else FirstHolder(units[1..], artifact)
  }

  /** The module of the partition that a unit works on; empty if it has none. */
  function LocalityOf(snapshot: Snapshot, unit: WorkUnit): string {
    match FindPartition(snapshot.names, snapshot.plan.partitions, unit.partition)
    case Some(p) => p.key.locality
    case None => ""
  }

  predicate DependsOnLocality(snapshot: Snapshot, unit: WorkUnit, locality: string) {
    exists d :: d in unit.dependencies
      && FindUnit(snapshot.plan.units, d).Some? && LocalityOf(snapshot, FindUnit(snapshot.plan.units, d).value) == locality
  }

  function ModulesOf(snapshot: Snapshot, locality: string): set<Id> {
    set u | u in snapshot.plan.units && u.kind == MODULE_SYNTHESIS && DependsOnLocality(snapshot, u, locality) :: u.id
  }

  function Projects(units: seq<WorkUnit>): set<Id> {
    set u | u in units && u.kind == PROJECT_SYNTHESIS :: u.id
  }

  /** A removed artifact affects the synthesis of its module, or the project if nothing is left of the module. */
  function RemovalSeeds(previous: Snapshot, current: Snapshot, artifact: Id): set<Id> {
    match FirstHolder(previous.plan.units, artifact)
    case None => {}
    case Some(u) =>
      var locality := LocalityOf(previous, u);
      if locality == "" then {}
      else if ModulesOf(current, locality) != {} then ModulesOf(current, locality)
      else Projects(current.plan.units)
  }

  /** The units of the previous plan that a removal retires: its holder, and the modules that depend on the holder. */
  function Retired(previous: Snapshot, artifact: Id): set<Id> {
    match FirstHolder(previous.plan.units, artifact)
    case None => {}
    case Some(u) =>
      {u.id} + if LocalityOf(previous, u) == "" then {}
               else set m | m in previous.plan.units && m.kind == MODULE_SYNTHESIS && u.id in m.dependencies :: m.id
  }

  ghost function AllRemovalSeeds(previous: Snapshot, current: Snapshot, changes: seq<Change>): set<Id> {
    set c, id | c in changes && c.kind == REMOVED && c.before.Some? && id in RemovalSeeds(previous, current, c.before.value) :: id
  }

  ghost function AllRetired(previous: Snapshot, changes: seq<Change>): set<Id> {
    set c, id | c in changes && c.kind == REMOVED && c.before.Some? && id in Retired(previous, c.before.value) :: id
  }

  method SpreadRemovals(previous: Snapshot, current: Snapshot, changes: seq<Change>) returns (seeds: set<Id>, retired: set<Id>)
    ensures seeds == AllRemovalSeeds(previous, current, changes) && retired == AllRetired(previous, changes)
  {
    seeds, retired := {}, {};
    for i := 0 to |changes|
      invariant seeds == AllRemovalSeeds(previous, current, changes[..i]) && retired == AllRetired(previous, changes[..i])
    {
      var c := changes[i];
      assert changes[..i + 1] == changes[..i] + [c];
      if c.kind == REMOVED && c.before.Some? {
        seeds := seeds + RemovalSeeds(previous, current, c.before.value);
        retired := retired + Retired(previous, c.before.value);
      }
    }
    assert changes[..|changes|] == changes;
  }

  // ---------------------------------------------------------------- the plan of an increment

  datatype Increment = Increment(
    mode: Mode, changes: seq<Change>, affected: seq<Id>, reused: seq<Id>, retired: set<Id>, affectedArtifacts: set<Id>)

  datatype Incremental = Incremental(increment: Increment) | RefusedMode | RefusedRevalidation

  /** In FULL mode every artifact counts as added. */
  function AllAdded(artifacts: seq<Artifact>): seq<Change> {
    seq(|artifacts|, i requires 0 <= i < |artifacts| => Change(artifacts[i].path, ADDED, None, Some(artifacts[i].range.artifact)))
  }

  ghost predicate AllAreAdded(artifacts: seq<Artifact>, changes: seq<Change>) {
    && |changes| == |artifacts|
    && forall i :: 0 <= i < |changes| ==>
         && changes[i].path == artifacts[i].path && changes[i].kind == ADDED
         && changes[i].before == None && changes[i].after == Some(artifacts[i].range.artifact)
  }

  ghost predicate ReportsChanges(previous: Snapshot, current: Snapshot, r: Increment) {
    && (r.mode == FULL ==> AllAreAdded(current.artifacts, r.changes))
    && (r.mode == INCREMENTAL ==> AreChanges(previous.artifacts, current.artifacts, r.changes))
  }

  function IdsOf(units: seq<WorkUnit>): set<Id> {
    set u | u in units :: u.id
  }

  /** The identifiers in the order of the plan. */
  function Select(units: seq<WorkUnit>, keep: set<Id>): (ids: seq<Id>)
    ensures forall x :: x in ids <==> x in keep && exists u :: u in units && u.id == x
  {
    if units == [] then []
    else
      assert units == [units[0]] + units[1..];
      (if units[0].id in keep then [units[0].id] else []) + Select(units[1..], keep)
  }

  function ArtifactsOfUnits(units: seq<WorkUnit>, ids: set<Id>): set<Id> {
    set u, a | u in units && u.id in ids && a in u.artifacts :: a
  }

  /** Where the closure starts, in the current plan. */
  ghost function Seeds(
      mode: Mode, previous: Snapshot, current: Snapshot, changes: seq<Change>, revalidation: set<Id>, incompatible: bool): set<Id>
  {
    Holders(current.plan.units, ChangedArtifacts(changes)) + revalidation
    + (if mode == INCREMENTAL && incompatible then IdsOf(current.plan.units) else {})
    + AllRemovalSeeds(previous, current, changes)
  }

  /** The artifacts of the changes, and those of the units to be validated again. */
  ghost predicate AreAffected(artifacts: set<Id>, changes: seq<Change>, units: seq<WorkUnit>, revalidation: set<Id>) {
    forall a :: a in artifacts <==>
      || (exists c :: c in changes && (c.before == Some(a) || c.after == Some(a)))
      || (exists u :: u in units && u.id in revalidation && a in u.artifacts)
  }

  /** The affected units are those that depend, directly or not, on a seed; exactly the others are reused. */
  ghost predicate IsIncrement(
      previous: Snapshot, current: Snapshot, revalidation: set<Id>, incompatible: bool, r: Increment)
  {
    var units := current.plan.units;
    var seeds := Seeds(r.mode, previous, current, r.changes, revalidation, incompatible);
    && (forall x :: x in r.affected <==> ReachedFrom(DependencyLinks(units), seeds, x))
    && (forall x :: x in r.reused <==> x in IdsOf(units) && x !in r.affected)
    && r.affected == Select(units, set x | x in r.affected) && r.reused == Select(units, set x | x in r.reused)
    && r.retired == AllRetired(previous, r.changes)
    && AreAffected(r.affectedArtifacts, r.changes, units, revalidation)
  }

  lemma SeedsAreUnits(
      mode: Mode, previous: Snapshot, current: Snapshot, changes: seq<Change>, revalidation: set<Id>, incompatible: bool)
    requires revalidation <= IdsOf(current.plan.units)
    ensures Seeds(mode, previous, current, changes, revalidation, incompatible) <= IdsOf(current.plan.units)
    ensures Closed(DependencyLinks(current.plan.units), IdsOf(current.plan.units))
  {
    forall x | x in AllRemovalSeeds(previous, current, changes)
      ensures x in IdsOf(current.plan.units)
    {
      var c :| c in changes && c.kind == REMOVED && c.before.Some? && x in RemovalSeeds(previous, current, c.before.value);
    }
  }

  lemma {:induction false} SelectIsStable(units: seq<WorkUnit>, keep: set<Id>)
    ensures Select(units, set x | x in Select(units, keep)) == Select(units, keep)
  {
    SelectAgrees(units, units, keep, set x | x in Select(units, keep));
  }

  lemma {:induction false} SelectAgrees(units: seq<WorkUnit>, all: seq<WorkUnit>, keep: set<Id>, kept: set<Id>)
    requires kept == (set x | x in Select(all, keep)) && forall u :: u in units ==> u in all
    ensures Select(units, kept) == Select(units, keep)
  {
    if units != [] {
      assert units[0] in all;
      SelectAgrees(units[1..], all, keep, kept);
    }
  }

  method ReportChanges(mode: Mode, previous: seq<Artifact>, current: seq<Artifact>, textLe: (string, string) -> bool)
    returns (changes: seq<Change>)
    ensures if mode == FULL then AllAreAdded(current, changes) else AreChanges(previous, current, changes)
  {
    if mode == FULL {
      changes := AllAdded(current);
    } else {
      changes := CompareSnapshots(previous, current, textLe);
    }
  }

  method IncrementOf(
      mode: Mode, previous: Snapshot, current: Snapshot, changes: seq<Change>, revalidated: set<Id>, incompatible: bool)
    returns (r: Increment)
    requires revalidated <= IdsOf(current.plan.units)
    ensures r.mode == mode && r.changes == changes && IsIncrement(previous, current, revalidated, incompatible, r)
  {
    var units := current.plan.units;
    var direct := Holders(units, ChangedArtifacts(changes)) + revalidated;
    if mode == INCREMENTAL && incompatible {
      direct := direct + IdsOf(units);
    }
    var removalSeeds, retired := SpreadRemovals(previous, current, changes);
    direct := direct + removalSeeds;
    SeedsAreUnits(mode, previous, current, changes, revalidated, incompatible);
    var affected := CloseOverDependents(units, direct);
    var affectedIds := Select(units, affected);
    var reusedIds := Select(units, set x | x in IdsOf(units) && x !in affectedIds);
    var artifacts := ChangedArtifacts(changes) + ArtifactsOfUnits(units, revalidated);
    IncrementIsThat(previous, current, mode, changes, revalidated, incompatible, affected, affectedIds, reusedIds);
    r := Increment(mode, changes, affectedIds, reusedIds, retired, artifacts);
  }

  method PlanIncrementalUnderstanding(
      requested: Mode, hasHead: bool, previous: Snapshot, current: Snapshot, revalidation: seq<Id>, incompatible: bool,
      textLe: (string, string) -> bool)
    returns (result: Incremental)
    ensures result == RefusedMode <==> requested == INCREMENTAL && !hasHead
    ensures result == RefusedRevalidation <==>
              && !(requested == INCREMENTAL && !hasHead)
              && !(NoDuplicates(revalidation) && forall x :: x in revalidation ==> x in IdsOf(current.plan.units))
    ensures result.Incremental? ==>
              var r := result.increment;
              && r.mode == (if requested != AUTO then requested else if hasHead then INCREMENTAL else FULL)
              && ReportsChanges(previous, current, r)
              && IsIncrement(previous, current, (set x | x in revalidation), incompatible, r)
  {
    if requested == INCREMENTAL && !hasHead {
      return RefusedMode;
    }
    var mode := if requested != AUTO then requested else if hasHead then INCREMENTAL else FULL;
    var units := current.plan.units;
    var revalidated := set x | x in revalidation;
    DistinctCount(revalidation);
    if |revalidated| != |revalidation| || exists x :: x in revalidation && x !in IdsOf(units) {
      return RefusedRevalidation;
    }
    var changes := ReportChanges(mode, previous.artifacts, current.artifacts, textLe);
    var increment := IncrementOf(mode, previous, current, changes, revalidated, incompatible);
    result := Incremental(increment);
  }

  lemma AffectedArtifactsAre(changes: seq<Change>, units: seq<WorkUnit>, revalidation: set<Id>)
    ensures AreAffected(ChangedArtifacts(changes) + ArtifactsOfUnits(units, revalidation), changes, units, revalidation)
  {
  }

  lemma IncrementIsThat(
      previous: Snapshot, current: Snapshot, mode: Mode, changes: seq<Change>, revalidation: set<Id>, incompatible: bool,
      affected: set<Id>, affectedIds: seq<Id>, reusedIds: seq<Id>)
    requires var seeds := Seeds(mode, previous, current, changes, revalidation, incompatible);
      forall x :: x in affected <==> ReachedFrom(DependencyLinks(current.plan.units), seeds, x)
    requires affected <= IdsOf(current.plan.units) && affectedIds == Select(current.plan.units, affected)
    requires reusedIds == Select(current.plan.units, set x | x in IdsOf(current.plan.units) && x !in affectedIds)
    ensures IsIncrement(previous, current, revalidation, incompatible, Increment(
                          mode, changes, affectedIds, reusedIds, AllRetired(previous, changes),
                          ChangedArtifacts(changes) + ArtifactsOfUnits(current.plan.units, revalidation)))
  {
    var units := current.plan.units;
    AffectedArtifactsAre(changes, units, revalidation);
    SelectIsStable(units, affected);
    SelectIsStable(units, set x | x in IdsOf(units) && x !in affectedIds);
  }

  method CloseOverDependents(units: seq<WorkUnit>, direct: set<Id>) returns (affected: set<Id>)
    requires direct <= IdsOf(units) && Closed(DependencyLinks(units), IdsOf(units))
    ensures forall x :: x in affected <==> ReachedFrom(DependencyLinks(units), direct, x)
    ensures affected <= IdsOf(units)
  {
    var dependents := ReverseDependencies(units);
    ghost var r := DependencyLinks(units);
    ghost var reach := ReachableSet(r, direct);
    affected := SpreadOverDependents(r, dependents, Select(units, direct), reach);
    assert direct <= affected;
    ClosedHoldsReached(r, affected, direct);
    ClosedHoldsReached(r, IdsOf(units), direct);
  }

  // ---------------------------------------------------------------- what reuse can rely on

  /** A reused unit depends on no affected one, whichever plan and change it is. */
  lemma ReusedDependOnReused(
      previous: Snapshot, current: Snapshot, revalidation: set<Id>, incompatible: bool, r: Increment, u: WorkUnit, d: Id)
    requires IsIncrement(previous, current, revalidation, incompatible, r)
    requires u in current.plan.units && u.id in r.reused && d in u.dependencies
    ensures d !in r.affected
  {
    if d in r.affected {
      var links := DependencyLinks(current.plan.units);
      var seeds := Seeds(r.mode, previous, current, r.changes, revalidation, incompatible);
      assert (d, u.id) in links;
      var s :| s in seeds && Reaches(links, s, d);
      ReachesOneMore(links, s, d, u.id);
    }
  }

  /** A unit without dependencies that the closure does not start from is reused. */
  lemma UntouchedLeafIsReused(
      previous: Snapshot, current: Snapshot, revalidation: set<Id>, incompatible: bool, r: Increment, u: WorkUnit)
    requires IsIncrement(previous, current, revalidation, incompatible, r)
    requires u in current.plan.units && IdsAreDistinct(current.plan.units) && u.dependencies == {}
    requires u.id !in Seeds(r.mode, previous, current, r.changes, revalidation, incompatible)
    ensures u.id in r.reused
  {
    var links := DependencyLinks(current.plan.units);
    var seeds := Seeds(r.mode, previous, current, r.changes, revalidation, incompatible);
    if ReachedFrom(links, seeds, u.id) {
      var s :| s in seeds && Reaches(links, s, u.id);
      NothingLeadsTo(current.plan.units, u, s);
    }
  }

  lemma NothingLeadsTo(units: seq<WorkUnit>, u: WorkUnit, s: Id)
    requires u in units && IdsAreDistinct(units) && u.dependencies == {} && s != u.id
    ensures !Reaches(DependencyLinks(units), s, u.id)
  {
    var links := DependencyLinks(units);
    if Reaches(links, s, u.id) {
      var others := {s} + (set e | e in links :: e.1) - {u.id};
      forall e | e in links && e.0 in others
        ensures e.1 in others
      {
        var v, d :| v in units && d in v.dependencies && e == (d, v.id);
        var i :| 0 <= i < |units| && units[i] == u;
        var j :| 0 <= j < |units| && units[j] == v;
        assert v.id == u.id ==> i == j;
      }
      ClosedHoldsReachable(links, others, s, u.id);
    }
  }

  /**
   Whether or not it is reused, the unit of a partition existed in the previous plan, of the same planner, exactly if its
   group had the same artifacts in the same places there.
   */
  lemma LeafExistedBefore(
      previous: Snapshot, current: Snapshot, max: nat, localities: seq<string>, currentLocalities: seq<string>, p: Partition)
    requires IsPlannedSnapshot(previous, max, localities) && IsPlannedSnapshot(current, max, currentLocalities)
    requires previous.names == current.names && p in current.plan.partitions
    ensures LeafUnit(current.names, p) in current.plan.units
    ensures LeafUnit(current.names, p).id in UnitIds(previous.plan.units) <==>
            IsShard(Members(previous.artifacts, p.key), max, p)
  {
    var names := current.names;
    var u := LeafUnit(names, p);
    LeafIsPlanned(names, current.plan, currentLocalities, p);
    if p in previous.plan.partitions {
      LeafIsPlanned(names, previous.plan, localities, p);
    }
    if u.id in UnitIds(previous.plan.units) {
      var v :| v in previous.plan.units && v.id == u.id;
      UnitOfPartition(names, previous.plan, localities, v, p);
    }
  }

  lemma LeafIsPlanned(names: Names, plan: Plan, localities: seq<string>, p: Partition)
    requires HasUnits(names, plan, localities) && p in plan.partitions
    ensures LeafUnit(names, p) in plan.units
  {
    var j :| 0 <= j < |plan.partitions| && plan.partitions[j] == p;
    assert LeafUnits(names, plan.partitions)[j] == plan.units[j];
  }

  lemma UnitOfPartition(names: Names, plan: Plan, localities: seq<string>, v: WorkUnit, p: Partition)
    requires AreInjective(names) && HasUnits(names, plan, localities)
    requires v in plan.units && v.id == LeafUnit(names, p).id
    ensures p in plan.partitions
  {
    var leaves, modules := LeafUnits(names, plan.partitions), ModuleUnits(names, plan.partitions, localities);
    assert v in leaves || v in modules || v in ProjectUnits(names, modules);
    assert v in leaves;
    var j :| 0 <= j < |leaves| && leaves[j] == v;
    assert plan.partitions[j] == p;
  }

  lemma ShiftedShardDiffers(before: seq<Range>, after: seq<Range>, removed: Range, max: nat, p: Partition)
    requires before == [removed] + after && NoDuplicates(before) && max >= 1 && IsShard(after, max, p)
    ensures !IsShard(before, max, p)
  {
    var offset := p.shard * max;
    assert p.ranges[0] == after[offset] == before[offset + 1] != before[offset];
    assert Chunk(before, offset, max)[0] == before[offset];
  }

  /**
   The input: the first artifact of a group is removed. All its partitions shift, so that none of their units existed
   before; and still those from which the closure does not start are reused.
   */
  lemma ReusedNeedNotHaveExisted(
      previous: Snapshot, current: Snapshot, max: nat, localities: seq<string>, currentLocalities: seq<string>,
      revalidation: set<Id>, incompatible: bool, r: Increment, p: Partition, removed: Range)
    requires IsPlannedSnapshot(previous, max, localities) && IsPlannedSnapshot(current, max, currentLocalities)
    requires previous.names == current.names && p in current.plan.partitions && max >= 1
    requires IsIncrement(previous, current, revalidation, incompatible, r)
    requires Members(previous.artifacts, p.key) == [removed] + Members(current.artifacts, p.key)
    requires NoDuplicates(Members(previous.artifacts, p.key))
    ensures var id := LeafUnit(current.names, p).id;
      && id !in UnitIds(previous.plan.units)
      && (id !in Seeds(r.mode, previous, current, r.changes, revalidation, incompatible) ==> id in r.reused)
  {
    LeafExistedBefore(previous, current, max, localities, currentLocalities, p);
    ShiftedShardDiffers(Members(previous.artifacts, p.key), Members(current.artifacts, p.key), removed, max, p);
    PlannedIdsAreDistinct(current.names, current.plan, currentLocalities);
    if LeafUnit(current.names, p).id !in Seeds(r.mode, previous, current, r.changes, revalidation, incompatible) {
      UntouchedLeafIsReused(previous, current, revalidation, incompatible, r, LeafUnit(current.names, p));
    }
  }

  lemma {:induction false} SourcesHaveALane(kinds: seq<ArtifactKind>)
    ensures FirstLane(kinds) != GAP
  {
    if kinds != [] {
      SourcesHaveALane(kinds[1..]);
    }
  }

  /** In a planner's plan, a closed set that holds a module's synthesis holds the project's. */
  lemma ModuleReachesProject(names: Names, plan: Plan, localities: seq<string>, affected: set<Id>, m: WorkUnit)
    requires HasUnits(names, plan, localities) && Closed(DependencyLinks(plan.units), affected)
    requires m in ModuleUnits(names, plan.partitions, localities) && m.id in affected
    ensures exists u :: u in plan.units && u.kind == PROJECT_SYNTHESIS
    ensures forall u :: u in plan.units && u.kind == PROJECT_SYNTHESIS ==> u.id in affected
  {
    var modules := ModuleUnits(names, plan.partitions, localities);
    var project := ProjectUnit(names, UnitIds(modules));
    assert project in ProjectUnits(names, modules) && project in plan.units;
    assert (m.id, project.id) in DependencyLinks(plan.units);
    ProjectsAreLast(names, plan, localities);
  }

  lemma ProjectsAreLast(names: Names, plan: Plan, localities: seq<string>)
    requires HasUnits(names, plan, localities)
    ensures forall u :: u in plan.units && u.kind == PROJECT_SYNTHESIS ==>
              u == ProjectUnit(names, UnitIds(ModuleUnits(names, plan.partitions, localities)))
    ensures forall u :: u in plan.units && u.kind == MODULE_SYNTHESIS ==> u in ModuleUnits(names, plan.partitions, localities)
  {
    var leaves, modules := LeafUnits(names, plan.partitions), ModuleUnits(names, plan.partitions, localities);
    forall u | u in plan.units
      ensures u in leaves || u in modules || u in ProjectUnits(names, modules)
    {
    }
  }

  /** A changed artifact that is now included in the analysis reaches the synthesis of the project. */
  lemma IncludedChangeReachesProject(
      current: Snapshot, max: nat, localities: seq<string>, a: Artifact, changed: set<Id>, affected: set<Id>)
    requires IsPlan(current.names, current.artifacts, max, current.plan, localities)
    requires NoDuplicates(Ids(RangesOf(current.artifacts)))
    requires a in current.artifacts && a.included && a.range.artifact in changed
    requires Holders(current.plan.units, changed) <= affected && Closed(DependencyLinks(current.plan.units), affected)
    ensures exists u :: u in current.plan.units && u.kind == PROJECT_SYNTHESIS
    ensures forall u :: u in current.plan.units && u.kind == PROJECT_SYNTHESIS ==> u.id in affected
  {
    var names, plan := current.names, current.plan;
    var i := ArtifactHasOnePartition(current.artifacts, max, plan.partitions, a);
    var p := plan.partitions[i];
    SourcesHaveALane(a.kinds);
    var leaf := LeafUnit(names, p);
    HolderIsAffected(current, localities, i, a.range, changed, affected);
    assert HasSources(plan.partitions, p.key.locality);
    var j :| 0 <= j < |localities| && localities[j] == p.key.locality;
    var m := ModuleUnits(names, plan.partitions, localities)[j];
    assert leaf.id in m.dependencies && m in plan.units;
    assert (leaf.id, m.id) in DependencyLinks(plan.units);
    ModuleReachesProject(names, plan, localities, affected, m);
  }

  lemma HolderIsAffected(
      current: Snapshot, localities: seq<string>, i: nat, r: Range, changed: set<Id>, affected: set<Id>)
    requires HasUnits(current.names, current.plan, localities) && i < |current.plan.partitions|
    requires r in current.plan.partitions[i].ranges && r.artifact in changed
    requires Holders(current.plan.units, changed) <= affected
    ensures LeafUnit(current.names, current.plan.partitions[i]).id in affected
  {
    var p := current.plan.partitions[i];
    var leaf := LeafUnit(current.names, p);
    assert leaf == current.plan.units[i];
    var k :| 0 <= k < |p.ranges| && p.ranges[k] == r;
    assert leaf.artifacts[k] == r.artifact;
    assert leaf in current.plan.units && r.artifact in leaf.artifacts;
  }

  lemma {:induction false} FirstHolderIsLeaf(names: Names, partitions: seq<Partition>, rest: seq<WorkUnit>, i: nat, id: Id)
    returns (j: nat)
    requires i < |partitions| && id in Ids(partitions[i].ranges)
    ensures j < |partitions| && id in Ids(partitions[j].ranges)
    ensures FirstHolder(LeafUnits(names, partitions) + rest, id) == Some(LeafUnit(names, partitions[j]))
  {
    var units := LeafUnits(names, partitions) + rest;
    if id in units[0].artifacts {
      j := 0;
    } else {
      assert units[1..] == LeafUnits(names, partitions[1..]) + rest;
      var k := FirstHolderIsLeaf(names, partitions[1..], rest, i - 1, id);
      j := k + 1;
    }
  }

  /** Paths are relative: none begins with a slash. */
  ghost predicate RelativePaths(artifacts: seq<Artifact>) {
    forall a :: a in artifacts ==> !(a.path != "" && a.path[0] == '/')
  }

  ghost predicate IsPlannedSnapshot(s: Snapshot, max: nat, localities: seq<string>) {
    && AreInjective(s.names) && IsPlan(s.names, s.artifacts, max, s.plan, localities)
    && NoDuplicates(Ids(RangesOf(s.artifacts))) && RelativePaths(s.artifacts)
  }

  lemma IdOfRange(ranges: seq<Range>, r: Range)
    requires r in ranges
    ensures r.artifact in Ids(ranges)
  {
    var k :| 0 <= k < |ranges| && ranges[k] == r;
    assert Ids(ranges)[k] == r.artifact;
  }

  lemma RangeOfId(ranges: seq<Range>, id: Id)
    requires id in Ids(ranges)
    ensures exists r :: r in ranges && r.artifact == id
  {
    var k :| 0 <= k < |ranges| && Ids(ranges)[k] == id;
    assert ranges[k] in ranges;
  }

  lemma LocalityOfLeaf(s: Snapshot, p: Partition)
    requires AreInjective(s.names) && p in s.plan.partitions
    ensures LocalityOf(s, LeafUnit(s.names, p)) == p.key.locality
  {
    var i :| 0 <= i < |s.plan.partitions| && s.plan.partitions[i] == p;
    PartitionIsFound(s.names, s.plan.partitions, i);
  }

  lemma FirstHolderOfPlan(s: Snapshot, localities: seq<string>, i: nat, id: Id) returns (j: nat, r: Range)
    requires HasUnits(s.names, s.plan, localities)
    requires i < |s.plan.partitions| && id in Ids(s.plan.partitions[i].ranges)
    ensures j < |s.plan.partitions| && r in s.plan.partitions[j].ranges && r.artifact == id
    ensures FirstHolder(s.plan.units, id) == Some(LeafUnit(s.names, s.plan.partitions[j]))
  {
    var partitions := s.plan.partitions;
    var modules := ModuleUnits(s.names, partitions, localities);
    var rest := modules + ProjectUnits(s.names, modules);
    j := FirstHolderIsLeaf(s.names, partitions, rest, i, id);
    assert s.plan.units == LeafUnits(s.names, partitions) + rest;
    RangeOfId(partitions[j].ranges, id);
    r :| r in partitions[j].ranges && r.artifact == id;
  }

  /** The first unit with an artifact is that of the one partition that holds it. */
  lemma HolderIsFound(s: Snapshot, max: nat, localities: seq<string>, b: Artifact) returns (p: Partition)
    requires IsPlannedSnapshot(s, max, localities) && b in s.artifacts
    ensures p in s.plan.partitions && p.key == KeyFor(b) && b.range in p.ranges
    ensures forall q :: q in s.plan.partitions && b.range in q.ranges ==> q == p
    ensures FirstHolder(s.plan.units, b.range.artifact) == Some(LeafUnit(s.names, p))
    ensures LocalityOf(s, LeafUnit(s.names, p)) == ModuleFor(b.path) != ""
  {
    var i := ArtifactHasOnePartition(s.artifacts, max, s.plan.partitions, b);
    IdOfRange(s.plan.partitions[i].ranges, b.range);
    var j, r := FirstHolderOfPlan(s, localities, i, b.range.artifact);
    p := s.plan.partitions[i];
    LocalityOfLeaf(s, p);
    ModuleForIsEmpty(b.path);
  }

  /** A removed artifact reaches the synthesis of the project, if there is one. */
  lemma RemovalReachesProject(
      previous: Snapshot, current: Snapshot, max: nat, localities: seq<string>, currentLocalities: seq<string>,
      b: Artifact, affected: set<Id>)
    requires IsPlannedSnapshot(previous, max, localities) && b in previous.artifacts
    requires HasUnits(current.names, current.plan, currentLocalities)
    requires RemovalSeeds(previous, current, b.range.artifact) <= affected
    requires Closed(DependencyLinks(current.plan.units), affected)
    ensures forall u :: u in current.plan.units && u.kind == PROJECT_SYNTHESIS ==> u.id in affected
  {
    var p := HolderIsFound(previous, max, localities, b);
    var locality := ModuleFor(b.path);
    if ModulesOf(current, locality) != {} {
      var x :| x in ModulesOf(current, locality);
      var m :| m in current.plan.units && m.kind == MODULE_SYNTHESIS && m.id == x;
      ProjectsAreLast(current.names, current.plan, currentLocalities);
      ModuleReachesProject(current.names, current.plan, currentLocalities, affected, m);
    }
  }

  lemma AffectedIsClosed(previous: Snapshot, current: Snapshot, revalidation: set<Id>, incompatible: bool, r: Increment)
    returns (affected: set<Id>)
    requires IsIncrement(previous, current, revalidation, incompatible, r)
    ensures forall x :: x in affected <==> x in r.affected
    ensures Closed(DependencyLinks(current.plan.units), affected)
    ensures Seeds(r.mode, previous, current, r.changes, revalidation, incompatible) <= affected
  {
    affected := ReachableSet(
      DependencyLinks(current.plan.units), Seeds(r.mode, previous, current, r.changes, revalidation, incompatible));
  }

  /**
   * Between two plans of the planner: a removal, or an addition or modification of an artifact that is now included,
   * always has the project synthesis done again, if there is one; and for an included artifact there is one.
   */
  lemma ChangeReachesProject(
      previous: Snapshot, current: Snapshot, max: nat, localities: seq<string>, currentMax: nat, currentLocalities: seq<string>,
      revalidation: set<Id>, incompatible: bool, r: Increment, c: Change)
    requires IsPlannedSnapshot(previous, max, localities) && IsPlannedSnapshot(current, currentMax, currentLocalities)
    requires IsIncrement(previous, current, revalidation, incompatible, r)
    requires AreChanges(previous.artifacts, current.artifacts, r.changes) && c in r.changes
    requires c.kind == REMOVED || (c.path in ByPath(current.artifacts) && ByPath(current.artifacts)[c.path].included)
    ensures forall u :: u in current.plan.units && u.kind == PROJECT_SYNTHESIS ==> u.id in r.affected
    ensures c.kind != REMOVED ==> exists u :: u in current.plan.units && u.kind == PROJECT_SYNTHESIS
  {
    var affected := AffectedIsClosed(previous, current, revalidation, incompatible, r);
    ChangeSource(previous, current, r.changes, c);
    if c.kind == REMOVED {
      RemovalIsSeed(previous, current, r.changes, c);
      RemovalReachesProject(
        previous, current, max, localities, currentLocalities, ByPath(previous.artifacts)[c.path], affected);
    } else {
      IncludedChangeReachesProject(
        current, currentMax, currentLocalities, ByPath(current.artifacts)[c.path], ChangedArtifacts(r.changes), affected);
    }
  }

  lemma ChangeSource(previous: Snapshot, current: Snapshot, changes: seq<Change>, c: Change)
    requires AreChanges(previous.artifacts, current.artifacts, changes) && c in changes
    ensures c.kind == REMOVED ==>
              && c.path in ByPath(previous.artifacts)
              && c.before == Some(ByPath(previous.artifacts)[c.path].range.artifact)
    ensures c.kind != REMOVED ==>
              && c.path in ByPath(current.artifacts)
              && ByPath(current.artifacts)[c.path].range.artifact in ChangedArtifacts(changes)
  {
    assert IsChange(ByPath(previous.artifacts), ByPath(current.artifacts), c);
  }

  lemma RemovalIsSeed(previous: Snapshot, current: Snapshot, changes: seq<Change>, c: Change)
    requires c in changes && c.kind == REMOVED && c.before.Some?
    ensures RemovalSeeds(previous, current, c.before.value) <= AllRemovalSeeds(previous, current, changes)
  {
  }
}
