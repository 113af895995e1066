/**
 What an increment of understanding does again and what it retires, said of the partitions, the modules and the project
 of plans that the planner made.
 */
module UnderstandingIncrements {
  import opened Graphs
  import opened IncrementalUnderstanding
  import opened Sorting
  import opened UnderstandingPlanner
  import opened UnderstandingPlans
  import opened Wrappers

  /** An increment and what it was planned from. */
  datatype Update = Update(
    previous: Snapshot, current: Snapshot, revalidation: set<Id>, incompatible: bool, increment: Increment)

  /** An increment that was not refused, between two plans of the planner. */
  ghost predicate IsUpdate(u: Update, max: nat, localities: seq<string>, currentMax: nat, currentLocalities: seq<string>) {
    && IsPlannedSnapshot(u.previous, max, localities) && IsPlannedSnapshot(u.current, currentMax, currentLocalities)
    && u.increment.mode != AUTO && u.revalidation <= IdsOf(u.current.plan.units)
    && ReportsChanges(u.previous, u.current, u.increment)
    && IsIncrement(u.previous, u.current, u.revalidation, u.incompatible, u.increment)
  }

  // ---------------------------------------------------------------- what has to be done again

  ghost predicate IsChanged(changes: seq<Change>, id: Id) {
    exists c :: c in changes && (c.before == Some(id) || c.after == Some(id))
  }

  ghost predicate RemovesFrom(changes: seq<Change>, locality: string) {
    exists c :: c in changes && c.kind == REMOVED && ModuleFor(c.path) == locality
  }

  ghost predicate RedoesAll(u: Update) {
    u.increment.mode == INCREMENTAL && u.incompatible
  }

  /** The synthesis unit of a module. */
  ghost function SynthesisOf(s: Snapshot, locality: string): WorkUnit {
    ModuleUnit(s.names, locality, LeafIds(s.names, s.plan.partitions, locality))
  }

  /** The unit of a partition is done again if it holds a changed artifact. */
  ghost predicate LeafIsRedone(u: Update, v: WorkUnit) {
    RedoesAll(u) || v.id in u.revalidation || exists a :: a in v.artifacts && IsChanged(u.increment.changes, a)
  }

  /** A module's synthesis is done again if something was removed from the module, or one of its sources is done again. */
  ghost predicate ModuleIsRedone(u: Update, locality: string) {
    || RedoesAll(u) || SynthesisOf(u.current, locality).id in u.revalidation || RemovesFrom(u.increment.changes, locality)
    || exists p :: p in u.current.plan.partitions && p.key.locality == locality && p.key.lane != GAP
         && LeafIsRedone(u, LeafUnit(u.current.names, p))
  }

  /** The project's is if a module's is, or if something was removed from a module that has no sources now. */
  ghost predicate ProjectIsRedone(u: Update, v: WorkUnit) {
    || RedoesAll(u) || v.id in u.revalidation
    || (exists l :: HasSources(u.current.plan.partitions, l) && ModuleIsRedone(u, l))
    || exists l :: !HasSources(u.current.plan.partitions, l) && RemovesFrom(u.increment.changes, l)
  }

  ghost predicate IsRedoneModule(u: Update, v: WorkUnit, locality: string) {
    HasSources(u.current.plan.partitions, locality) && v == SynthesisOf(u.current, locality) && ModuleIsRedone(u, locality)
  }

  ghost predicate UnitIsRedone(u: Update, v: WorkUnit) {
    match v.kind
    case MODULE_SYNTHESIS => exists l :: IsRedoneModule(u, v, l)
    case PROJECT_SYNTHESIS => ProjectIsRedone(u, v)
    case _ => LeafIsRedone(u, v)
  }

  // ---------------------------------------------------------------- what a removal starts from

  lemma UnitIsTheOneFound(units: seq<WorkUnit>, v: WorkUnit)
    requires IdsAreDistinct(units) && v in units
    ensures FindUnit(units, v.id) == Some(v)
  {
    UnitIsFound(units, v.id);
    var w := FindUnit(units, v.id).value;
    var i :| 0 <= i < |units| && units[i] == v;
    var j :| 0 <= j < |units| && units[j] == w;
  }

  lemma SynthesisDependsOnItsModule(s: Snapshot, max: nat, localities: seq<string>, l: string, locality: string)
    requires IsPlannedSnapshot(s, max, localities) && HasSources(s.plan.partitions, l)
    ensures DependsOnLocality(s, SynthesisOf(s, l), locality) <==> l == locality
  {
    var names, partitions := s.names, s.plan.partitions;
    PlannedIdsAreDistinct(names, s.plan, localities);
    forall d | d in LeafIds(names, partitions, l)
      ensures FindUnit(s.plan.units, d).Some? && LocalityOf(s, FindUnit(s.plan.units, d).value) == l
    {
      var p :| p in partitions && p.key.locality == l && p.key.lane != GAP && LeafUnit(names, p).id == d;
      LeafIsPlanned(names, s.plan, localities, p);
      UnitIsTheOneFound(s.plan.units, LeafUnit(names, p));
      LocalityOfLeaf(s, p);
    }
    SourcesAreLeaves(names, partitions, l);
    var d :| d in LeafIds(names, partitions, l);
    assert d in SynthesisOf(s, l).dependencies;
  }

  /** The synthesis units of a plan, by module. */
  lemma SynthesesOfPlan(s: Snapshot, localities: seq<string>)
    requires HasUnits(s.names, s.plan, localities)
    ensures forall l :: HasSources(s.plan.partitions, l) ==> SynthesisOf(s, l) in s.plan.units
    ensures forall v :: v in s.plan.units && v.kind == MODULE_SYNTHESIS ==>
              exists l :: HasSources(s.plan.partitions, l) && v == SynthesisOf(s, l)
  {
    var modules := ModuleUnits(s.names, s.plan.partitions, localities);
    forall l | HasSources(s.plan.partitions, l)
      ensures SynthesisOf(s, l) in s.plan.units
    {
      var j :| 0 <= j < |localities| && localities[j] == l;
      assert modules[j] in modules;
    }
    ProjectsAreLast(s.names, s.plan, localities);
    forall v | v in s.plan.units && v.kind == MODULE_SYNTHESIS
      ensures exists l :: HasSources(s.plan.partitions, l) && v == SynthesisOf(s, l)
    {
      var j :| 0 <= j < |modules| && modules[j] == v;
      assert HasSources(s.plan.partitions, localities[j]);
    }
  }

  lemma ModulesOfLocality(s: Snapshot, max: nat, localities: seq<string>, locality: string)
    requires IsPlannedSnapshot(s, max, localities)
    ensures ModulesOf(s, locality) == if HasSources(s.plan.partitions, locality) then {SynthesisOf(s, locality).id} else {}
  {
    SynthesesOfPlan(s, localities);
    forall x | x in ModulesOf(s, locality)
      ensures HasSources(s.plan.partitions, locality) && x == SynthesisOf(s, locality).id
    {
      var v :| v in s.plan.units && v.kind == MODULE_SYNTHESIS && DependsOnLocality(s, v, locality) && v.id == x;
      var l :| HasSources(s.plan.partitions, l) && v == SynthesisOf(s, l);
      SynthesisDependsOnItsModule(s, max, localities, l, locality);
    }
    if HasSources(s.plan.partitions, locality) {
      SynthesisDependsOnItsModule(s, max, localities, locality, locality);
      assert SynthesisOf(s, locality).id in ModulesOf(s, locality);
    }
  }

  lemma RemovalWithHolder(previous: Snapshot, current: Snapshot, artifact: Id, u: WorkUnit)
    requires FirstHolder(previous.plan.units, artifact) == Some(u) && LocalityOf(previous, u) != ""
    ensures var modules := ModulesOf(current, LocalityOf(previous, u));
      RemovalSeeds(previous, current, artifact) == if modules != {} then modules else Projects(current.plan.units)
  {
  }

  lemma RemovalStartsFrom(
      previous: Snapshot, current: Snapshot, max: nat, localities: seq<string>, currentMax: nat, currentLocalities: seq<string>,
      b: Artifact)
    requires IsPlannedSnapshot(previous, max, localities) && IsPlannedSnapshot(current, currentMax, currentLocalities)
    requires b in previous.artifacts
    ensures RemovalSeeds(previous, current, b.range.artifact)
            == if HasSources(current.plan.partitions, ModuleFor(b.path)) then {SynthesisOf(current, ModuleFor(b.path)).id}
               else Projects(current.plan.units)
  {
    var p := HolderIsFound(previous, max, localities, b);
    RemovalWithHolder(previous, current, b.range.artifact, LeafUnit(previous.names, p));
    ModulesOfLocality(current, currentMax, currentLocalities, ModuleFor(b.path));
  }

  lemma RemovalOf(u: Update, max: nat, localities: seq<string>, currentMax: nat, currentLocalities: seq<string>, c: Change)
    requires IsUpdate(u, max, localities, currentMax, currentLocalities)
    requires c in u.increment.changes && c.kind == REMOVED
    ensures c.path in ByPath(u.previous.artifacts)
    ensures c.before == Some(ByPath(u.previous.artifacts)[c.path].range.artifact)
  {
    if u.increment.mode == INCREMENTAL {
      ChangeSource(u.previous, u.current, u.increment.changes, c);
    }
  }

  // ---------------------------------------------------------------- exactly what is done again

  /** A unit of a plan is that of a partition, of a module or of the project. */
  lemma KindsOfUnits(s: Snapshot, localities: seq<string>, v: WorkUnit)
    requires HasUnits(s.names, s.plan, localities) && v in s.plan.units
    ensures v.kind == MODULE_SYNTHESIS ==> exists l :: HasSources(s.plan.partitions, l) && v == SynthesisOf(s, l)
    ensures v.kind == PROJECT_SYNTHESIS ==>
              v.artifacts == [] && v.dependencies == UnitIds(ModuleUnits(s.names, s.plan.partitions, localities))
    ensures v.kind != MODULE_SYNTHESIS && v.kind != PROJECT_SYNTHESIS ==>
              exists p :: p in s.plan.partitions && v == LeafUnit(s.names, p)
  {
    SynthesesOfPlan(s, localities);
    ProjectsAreLast(s.names, s.plan, localities);
    var modules := ModuleUnits(s.names, s.plan.partitions, localities);
    if v in LeafUnits(s.names, s.plan.partitions) {
      var j :| 0 <= j < |s.plan.partitions| && LeafUnits(s.names, s.plan.partitions)[j] == v;
      assert s.plan.partitions[j] in s.plan.partitions;
    } else {
      assert v in modules || v in ProjectUnits(s.names, modules);
    }
  }

  lemma SameIdSameUnit(units: seq<WorkUnit>, v: WorkUnit, w: WorkUnit)
    requires IdsAreDistinct(units) && v in units && w in units && v.id == w.id
    ensures v == w
  {
    UnitIsTheOneFound(units, v);
    UnitIsTheOneFound(units, w);
  }

  lemma SourceIsRedone(u: Update, localities: seq<string>, v: WorkUnit, l: string)
    requires AreInjective(u.current.names) && HasUnits(u.current.names, u.current.plan, localities)
    requires IdsAreDistinct(u.current.plan.units) && v in u.current.plan.units
    requires v.id in SynthesisOf(u.current, l).dependencies && UnitIsRedone(u, v)
    ensures ModuleIsRedone(u, l)
  {
    var names, partitions := u.current.names, u.current.plan.partitions;
    var p :| p in partitions && p.key.locality == l && p.key.lane != GAP && LeafUnit(names, p).id == v.id;
    LeafIsPlanned(names, u.current.plan, localities, p);
    SameIdSameUnit(u.current.plan.units, v, LeafUnit(names, p));
    assert LeafIsRedone(u, LeafUnit(names, p));
  }

  lemma ModuleOfProjectIsRedone(u: Update, localities: seq<string>, v: WorkUnit, w: WorkUnit)
    requires HasUnits(u.current.names, u.current.plan, localities) && IdsAreDistinct(u.current.plan.units)
    requires v in u.current.plan.units && UnitIsRedone(u, v)
    requires v.id in UnitIds(ModuleUnits(u.current.names, u.current.plan.partitions, localities))
    ensures ProjectIsRedone(u, w)
  {
    var modules := ModuleUnits(u.current.names, u.current.plan.partitions, localities);
    var m :| m in modules && m.id == v.id;
    assert m in u.current.plan.units;
    SameIdSameUnit(u.current.plan.units, v, m);
    var l :| IsRedoneModule(u, v, l);
  }

  lemma DependentIsRedone(u: Update, localities: seq<string>, v: WorkUnit, w: WorkUnit)
    requires AreInjective(u.current.names) && HasUnits(u.current.names, u.current.plan, localities)
    requires IdsAreDistinct(u.current.plan.units) && v in u.current.plan.units && w in u.current.plan.units
    requires v.id in w.dependencies && UnitIsRedone(u, v)
    ensures UnitIsRedone(u, w)
  {
    KindsOfUnits(u.current, localities, w);
    if w.kind == MODULE_SYNTHESIS {
      var l :| HasSources(u.current.plan.partitions, l) && w == SynthesisOf(u.current, l);
      SourceIsRedone(u, localities, v, l);
      assert IsRedoneModule(u, w, l);
    } else if w.kind == PROJECT_SYNTHESIS {
      ModuleOfProjectIsRedone(u, localities, v, w);
    }
  }

  ghost function Redone(u: Update): set<Id> {
    set v | v in u.current.plan.units && UnitIsRedone(u, v) :: v.id
  }

  lemma RedoneIsClosed(u: Update, localities: seq<string>)
    requires AreInjective(u.current.names) && HasUnits(u.current.names, u.current.plan, localities)
    requires IdsAreDistinct(u.current.plan.units)
    ensures Closed(DependencyLinks(u.current.plan.units), Redone(u))
  {
    forall e | e in DependencyLinks(u.current.plan.units) && e.0 in Redone(u)
      ensures e.1 in Redone(u)
    {
      var w, d :| w in u.current.plan.units && d in w.dependencies && e == (d, w.id);
      var v :| v in u.current.plan.units && UnitIsRedone(u, v) && v.id == d;
      DependentIsRedone(u, localities, v, w);
    }
  }

  ghost function SeedsOf(u: Update): set<Id> {
    Seeds(u.increment.mode, u.previous, u.current, u.increment.changes, u.revalidation, u.incompatible)
  }

  lemma ChangedIsChanged(changes: seq<Change>, id: Id)
    ensures id in ChangedArtifacts(changes) <==> IsChanged(changes, id)
  {
  }

  lemma HolderIsRedone(u: Update, localities: seq<string>, v: WorkUnit)
    requires HasUnits(u.current.names, u.current.plan, localities) && v in u.current.plan.units
    requires exists a :: a in v.artifacts && a in ChangedArtifacts(u.increment.changes)
    ensures UnitIsRedone(u, v)
  {
    var a :| a in v.artifacts && a in ChangedArtifacts(u.increment.changes);
    ChangedIsChanged(u.increment.changes, a);
    KindsOfUnits(u.current, localities, v);
  }

  lemma NamedIsRedone(u: Update, localities: seq<string>, v: WorkUnit)
    requires HasUnits(u.current.names, u.current.plan, localities) && v in u.current.plan.units
    requires v.id in u.revalidation || RedoesAll(u)
    ensures UnitIsRedone(u, v)
  {
    KindsOfUnits(u.current, localities, v);
    if v.kind == MODULE_SYNTHESIS {
      var l :| HasSources(u.current.plan.partitions, l) && v == SynthesisOf(u.current, l);
      assert IsRedoneModule(u, v, l);
    }
  }

  lemma RemovedFromIsRedone(u: Update, localities: seq<string>, l: string, x: Id)
    requires HasUnits(u.current.names, u.current.plan, localities) && RemovesFrom(u.increment.changes, l)
    requires if HasSources(u.current.plan.partitions, l) then x == SynthesisOf(u.current, l).id
             else x in Projects(u.current.plan.units)
    ensures x in Redone(u)
  {
    if HasSources(u.current.plan.partitions, l) {
      SynthesesOfPlan(u.current, localities);
      assert IsRedoneModule(u, SynthesisOf(u.current, l), l);
    } else {
      var v :| v in u.current.plan.units && v.kind == PROJECT_SYNTHESIS && v.id == x;
      assert ProjectIsRedone(u, v);
    }
  }

  lemma RemovalIsRedone(
      u: Update, max: nat, localities: seq<string>, currentMax: nat, currentLocalities: seq<string>, c: Change, x: Id)
    requires IsUpdate(u, max, localities, currentMax, currentLocalities)
    requires c in u.increment.changes && c.kind == REMOVED && c.before.Some?
    requires x in RemovalSeeds(u.previous, u.current, c.before.value)
    ensures x in Redone(u)
  {
    RemovalOf(u, max, localities, currentMax, currentLocalities, c);
    RemovalStartsFrom(
      u.previous, u.current, max, localities, currentMax, currentLocalities, ByPath(u.previous.artifacts)[c.path]);
    assert RemovesFrom(u.increment.changes, ModuleFor(c.path));
    RemovedFromIsRedone(u, currentLocalities, ModuleFor(c.path), x);
  }

  lemma SeedsAreRedone(u: Update, max: nat, localities: seq<string>, currentMax: nat, currentLocalities: seq<string>)
    requires IsUpdate(u, max, localities, currentMax, currentLocalities)
    ensures SeedsOf(u) <= Redone(u)
  {
    forall x | x in SeedsOf(u)
      ensures x in Redone(u)
    {
      if x in AllRemovalSeeds(u.previous, u.current, u.increment.changes) {
        var c :| c in u.increment.changes && c.kind == REMOVED && c.before.Some?
          && x in RemovalSeeds(u.previous, u.current, c.before.value);
        RemovalIsRedone(u, max, localities, currentMax, currentLocalities, c, x);
      } else if x in Holders(u.current.plan.units, ChangedArtifacts(u.increment.changes)) {
        var v :| v in u.current.plan.units && v.id == x
          && exists a :: a in v.artifacts && a in ChangedArtifacts(u.increment.changes);
        HolderIsRedone(u, currentLocalities, v);
      } else {
        var v :| v in u.current.plan.units && v.id == x;
        NamedIsRedone(u, currentLocalities, v);
      }
    }
  }

  // ---------------------------------------------------------------- and no less

  lemma RedoneLeafIsSeed(u: Update, v: WorkUnit)
    requires v in u.current.plan.units && LeafIsRedone(u, v)
    requires RedoesAll(u) ==> IdsOf(u.current.plan.units) <= SeedsOf(u)
    ensures v.id in SeedsOf(u)
  {
    if !RedoesAll(u) && v.id !in u.revalidation {
      var a :| a in v.artifacts && IsChanged(u.increment.changes, a);
      ChangedIsChanged(u.increment.changes, a);
      assert v.id in Holders(u.current.plan.units, ChangedArtifacts(u.increment.changes));
    }
  }

  lemma RemovedFromStarts(
      u: Update, max: nat, localities: seq<string>, currentMax: nat, currentLocalities: seq<string>, l: string)
    requires IsUpdate(u, max, localities, currentMax, currentLocalities) && RemovesFrom(u.increment.changes, l)
    ensures if HasSources(u.current.plan.partitions, l) then SynthesisOf(u.current, l).id in SeedsOf(u)
            else Projects(u.current.plan.units) <= SeedsOf(u)
  {
    var c :| c in u.increment.changes && c.kind == REMOVED && ModuleFor(c.path) == l;
    RemovalOf(u, max, localities, currentMax, currentLocalities, c);
    RemovalStartsFrom(
      u.previous, u.current, max, localities, currentMax, currentLocalities, ByPath(u.previous.artifacts)[c.path]);
    RemovalIsSeed(u.previous, u.current, u.increment.changes, c);
  }

  lemma RedoneModuleIsAffected(
      u: Update, max: nat, localities: seq<string>, currentMax: nat, currentLocalities: seq<string>, l: string, affected: set<Id>)
    requires IsUpdate(u, max, localities, currentMax, currentLocalities)
    requires HasSources(u.current.plan.partitions, l) && ModuleIsRedone(u, l)
    requires SeedsOf(u) <= affected && Closed(DependencyLinks(u.current.plan.units), affected)
    ensures SynthesisOf(u.current, l).id in affected
  {
    SynthesesOfPlan(u.current, currentLocalities);
    var m := SynthesisOf(u.current, l);
    assert m in u.current.plan.units;
    if RemovesFrom(u.increment.changes, l) {
      RemovedFromStarts(u, max, localities, currentMax, currentLocalities, l);
    } else if !RedoesAll(u) && m.id !in u.revalidation {
      var p :| p in u.current.plan.partitions && p.key.locality == l && p.key.lane != GAP
        && LeafIsRedone(u, LeafUnit(u.current.names, p));
      var leaf := LeafUnit(u.current.names, p);
      LeafIsPlanned(u.current.names, u.current.plan, currentLocalities, p);
      RedoneLeafIsSeed(u, leaf);
      assert leaf.id in m.dependencies;
      assert (leaf.id, m.id) in DependencyLinks(u.current.plan.units);
    }
  }

  lemma RedoneProjectIsAffected(
      u: Update, max: nat, localities: seq<string>, currentMax: nat, currentLocalities: seq<string>, v: WorkUnit,
      affected: set<Id>)
    requires IsUpdate(u, max, localities, currentMax, currentLocalities)
    requires v in u.current.plan.units && v.kind == PROJECT_SYNTHESIS && ProjectIsRedone(u, v)
    requires SeedsOf(u) <= affected && Closed(DependencyLinks(u.current.plan.units), affected)
    ensures v.id in affected
  {
    if exists l :: HasSources(u.current.plan.partitions, l) && ModuleIsRedone(u, l) {
      var l :| HasSources(u.current.plan.partitions, l) && ModuleIsRedone(u, l);
      RedoneModuleIsAffected(u, max, localities, currentMax, currentLocalities, l, affected);
      var j :| 0 <= j < |currentLocalities| && currentLocalities[j] == l;
      var m := ModuleUnits(u.current.names, u.current.plan.partitions, currentLocalities)[j];
      ModuleReachesProject(u.current.names, u.current.plan, currentLocalities, affected, m);
    } else if !RedoesAll(u) && v.id !in u.revalidation {
      var l :| !HasSources(u.current.plan.partitions, l) && RemovesFrom(u.increment.changes, l);
      RemovedFromStarts(u, max, localities, currentMax, currentLocalities, l);
      assert v.id in Projects(u.current.plan.units);
    }
  }

  lemma RedoneIsAffected(
      u: Update, max: nat, localities: seq<string>, currentMax: nat, currentLocalities: seq<string>, v: WorkUnit,
      affected: set<Id>)
    requires IsUpdate(u, max, localities, currentMax, currentLocalities)
    requires v in u.current.plan.units && UnitIsRedone(u, v)
    requires SeedsOf(u) <= affected && Closed(DependencyLinks(u.current.plan.units), affected)
    ensures v.id in affected
  {
    if v.kind == MODULE_SYNTHESIS {
      var l :| IsRedoneModule(u, v, l);
      RedoneModuleIsAffected(u, max, localities, currentMax, currentLocalities, l, affected);
    } else if v.kind == PROJECT_SYNTHESIS {
      RedoneProjectIsAffected(u, max, localities, currentMax, currentLocalities, v, affected);
    } else {
      RedoneLeafIsSeed(u, v);
    }
  }

  lemma AffectedIsRedone(
      u: Update, max: nat, localities: seq<string>, currentMax: nat, currentLocalities: seq<string>, v: WorkUnit)
    requires IsUpdate(u, max, localities, currentMax, currentLocalities) && v in u.current.plan.units
    requires v.id in u.increment.affected
    ensures UnitIsRedone(u, v)
  {
    PlannedIdsAreDistinct(u.current.names, u.current.plan, currentLocalities);
    RedoneIsClosed(u, currentLocalities);
    SeedsAreRedone(u, max, localities, currentMax, currentLocalities);
    ClosedHoldsReached(DependencyLinks(u.current.plan.units), Redone(u), SeedsOf(u));
    var w :| w in u.current.plan.units && UnitIsRedone(u, w) && w.id == v.id;
    SameIdSameUnit(u.current.plan.units, v, w);
  }

  /**
   Between two plans of the planner, exactly these units are affected, and exactly the others are reused: those of the
   partitions with a changed artifact; the synthesis of a module if one of its sources is affected or something was
   removed from it; the project's if a module's is, or if something was removed from a module without sources now; and
   the units that were named to be done again.
   */
  lemma AffectedExactly(
      u: Update, max: nat, localities: seq<string>, currentMax: nat, currentLocalities: seq<string>, v: WorkUnit)
    requires IsUpdate(u, max, localities, currentMax, currentLocalities) && v in u.current.plan.units
    ensures v.id in u.increment.affected <==> UnitIsRedone(u, v)
    ensures v.id in u.increment.reused <==> !UnitIsRedone(u, v)
  {
    if UnitIsRedone(u, v) {
      var affected := AffectedIsClosed(u.previous, u.current, u.revalidation, u.incompatible, u.increment);
      RedoneIsAffected(u, max, localities, currentMax, currentLocalities, v, affected);
    }
    if v.id in u.increment.affected {
      AffectedIsRedone(u, max, localities, currentMax, currentLocalities, v);
    }
  }

  // ---------------------------------------------------------------- exactly what is retired

  /** The unit of the partition that held a removed artifact, or the synthesis above it if that artifact was included. */
  ghost predicate IsRetired(u: Update, c: Change, p: Partition, id: Id) {
    && c in u.increment.changes && c.kind == REMOVED && c.path in ByPath(u.previous.artifacts)
    && var b := ByPath(u.previous.artifacts)[c.path];
       && p in u.previous.plan.partitions && b.range in p.ranges
       && (id == LeafUnit(u.previous.names, p).id || (b.included && id == SynthesisOf(u.previous, ModuleFor(c.path)).id))
  }

  lemma SourceOfOneModule(names: Names, partitions: seq<Partition>, p: Partition, l: string)
    requires AreInjective(names) && p in partitions
    ensures LeafUnit(names, p).id in LeafIds(names, partitions, l) <==> p.key.locality == l && p.key.lane != GAP
  {
    if LeafUnit(names, p).id in LeafIds(names, partitions, l) {
      var q :| q in partitions && q.key.locality == l && q.key.lane != GAP && LeafUnit(names, q).id == LeafUnit(names, p).id;
      assert q == p;
    }
  }

  /** Above the unit of a partition stands the synthesis of its module, and none for a gap. */
  lemma SynthesesAbove(s: Snapshot, localities: seq<string>, p: Partition, m: WorkUnit)
    requires AreInjective(s.names) && HasUnits(s.names, s.plan, localities)
    requires p in s.plan.partitions && m in s.plan.units && m.kind == MODULE_SYNTHESIS
    ensures LeafUnit(s.names, p).id in m.dependencies <==> p.key.lane != GAP && m == SynthesisOf(s, p.key.locality)
  {
    SynthesesOfPlan(s, localities);
    var k :| HasSources(s.plan.partitions, k) && m == SynthesisOf(s, k);
    SourceOfOneModule(s.names, s.plan.partitions, p, k);
    SourceOfOneModule(s.names, s.plan.partitions, p, p.key.locality);
  }

  lemma RetiredWithHolder(s: Snapshot, localities: seq<string>, p: Partition, artifact: Id, x: Id)
    requires AreInjective(s.names) && HasUnits(s.names, s.plan, localities) && p in s.plan.partitions
    requires FirstHolder(s.plan.units, artifact) == Some(LeafUnit(s.names, p)) && LocalityOf(s, LeafUnit(s.names, p)) != ""
    ensures x in Retired(s, artifact) <==>
            x == LeafUnit(s.names, p).id || (p.key.lane != GAP && x == SynthesisOf(s, p.key.locality).id)
  {
    if x in Retired(s, artifact) && x != LeafUnit(s.names, p).id {
      var m :| m in s.plan.units && m.kind == MODULE_SYNTHESIS && LeafUnit(s.names, p).id in m.dependencies && m.id == x;
      SynthesesAbove(s, localities, p, m);
    }
    if p.key.lane != GAP {
      SynthesesOfPlan(s, localities);
      assert HasSources(s.plan.partitions, p.key.locality);
      SynthesesAbove(s, localities, p, SynthesisOf(s, p.key.locality));
    }
  }

  lemma RetiredBy(s: Snapshot, max: nat, localities: seq<string>, b: Artifact, x: Id) returns (p: Partition)
    requires IsPlannedSnapshot(s, max, localities) && b in s.artifacts
    ensures p in s.plan.partitions && b.range in p.ranges && forall q :: q in s.plan.partitions && b.range in q.ranges ==> q == p
    ensures x in Retired(s, b.range.artifact) <==>
            x == LeafUnit(s.names, p).id || (b.included && x == SynthesisOf(s, ModuleFor(b.path)).id)
  {
    p := HolderIsFound(s, max, localities, b);
    SourcesHaveALane(b.kinds);
    RetiredWithHolder(s, localities, p, b.range.artifact, x);
  }

  /** Exactly these units of the previous plan are retired. */
  lemma RetiredExactly(
      u: Update, max: nat, localities: seq<string>, currentMax: nat, currentLocalities: seq<string>, id: Id)
    requires IsUpdate(u, max, localities, currentMax, currentLocalities)
    ensures id in u.increment.retired <==> exists c, p :: IsRetired(u, c, p, id)
  {
    if id in u.increment.retired {
      var c :| c in u.increment.changes && c.kind == REMOVED && c.before.Some? && id in Retired(u.previous, c.before.value);
      RemovalOf(u, max, localities, currentMax, currentLocalities, c);
      var p := RetiredBy(u.previous, max, localities, ByPath(u.previous.artifacts)[c.path], id);
      assert IsRetired(u, c, p, id);
    }
    if exists c, p :: IsRetired(u, c, p, id) {
      var c, p :| IsRetired(u, c, p, id);
      RemovalOf(u, max, localities, currentMax, currentLocalities, c);
      var q := RetiredBy(u.previous, max, localities, ByPath(u.previous.artifacts)[c.path], id);
    }
  }
}
