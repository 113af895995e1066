/**
 Merge components of a reviewed batch: the groups of sibling candidates that the main producer's MERGE decisions tie
 together, directly or through others.
 */
module MergeComponents {
  import opened Graphs
  import GraphArtifacts
  import opened Wrappers

  datatype Disposition = ACCEPT | ALTERNATIVE | CONFLICT | MERGE | REJECT | UNKNOWN(text: string)

  datatype Proposal = Proposal(name: string, statement: string, subjectKey: Option<string>, confidence: Option<string>)

  datatype Decision = Decision(
    ref: Id, disposition: Disposition, related: Option<seq<Id>>, rationale: string, merged: Option<Proposal>)

  function RelatedRefs(d: Decision): (refs: seq<Id>)
    ensures d.related == Some(refs) || (d.related.None? && refs == [])
  {
    if d.related.Some? then d.related.value else []
  }

  ghost function MergeRefs(decisions: seq<Decision>): set<Id> {
    set d | d in decisions && d.disposition == MERGE :: d.ref
  }

  /** The related references of the MERGE decisions, read in both directions. */
  ghost function MergeLinks(decisions: seq<Decision>): Relation {
    (set d, x | d in decisions && d.disposition == MERGE && x in RelatedRefs(d) :: (d.ref, x))
    + (set d, x | d in decisions && d.disposition == MERGE && x in RelatedRefs(d) :: (x, d.ref))
  }

  /** `a` and `b` are in one class of the reflexive, symmetric and transitive closure of the related references. */
  ghost predicate MergedTogether(decisions: seq<Decision>, a: Id, b: Id) {
    Reaches(MergeLinks(decisions), a, b)
  }

  ghost predicate IsClassOf(decisions: seq<Decision>, ref: Id, component: set<Id>) {
    forall x :: x in component <==> MergedTogether(decisions, ref, x)
  }

  /** Each MERGE decision has the class of its reference. */
  ghost predicate AreClasses(decisions: seq<Decision>, components: map<Id, set<Id>>) {
    && components.Keys == MergeRefs(decisions)
    && forall ref :: ref in components ==> IsClassOf(decisions, ref, components[ref])
  }

  /** MERGE decisions relate only to MERGE decisions. */
  ghost predicate MergesAreClosed(decisions: seq<Decision>) {
    forall d, x :: d in decisions && d.disposition == MERGE && x in RelatedRefs(d) ==> x in MergeRefs(decisions)
  }

  lemma MergeLinksAreSymmetric(decisions: seq<Decision>)
    ensures Symmetric(MergeLinks(decisions))
  {
  }

  lemma ClassesStayAmongMerges(decisions: seq<Decision>, a: Id, b: Id)
    requires MergesAreClosed(decisions) && a in MergeRefs(decisions) && MergedTogether(decisions, a, b)
    ensures b in MergeRefs(decisions)
  {
    ClosedHoldsReachable(MergeLinks(decisions), MergeRefs(decisions), a, b);
  }

  /** Two classes with a member in common are the same: the components divide the MERGE references among them. */
  lemma ClassesAreDisjoint(decisions: seq<Decision>, components: map<Id, set<Id>>, a: Id, b: Id, common: Id)
    requires AreClasses(decisions, components) && a in components && b in components
    requires common in components[a] && common in components[b]
    ensures components[a] == components[b] && a in components[b]
  {
    var r := MergeLinks(decisions);
    MergeLinksAreSymmetric(decisions);
    forall x
      ensures x in components[a] <==> x in components[b]
    {
      if x in components[a] {
        Bridge(r, b, common, a, x);
      }
      if x in components[b] {
        Bridge(r, a, common, b, x);
      }
    }
    Bridge(r, b, common, a, a);
  }

  lemma Bridge(r: Relation, a: Id, common: Id, b: Id, x: Id)
    requires Symmetric(r) && Reaches(r, a, common) && Reaches(r, b, common)
    ensures Reaches(r, b, x) ==> Reaches(r, a, x)
    ensures b == x ==> Reaches(r, a, x)
  {
    ReachesSymmetric(r, b, common);
    ReachesTransitive(r, a, common, b);
    if Reaches(r, b, x) {
      ReachesTransitive(r, a, b, x);
    }
  }

  // ---------------------------------------------------------------- the computation

  function Add(s: seq<Id>, x: Id): seq<Id> {
    if x in s then s else s + [x]
  }

  /** The links of one decision's first `n` related references. */
  ghost function LinksUpTo(d: Decision, n: nat): Relation
    requires n <= |RelatedRefs(d)|
  {
    (set j | 0 <= j < n :: (d.ref, RelatedRefs(d)[j])) + (set j | 0 <= j < n :: (RelatedRefs(d)[j], d.ref))
  }

  lemma OneMoreDecision(decisions: seq<Decision>, i: nat)
    requires i < |decisions|
    ensures MergeLinks(decisions[..i + 1]) == MergeLinks(decisions[..i])
      + if decisions[i].disposition == MERGE then LinksUpTo(decisions[i], |RelatedRefs(decisions[i])|) else {}
  {
    assert decisions[..i + 1] == decisions[..i] + [decisions[i]];
  }

  method MergeAdjacency(decisions: seq<Decision>) returns (adjacency: map<Id, seq<Id>>)
    requires MergesAreClosed(decisions)
    ensures adjacency.Keys == MergeRefs(decisions) && GraphArtifacts.Represents(adjacency, MergeLinks(decisions))
  {
    adjacency := map d | d in decisions && d.disposition == MERGE :: d.ref := [];
    for i := 0 to |decisions|
      invariant adjacency.Keys == MergeRefs(decisions)
      invariant GraphArtifacts.Represents(adjacency, MergeLinks(decisions[..i]))
    {
      OneMoreDecision(decisions, i);
      if decisions[i].disposition == MERGE {
        MergeRefsHold(decisions, i);
        adjacency := LinkAll(adjacency, MergeLinks(decisions[..i]), decisions[i]);
      }
    }
    assert decisions[..|decisions|] == decisions;
  }

  lemma MergeRefsHold(decisions: seq<Decision>, i: nat)
    requires MergesAreClosed(decisions) && i < |decisions| && decisions[i].disposition == MERGE
    ensures decisions[i].ref in MergeRefs(decisions)
    ensures forall x :: x in RelatedRefs(decisions[i]) ==> x in MergeRefs(decisions)
  {
  }

  method LinkAll(adjacency: map<Id, seq<Id>>, ghost links: Relation, d: Decision) returns (next: map<Id, seq<Id>>)
    requires d.ref in adjacency && forall x :: x in RelatedRefs(d) ==> x in adjacency
    requires GraphArtifacts.Represents(adjacency, links)
    ensures next.Keys == adjacency.Keys && GraphArtifacts.Represents(next, links + LinksUpTo(d, |RelatedRefs(d)|))
  {
    next := adjacency;
    var related := RelatedRefs(d);
    for j := 0 to |related|
      invariant next.Keys == adjacency.Keys
      invariant GraphArtifacts.Represents(next, links + LinksUpTo(d, j))
    {
      OneMoreLink(links, d, j);
      next := Linked(next, links + LinksUpTo(d, j), d.ref, related[j]);
    }
  }

  lemma OneMoreLink(links: Relation, d: Decision, j: nat)
    requires j < |RelatedRefs(d)|
    ensures links + LinksUpTo(d, j + 1)
            == links + LinksUpTo(d, j) + {(d.ref, RelatedRefs(d)[j]), (RelatedRefs(d)[j], d.ref)}
  {
  }

  method Linked(adjacency: map<Id, seq<Id>>, ghost r: Relation, a: Id, b: Id) returns (next: map<Id, seq<Id>>)
    requires a in adjacency && b in adjacency && GraphArtifacts.Represents(adjacency, r)
    ensures next.Keys == adjacency.Keys && GraphArtifacts.Represents(next, r + {(a, b), (b, a)})
  {
    next := adjacency[a := Add(adjacency[a], b)];
    if b in next {
      next := next[b := Add(next[b], a)];
    }
  }

  /** Depth-first component of `root`, inside any closed set `reach` that holds it. */
  method ComponentOf(ghost r: Relation, adjacency: map<Id, seq<Id>>, root: Id, ghost reach: set<Id>)
    returns (component: set<Id>)
    requires GraphArtifacts.Represents(adjacency, r) && root in reach && Closed(r, reach)
    ensures root in component && component <= reach && Closed(r, component)
  {
    component := {};
    var pending := [root];
    while |pending| > 0
      invariant component <= reach && (root in component || root in pending)
      invariant forall x :: x in pending ==> x in reach
      invariant forall e :: e in r && e.0 in component ==> e.1 in component || e.1 in pending
      decreases reach - component, |pending|
    {
      var last := |pending| - 1;
      var ref := pending[last];
      ghost var before := pending;
      pending := pending[..last];
      assert forall x :: x in before <==> x == ref || x in pending;
      if ref in component {
        continue;
      }
      var next := GraphArtifacts.Neighbours(adjacency, ref);
      assert forall y :: y in next <==> (ref, y) in r;
      component := component + {ref};
      pending := pending + next;
    }
  }

  method MergeComponentsByRef(decisions: seq<Decision>) returns (components: map<Id, set<Id>>)
    requires MergesAreClosed(decisions)
    ensures AreClasses(decisions, components)
  {
    var adjacency := MergeAdjacency(decisions);
    ghost var r := MergeLinks(decisions);
    components := map[];
    for i := 0 to |decisions|
      invariant components.Keys <= MergeRefs(decisions)
      invariant forall k :: 0 <= k < i && decisions[k].disposition == MERGE ==> decisions[k].ref in components
      invariant forall ref :: ref in components ==> IsClassOf(decisions, ref, components[ref])
    {
      var d := decisions[i];
      if d.disposition != MERGE || d.ref in components {
        continue;
      }
      ghost var reach := ReachableSet(r, {d.ref});
      var component := ComponentOf(r, adjacency, d.ref, reach);
      ComponentIsClass(decisions, d.ref, component, reach);
      components := components + map x | x in component :: component;
    }
  }

  lemma ComponentIsClass(decisions: seq<Decision>, ref: Id, component: set<Id>, reach: set<Id>)
    requires MergesAreClosed(decisions) && ref in MergeRefs(decisions)
    requires ref in component && component <= reach && Closed(MergeLinks(decisions), component)
    requires forall x :: x in reach <==> ReachedFrom(MergeLinks(decisions), {ref}, x)
    ensures component <= MergeRefs(decisions)
    ensures forall x :: x in component ==> IsClassOf(decisions, x, component)
  {
    var r := MergeLinks(decisions);
    MergeLinksAreSymmetric(decisions);
    forall x
      ensures x in component <==> Reaches(r, ref, x)
    {
      if Reaches(r, ref, x) {
        ClosedHoldsReachable(r, component, ref, x);
      }
    }
    forall x | x in component
      ensures x in MergeRefs(decisions) && IsClassOf(decisions, x, component)
    {
      ClassesStayAmongMerges(decisions, ref, x);
      ReachesSymmetric(r, ref, x);
      forall y
        ensures y in component <==> Reaches(r, x, y)
      {
        if Reaches(r, ref, y) {
          ReachesTransitive(r, x, ref, y);
        }
        if Reaches(r, x, y) {
          ReachesTransitive(r, ref, x, y);
        }
      }
    }
  }
}
