/**
 What becomes of a batch of sibling candidates: the review of the main producer's decisions, and the admission of one
 candidate for each merge component and each other accepted reference.
 */
module MergeAdmission {
  import opened Graphs
  import opened MergeComponents
  import opened Wrappers

  // ---------------------------------------------------------------- the review

  ghost predicate IsKnown(d: Disposition) {
    !d.UNKNOWN?
  }

  /** A decision on its own: about a known sibling, related to other known siblings, and with a reason. */
  ghost predicate IsDecision(d: Decision, options: set<Id>, isBlank: string -> bool) {
    && d.ref in options && IsKnown(d.disposition) && !isBlank(d.rationale)
    && forall x :: x in RelatedRefs(d) ==> x in options && x != d.ref
  }

  ghost predicate IsProposal(p: Proposal, isBlank: string -> bool) {
    && !isBlank(p.name) && !isBlank(p.statement)
    && (p.subjectKey.Some? ==> !isBlank(p.subjectKey.value))
    && (p.confidence.Some? ==> p.confidence.value in {"LOW", "MEDIUM", "HIGH"})
  }

  /** A MERGE decision names what it merges with and what becomes of it; no other decision proposes anything. */
  ghost predicate IsMergeOrPlain(decisions: seq<Decision>, d: Decision, isBlank: string -> bool) {
    if d.disposition != MERGE then d.merged == None
    else
      && RelatedRefs(d) != [] && d.merged.Some? && IsProposal(d.merged.value, isBlank)
      && forall x :: x in RelatedRefs(d) ==> exists e :: e in decisions && e.ref == x && e.disposition == MERGE
  }

  ghost predicate DistinctRefs(decisions: seq<Decision>) {
    forall i, j :: 0 <= i < j < |decisions| ==> decisions[i].ref != decisions[j].ref
  }

  ghost function DecidedRefs(decisions: seq<Decision>): set<Id> {
    set d | d in decisions :: d.ref
  }

  /** The output of a main producer that passes review. */
  ghost predicate IsReview(decisions: seq<Decision>, options: set<Id>, isBlank: string -> bool) {
    && (forall d :: d in decisions ==> IsDecision(d, options, isBlank))
    && DistinctRefs(decisions) && DecidedRefs(decisions) == options
    && (forall d :: d in decisions ==> IsMergeOrPlain(decisions, d, isBlank))
    && ProposalsAgree(decisions)
  }

  /** Decisions that are merged together, directly or through others, propose the same. */
  ghost predicate ProposalsAgree(decisions: seq<Decision>) {
    forall d, e ::
      d in decisions && e in decisions && d.disposition == MERGE && MergedTogether(decisions, d.ref, e.ref) ==>
        d.merged == e.merged
  }

  lemma ReviewedMergesAreClosed(decisions: seq<Decision>, isBlank: string -> bool)
    requires forall d :: d in decisions ==> IsMergeOrPlain(decisions, d, isBlank)
    ensures MergesAreClosed(decisions)
  {
    forall d, x | d in decisions && d.disposition == MERGE && x in RelatedRefs(d)
      ensures x in MergeRefs(decisions)
    {
      assert IsMergeOrPlain(decisions, d, isBlank);
    }
  }

  lemma {:induction false} SubsetOfSameSize(a: set<Id>, b: set<Id>)
    requires a <= b && |a| == |b|
    ensures a == b
  {
    if x :| x in b && x !in a {
      SubsetOfSmaller(a, b - {x});
    }
  }

  lemma {:induction false} SubsetOfSmaller(a: set<Id>, b: set<Id>)
    requires a <= b
    ensures |a| <= |b|
  {
    if x :| x in a {
      SubsetOfSmaller(a - {x}, b - {x});
    }
  }

  /** All decisions about `component` propose the same. */
  predicate AgreeWithin(decisions: seq<Decision>, component: set<Id>) {
    forall d, e :: d in decisions && e in decisions && d.ref in component && e.ref in component ==> d.merged == e.merged
  }

  method CheckDecision(d: Decision, options: set<Id>, isBlank: string -> bool) returns (ok: bool)
    ensures ok <==> IsDecision(d, options, isBlank)
  {
    if d.ref !in options || d.disposition.UNKNOWN? || isBlank(d.rationale) {
      return false;
    }
    var related := RelatedRefs(d);
    for i := 0 to |related|
      invariant forall k :: 0 <= k < i ==> related[k] in options && related[k] != d.ref
    {
      if related[i] !in options || related[i] == d.ref {
        return false;
      }
    }
    ok := true;
  }

  method CheckProposal(p: Proposal, isBlank: string -> bool) returns (ok: bool)
    ensures ok <==> IsProposal(p, isBlank)
  {
    if isBlank(p.name) || isBlank(p.statement) {
      return false;
    }
    if p.subjectKey.Some? && isBlank(p.subjectKey.value) {
      return false;
    }
    ok := p.confidence.None? || p.confidence.value == "LOW" || p.confidence.value == "MEDIUM" || p.confidence.value == "HIGH";
  }

  method CheckMerge(decisions: seq<Decision>, d: Decision, isBlank: string -> bool) returns (ok: bool)
    ensures ok <==> IsMergeOrPlain(decisions, d, isBlank)
  {
    if d.disposition != MERGE {
      return d.merged == None;
    }
    if |RelatedRefs(d)| == 0 || d.merged == None {
      return false;
    }
    ok := CheckProposal(d.merged.value, isBlank);
    if !ok {
      return;
    }
    var related := RelatedRefs(d);
    for i := 0 to |related|
      invariant forall k :: 0 <= k < i ==> exists e :: e in decisions && e.ref == related[k] && e.disposition == MERGE
    {
      assert related[i] in RelatedRefs(d);
      if !exists e :: e in decisions && e.ref == related[i] && e.disposition == MERGE {
        return false;
      }
    }
  }

  /** The first pass of the review: every decision on its own, and none about the same sibling as another. */
  method ReviewEach(decisions: seq<Decision>, options: set<Id>, isBlank: string -> bool) returns (ok: bool)
    ensures ok <==> (forall d :: d in decisions ==> IsDecision(d, options, isBlank))
                    && DistinctRefs(decisions) && DecidedRefs(decisions) == options
  {
    var decided: set<Id> := {};
    for i := 0 to |decisions|
      invariant DistinctRefs(decisions[..i]) && decided == DecidedRefs(decisions[..i]) && decided <= options
      invariant forall k :: 0 <= k < i ==> IsDecision(decisions[k], options, isBlank)
    {
      var d := decisions[i];
      assert decisions[..i + 1] == decisions[..i] + [d];
      var each := CheckDecision(d, options, isBlank);
      if !each {
        return false;
      }
      if d.ref in decided {
        assert !DistinctRefs(decisions);
        return false;
      }
      decided := decided + {d.ref};
    }
    assert decisions[..|decisions|] == decisions;
    if |decided| == |options| {
      SubsetOfSameSize(decided, options);
    }
    ok := |decided| == |options|;
  }

  /** The last pass of the review: within each component, one proposal. */
  method ReviewComponents(decisions: seq<Decision>, components: map<Id, set<Id>>) returns (ok: bool)
    requires AreClasses(decisions, components)
    ensures ok <==> ProposalsAgree(decisions)
  {
    var validated: set<set<Id>> := {};
    for i := 0 to |decisions|
      invariant forall c :: c in validated ==> AgreeWithin(decisions, c)
      invariant forall k :: 0 <= k < i && decisions[k].disposition == MERGE ==> components[decisions[k].ref] in validated
    {
      var d := decisions[i];
      if d.disposition != MERGE || components[d.ref] in validated {
        continue;
      }
      validated := validated + {components[d.ref]};
      if !AgreeWithin(decisions, components[d.ref]) {
        DisagreementIsReal(decisions, components, d);
        return false;
      }
    }
    forall d, e | d in decisions && e in decisions && d.disposition == MERGE && MergedTogether(decisions, d.ref, e.ref)
      ensures d.merged == e.merged
    {
      assert IsClassOf(decisions, d.ref, components[d.ref]);
      ReachesReflexive(MergeLinks(decisions), d.ref);
      assert AgreeWithin(decisions, components[d.ref]);
    }
    ok := true;
  }

  lemma DisagreementIsReal(decisions: seq<Decision>, components: map<Id, set<Id>>, d: Decision)
    requires AreClasses(decisions, components) && d in decisions && d.disposition == MERGE
    requires !AgreeWithin(decisions, components[d.ref])
    ensures exists e :: e in decisions && MergedTogether(decisions, d.ref, e.ref) && d.merged != e.merged
  {
    assert IsClassOf(decisions, d.ref, components[d.ref]);
    var e, f :| e in decisions && f in decisions && e.ref in components[d.ref] && f.ref in components[d.ref]
      && e.merged != f.merged;
    assert d.merged != e.merged || d.merged != f.merged;
  }

  method ValidateMainOutput(decisions: seq<Decision>, options: set<Id>, isBlank: string -> bool) returns (ok: bool)
    ensures ok <==> IsReview(decisions, options, isBlank)
  {
    ok := ReviewEach(decisions, options, isBlank);
    if !ok {
      return;
    }
    for i := 0 to |decisions|
      invariant forall k :: 0 <= k < i ==> IsMergeOrPlain(decisions, decisions[k], isBlank)
    {
      var each := CheckMerge(decisions, decisions[i], isBlank);
      if !each {
        return false;
      }
    }
    ReviewedMergesAreClosed(decisions, isBlank);
    var components := MergeComponentsByRef(decisions);
    ok := ReviewComponents(decisions, components);
  }

  // ---------------------------------------------------------------- the admission

  /** A child's candidate: what it proposes, on what evidence, and where it comes from. */
  datatype ChildOption = ChildOption(
    content: Proposal, facts: seq<Id>, slices: seq<Id>, childResult: Id, independenceGroup: Id)

  datatype Candidate = Candidate(
    content: Proposal, facts: set<Id>, slices: set<Id>, childResults: set<Id>, independenceGroups: set<Id>,
    disposition: Disposition, rationale: string, mergedFrom: set<Id>)

  /** The references that decision `d` admits together: its merge component, or itself alone. */
  ghost predicate IsGroupOf(decisions: seq<Decision>, d: Decision, refs: set<Id>) {
    if d.disposition == MERGE then IsClassOf(decisions, d.ref, refs) else refs == {d.ref}
  }

  ghost predicate IsGroup(decisions: seq<Decision>, refs: set<Id>) {
    exists d :: d in decisions && d.disposition != REJECT && IsGroupOf(decisions, d, refs)
  }

  /** Nothing but the evidence of the group's members, and all of it. */
  ghost predicate HasEvidenceOf(options: map<Id, ChildOption>, refs: set<Id>, c: Candidate) {
    && (forall f :: f in c.facts <==> exists r :: r in refs && r in options && f in options[r].facts)
    && (forall f :: f in c.slices <==> exists r :: r in refs && r in options && f in options[r].slices)
    && (forall f :: f in c.childResults <==> exists r :: r in refs && r in options && f == options[r].childResult)
    && forall f :: f in c.independenceGroups <==> exists r :: r in refs && r in options && f == options[r].independenceGroup
  }

  /** A merged candidate is what all of its decisions propose, a single one what its child proposed. */
  ghost predicate HasContentOf(decisions: seq<Decision>, options: map<Id, ChildOption>, refs: set<Id>, c: Candidate) {
    forall d :: d in decisions && d.ref in refs ==>
      && (c.disposition == MERGE <==> d.disposition == MERGE)
      && (if d.disposition == MERGE then d.merged == Some(c.content) && c.mergedFrom == refs
          else d.ref in options && c.content == options[d.ref].content && c.mergedFrom == {}
               && c.disposition == d.disposition && c.rationale == d.rationale)
  }

  /** One candidate for each group: `refs` lists their groups, `byRef` finds the candidate of each admitted reference. */
  ghost predicate IsAdmission(
      decisions: seq<Decision>, options: map<Id, ChildOption>, candidates: seq<Candidate>, refs: seq<set<Id>>, byRef: map<Id, nat>)
  {
    && |refs| == |candidates|
    && (forall i :: 0 <= i < |candidates| ==> AdmittedAs(decisions, options, refs[i], candidates[i]))
    && (forall d :: d in decisions ==> (d.ref in byRef <==> d.disposition != REJECT))
    && byRef.Keys <= DecidedRefs(decisions) && Locates(refs, byRef)
  }

  ghost predicate AdmittedAs(decisions: seq<Decision>, options: map<Id, ChildOption>, group: set<Id>, c: Candidate) {
    IsGroup(decisions, group) && HasEvidenceOf(options, group, c) && HasContentOf(decisions, options, group, c)
  }

  /** The groups are disjoint, and `byRef` says for each reference in which of them it is. */
  ghost predicate Locates(refs: seq<set<Id>>, byRef: map<Id, nat>) {
    && (forall r :: r in byRef ==> byRef[r] < |refs|)
    && forall r, i :: 0 <= i < |refs| ==> (r in refs[i] <==> r in byRef && byRef[r] == i)
  }

  /** The facts and slices of admitted candidates are exactly those of the references that were not rejected. */
  lemma EvidenceIsConserved(
      decisions: seq<Decision>, options: map<Id, ChildOption>, candidates: seq<Candidate>, refs: seq<set<Id>>, byRef: map<Id, nat>,
      f: Id)
    requires IsAdmission(decisions, options, candidates, refs, byRef) && DecidedRefs(decisions) == options.Keys
    ensures (exists c :: c in candidates && f in c.facts)
            <==> exists d :: d in decisions && d.disposition != REJECT && f in options[d.ref].facts
    ensures (exists c :: c in candidates && f in c.slices)
            <==> exists d :: d in decisions && d.disposition != REJECT && f in options[d.ref].slices
  {
    forall c | c in candidates
      ensures f in c.facts ==> exists d :: d in decisions && d.disposition != REJECT && f in options[d.ref].facts
      ensures f in c.slices ==> exists d :: d in decisions && d.disposition != REJECT && f in options[d.ref].slices
    {
      var i :| 0 <= i < |candidates| && candidates[i] == c;
      CandidateEvidenceIsReal(decisions, options, candidates, refs, byRef, i, f);
    }
    forall d | d in decisions && d.disposition != REJECT
      ensures f in options[d.ref].facts ==> exists c :: c in candidates && f in c.facts
      ensures f in options[d.ref].slices ==> exists c :: c in candidates && f in c.slices
    {
      var i := ReferenceEvidenceIsKept(decisions, options, candidates, refs, byRef, d, f);
      assert candidates[i] in candidates;
    }
  }

  lemma CandidateEvidenceIsReal(
      decisions: seq<Decision>, options: map<Id, ChildOption>, candidates: seq<Candidate>, refs: seq<set<Id>>, byRef: map<Id, nat>,
      i: nat, f: Id)
    requires IsAdmission(decisions, options, candidates, refs, byRef) && DecidedRefs(decisions) == options.Keys
    requires i < |candidates|
    ensures f in candidates[i].facts ==> exists d :: d in decisions && d.disposition != REJECT && f in options[d.ref].facts
    ensures f in candidates[i].slices ==> exists d :: d in decisions && d.disposition != REJECT && f in options[d.ref].slices
  {
    assert AdmittedAs(decisions, options, refs[i], candidates[i]);
    if f in candidates[i].facts {
      var r :| r in refs[i] && r in options && f in options[r].facts;
      var d := MemberIsDecided(decisions, options, candidates, refs, byRef, i, r);
    }
    if f in candidates[i].slices {
      var r :| r in refs[i] && r in options && f in options[r].slices;
      var d := MemberIsDecided(decisions, options, candidates, refs, byRef, i, r);
    }
  }

  lemma MemberIsDecided(
      decisions: seq<Decision>, options: map<Id, ChildOption>, candidates: seq<Candidate>, refs: seq<set<Id>>, byRef: map<Id, nat>,
      i: nat, r: Id)
    returns (d: Decision)
    requires IsAdmission(decisions, options, candidates, refs, byRef) && i < |candidates| && r in refs[i]
    ensures d in decisions && d.ref == r && d.disposition != REJECT
  {
    assert r in byRef;
    d :| d in decisions && d.ref == r;
  }

  lemma ReferenceEvidenceIsKept(
      decisions: seq<Decision>, options: map<Id, ChildOption>, candidates: seq<Candidate>, refs: seq<set<Id>>, byRef: map<Id, nat>,
      d: Decision, f: Id)
    returns (i: nat)
    requires IsAdmission(decisions, options, candidates, refs, byRef) && DecidedRefs(decisions) == options.Keys
    requires d in decisions && d.disposition != REJECT
    ensures i < |candidates| && d.ref in options
    ensures f in options[d.ref].facts ==> f in candidates[i].facts
    ensures f in options[d.ref].slices ==> f in candidates[i].slices
  {
    assert d.ref in byRef && d.ref in DecidedRefs(decisions);
    i := byRef[d.ref];
    assert d.ref in refs[i] && AdmittedAs(decisions, options, refs[i], candidates[i]);
  }

  function Reconciled(options: map<Id, ChildOption>, d: Decision, refs: set<Id>): Candidate
    requires refs <= options.Keys && d.ref in refs && (d.disposition == MERGE ==> d.merged.Some?)
  {
    Candidate(
      if d.disposition == MERGE then d.merged.value else options[d.ref].content,
      set r, f | r in refs && f in options[r].facts :: f,
      set r, f | r in refs && f in options[r].slices :: f,
      set r | r in refs :: options[r].childResult,
      set r | r in refs :: options[r].independenceGroup,
      d.disposition, d.rationale, if d.disposition == MERGE then refs else {})
  }

  lemma ReconciledHasEvidence(options: map<Id, ChildOption>, d: Decision, refs: set<Id>)
    requires refs <= options.Keys && d.ref in refs && (d.disposition == MERGE ==> d.merged.Some?)
    ensures HasEvidenceOf(options, refs, Reconciled(options, d, refs))
  {
  }

  lemma SameRefSameDecision(decisions: seq<Decision>, d: Decision, e: Decision)
    requires DistinctRefs(decisions) && d in decisions && e in decisions && d.ref == e.ref
    ensures d == e
  {
  }

  /** The group of a reviewed decision lies among the admitted references, all of them decided alike. */
  lemma GroupIsUniform(decisions: seq<Decision>, options: set<Id>, isBlank: string -> bool, d: Decision, refs: set<Id>)
    requires IsReview(decisions, options, isBlank) && d in decisions && d.disposition != REJECT
    requires IsGroupOf(decisions, d, refs)
    ensures d.ref in refs && refs <= options
    ensures forall e :: e in decisions && e.ref in refs ==>
              if d.disposition == MERGE then e.disposition == MERGE && e.merged == d.merged else e == d
  {
    ReviewedMergesAreClosed(decisions, isBlank);
    if d.disposition == MERGE {
      ReachesReflexive(MergeLinks(decisions), d.ref);
      forall x | x in refs
        ensures x in MergeRefs(decisions) && x in options
      {
        ClassesStayAmongMerges(decisions, d.ref, x);
        var e :| e in decisions && e.disposition == MERGE && e.ref == x;
        assert IsDecision(e, options, isBlank);
      }
      forall e | e in decisions && e.ref in refs
        ensures e.disposition == MERGE && e.merged == d.merged
      {
        assert e.ref in MergeRefs(decisions);
        var m :| m in decisions && m.disposition == MERGE && m.ref == e.ref;
        SameRefSameDecision(decisions, m, e);
      }
    } else {
      assert IsDecision(d, options, isBlank);
      forall e | e in decisions && e.ref in refs
        ensures e == d
      {
        SameRefSameDecision(decisions, d, e);
      }
    }
  }

  lemma ReconciledHasContent(
      decisions: seq<Decision>, options: map<Id, ChildOption>, isBlank: string -> bool, d: Decision, refs: set<Id>)
    requires IsReview(decisions, options.Keys, isBlank) && d in decisions && d.disposition != REJECT
    requires IsGroupOf(decisions, d, refs)
    ensures refs <= options.Keys && d.ref in refs && (d.disposition == MERGE ==> d.merged.Some?)
    ensures HasContentOf(decisions, options, refs, Reconciled(options, d, refs))
  {
    GroupIsUniform(decisions, options.Keys, isBlank, d, refs);
    assert IsMergeOrPlain(decisions, d, isBlank);
  }

  /** A group that shares a reference with an admitted one is that group. */
  lemma GroupsAreDisjoint(
      decisions: seq<Decision>, options: set<Id>, isBlank: string -> bool, d: Decision, mine: set<Id>, other: set<Id>, x: Id)
    requires IsReview(decisions, options, isBlank) && d in decisions && d.disposition != REJECT
    requires IsGroupOf(decisions, d, mine) && IsGroup(decisions, other) && x in mine && x in other
    ensures d.ref in other
  {
    var e :| e in decisions && e.disposition != REJECT && IsGroupOf(decisions, e, other);
    GroupIsUniform(decisions, options, isBlank, d, mine);
    GroupIsUniform(decisions, options, isBlank, e, other);
    assert x in DecidedRefs(decisions);
    var k :| k in decisions && k.ref == x;
    if d.disposition == MERGE {
      MergeLinksAreSymmetric(decisions);
      Bridge(MergeLinks(decisions), e.ref, x, d.ref, d.ref);
    }
  }

  // ---------------------------------------------------------------- the loop

  /** The state of the admission once the first `n` decisions have been looked at. */
  ghost predicate AdmittedSoFar(
      decisions: seq<Decision>, options: map<Id, ChildOption>, n: nat,
      candidates: seq<Candidate>, refs: seq<set<Id>>, byRef: map<Id, nat>)
    requires n <= |decisions|
  {
    && |refs| == |candidates|
    && (forall i :: 0 <= i < |candidates| ==> AdmittedAs(decisions, options, refs[i], candidates[i]))
    && (forall k :: 0 <= k < n && decisions[k].disposition != REJECT ==> decisions[k].ref in byRef)
    && Locates(refs, byRef)
  }

  /** No group shares a reference with `mine` unless it holds `ref`. */
  ghost predicate MeetsOnlyGroupsOf(decisions: seq<Decision>, ref: Id, mine: set<Id>) {
    forall other :: IsGroup(decisions, other) && ref !in other ==> mine !! other
  }

  lemma GroupMeetsOnlyItself(decisions: seq<Decision>, options: set<Id>, isBlank: string -> bool, d: Decision, mine: set<Id>)
    requires IsReview(decisions, options, isBlank) && d in decisions && d.disposition != REJECT
    requires IsGroupOf(decisions, d, mine)
    ensures MeetsOnlyGroupsOf(decisions, d.ref, mine)
  {
    forall other, x | IsGroup(decisions, other) && x in mine && x in other
      ensures d.ref in other
    {
      GroupsAreDisjoint(decisions, options, isBlank, d, mine, other, x);
    }
  }

  lemma GroupIsNew(decisions: seq<Decision>, ref: Id, refs: seq<set<Id>>, byRef: map<Id, nat>, group: set<Id>)
    requires Locates(refs, byRef) && forall i :: 0 <= i < |refs| ==> IsGroup(decisions, refs[i])
    requires ref !in byRef && MeetsOnlyGroupsOf(decisions, ref, group)
    ensures group !! byRef.Keys
  {
    forall x | x in byRef
      ensures x !in group
    {
      var other := refs[byRef[x]];
      assert IsGroup(decisions, other) && x in other && ref !in other;
    }
  }

  lemma LocatesOneMore(refs: seq<set<Id>>, byRef: map<Id, nat>, group: set<Id>, next: map<Id, nat>)
    requires Locates(refs, byRef) && group !! byRef.Keys
    requires next == byRef + map r | r in group :: |refs|
    ensures Locates(refs + [group], next)
  {
    forall r, i | 0 <= i < |refs + [group]|
      ensures r in (refs + [group])[i] <==> r in next && next[r] == i
    {
      if i < |refs| {
        assert (refs + [group])[i] == refs[i];
      }
    }
  }

  /** A reviewed decision about a reference not seen before admits one more candidate, for its whole group. */
  lemma AdmittedOneMore(
      decisions: seq<Decision>, options: map<Id, ChildOption>, isBlank: string -> bool, n: nat,
      candidates: seq<Candidate>, refs: seq<set<Id>>, byRef: map<Id, nat>, group: set<Id>)
    returns (c: Candidate, next: map<Id, nat>)
    requires IsReview(decisions, options.Keys, isBlank) && n < |decisions|
    requires AdmittedSoFar(decisions, options, n, candidates, refs, byRef)
    requires decisions[n].disposition != REJECT && decisions[n].ref !in byRef && IsGroupOf(decisions, decisions[n], group)
    ensures group <= options.Keys && decisions[n].ref in group
    ensures decisions[n].disposition == MERGE ==> decisions[n].merged.Some?
    ensures c == Reconciled(options, decisions[n], group)
    ensures next == byRef + map r | r in group :: |candidates|
    ensures AdmittedSoFar(decisions, options, n + 1, candidates + [c], refs + [group], next)
  {
    var d := decisions[n];
    ReconciledHasContent(decisions, options, isBlank, d, group);
    ReconciledHasEvidence(options, d, group);
    c, next := Reconciled(options, d, group), byRef + map r | r in group :: |candidates|;
    assert AdmittedAs(decisions, options, group, c);
    GroupMeetsOnlyItself(decisions, options.Keys, isBlank, d, group);
    ExtendedAdmission(decisions, options, n, candidates, refs, byRef, group, c, next);
  }

  lemma ExtendedAdmission(
      decisions: seq<Decision>, options: map<Id, ChildOption>, n: nat,
      candidates: seq<Candidate>, refs: seq<set<Id>>, byRef: map<Id, nat>, group: set<Id>, c: Candidate, next: map<Id, nat>)
    requires n < |decisions| && AdmittedSoFar(decisions, options, n, candidates, refs, byRef)
    requires decisions[n].ref !in byRef && decisions[n].ref in group
    requires MeetsOnlyGroupsOf(decisions, decisions[n].ref, group) && AdmittedAs(decisions, options, group, c)
    requires next == byRef + map r | r in group :: |candidates|
    ensures AdmittedSoFar(decisions, options, n + 1, candidates + [c], refs + [group], next)
  {
    forall i | 0 <= i < |refs|
      ensures IsGroup(decisions, refs[i])
    {
      assert AdmittedAs(decisions, options, refs[i], candidates[i]);
    }
    GroupIsNew(decisions, decisions[n].ref, refs, byRef, group);
    LocatesOneMore(refs, byRef, group, next);
  }

  lemma PassedOver(
      decisions: seq<Decision>, options: map<Id, ChildOption>, n: nat,
      candidates: seq<Candidate>, refs: seq<set<Id>>, byRef: map<Id, nat>)
    requires n < |decisions| && AdmittedSoFar(decisions, options, n, candidates, refs, byRef)
    requires decisions[n].disposition == REJECT || decisions[n].ref in byRef
    ensures AdmittedSoFar(decisions, options, n + 1, candidates, refs, byRef)
  {
  }

  lemma AllAdmitted(
      decisions: seq<Decision>, options: map<Id, ChildOption>, isBlank: string -> bool,
      candidates: seq<Candidate>, refs: seq<set<Id>>, byRef: map<Id, nat>)
    requires IsReview(decisions, options.Keys, isBlank)
    requires AdmittedSoFar(decisions, options, |decisions|, candidates, refs, byRef)
    ensures IsAdmission(decisions, options, candidates, refs, byRef)
  {
    forall r | r in byRef
      ensures r in DecidedRefs(decisions)
      ensures forall d :: d in decisions && d.ref == r ==> d.disposition != REJECT
    {
      var group := refs[byRef[r]];
      assert r in group && AdmittedAs(decisions, options, group, candidates[byRef[r]]);
      var e :| e in decisions && e.disposition != REJECT && IsGroupOf(decisions, e, group);
      GroupIsUniform(decisions, options.Keys, isBlank, e, group);
    }
  }

  /** One pass of the loop over the admitted decisions. */
  method AdmitNext(
      decisions: seq<Decision>, options: map<Id, ChildOption>, ghost isBlank: string -> bool, components: map<Id, set<Id>>,
      n: nat, candidates: seq<Candidate>, ghost refs: seq<set<Id>>, byRef: map<Id, nat>)
    returns (admitted: seq<Candidate>, ghost groups: seq<set<Id>>, found: map<Id, nat>)
    requires IsReview(decisions, options.Keys, isBlank) && AreClasses(decisions, components) && n < |decisions|
    requires AdmittedSoFar(decisions, options, n, candidates, refs, byRef)
    ensures AdmittedSoFar(decisions, options, n + 1, admitted, groups, found)
  {
    var d := decisions[n];
    if d.disposition == REJECT || d.ref in byRef {
      PassedOver(decisions, options, n, candidates, refs, byRef);
      return candidates, refs, byRef;
    }
    var group := if d.disposition == MERGE then components[d.ref] else {d.ref};
    ghost var c, next := AdmittedOneMore(decisions, options, isBlank, n, candidates, refs, byRef, group);
    admitted, groups := candidates + [Reconciled(options, d, group)], refs + [group];
    found := byRef + map r | r in group :: |candidates|;
  }

  /** The groups of the first `n` candidates, as `byRef` has them. */
  function GroupsOf(byRef: map<Id, nat>, n: nat): seq<set<Id>> {
    seq(n, i => set r | r in byRef && byRef[r] == i)
  }

  method AdmitCandidates(decisions: seq<Decision>, options: map<Id, ChildOption>, ghost isBlank: string -> bool)
    returns (candidates: seq<Candidate>, byRef: map<Id, nat>)
    requires IsReview(decisions, options.Keys, isBlank)
    ensures IsAdmission(decisions, options, candidates, GroupsOf(byRef, |candidates|), byRef)
  {
    ReviewedMergesAreClosed(decisions, isBlank);
    var components := MergeComponentsByRef(decisions);
    ghost var refs: seq<set<Id>>;
    candidates, refs, byRef := [], [], map[];
    for n := 0 to |decisions|
      invariant AdmittedSoFar(decisions, options, n, candidates, refs, byRef)
    {
      candidates, refs, byRef := AdmitNext(decisions, options, isBlank, components, n, candidates, refs, byRef);
    }
    AllAdmitted(decisions, options, isBlank, candidates, refs, byRef);
    LocatedGroups(refs, byRef);
  }

  lemma LocatedGroups(refs: seq<set<Id>>, byRef: map<Id, nat>)
    requires Locates(refs, byRef)
    ensures refs == GroupsOf(byRef, |refs|)
  {
    forall i | 0 <= i < |refs|
      ensures refs[i] == GroupsOf(byRef, |refs|)[i]
    {
    }
  }
}
