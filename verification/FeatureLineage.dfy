/**
 Feature lineage: predecessor-to-successor records that must never form a cycle.
 */
module FeatureLineage {
  import opened Graphs
  import opened Wrappers

  datatype Lineage = Lineage(id: Id, predecessor: Id, successor: Id, relation: string, rationale: string)

  datatype Rejection = SelfReference | UnknownEndpoint | WouldCreateCycle | ConflictsWithHistory

  datatype Outcome = Accepted(stored: Lineage) | Rejected(reason: Rejection)

  ghost function Edges(lineages: seq<Lineage>): Relation {
    set l | l in lineages :: (l.predecessor, l.successor)
  }

  ghost predicate Acyclic(r: Relation) {
    forall e :: e in r ==> !Reaches(r, e.1, e.0)
  }

  method SuccessorsByFeature(lineages: seq<Lineage>) returns (adjacency: map<Id, seq<Id>>)
    ensures forall x, y :: (x in adjacency && y in adjacency[x]) <==> (x, y) in Edges(lineages)
  {
    adjacency := map[];
    for i := 0 to |lineages|
      invariant forall x, y :: (x in adjacency && y in adjacency[x]) <==> (x, y) in Edges(lineages[..i])
    {
      var l := lineages[i];
      var successors := if l.predecessor in adjacency then adjacency[l.predecessor] else [];
      adjacency := adjacency[l.predecessor := successors + [l.successor]];
      assert lineages[..i + 1] == lineages[..i] + [l];
      assert Edges(lineages[..i + 1]) == Edges(lineages[..i]) + {(l.predecessor, l.successor)};
    }
    assert lineages[..|lineages|] == lineages;
  }

  /** The depth-first search answers true exactly when the predecessor is reachable from the successor. */
  method IntroducesCycle(lineages: seq<Lineage>, predecessor: Id, successor: Id) returns (cycle: bool)
    ensures cycle <==> Reaches(Edges(lineages), successor, predecessor)
  {
    var adjacency := SuccessorsByFeature(lineages);
    ghost var r := Edges(lineages);
    ghost var all := {successor} + set l | l in lineages :: l.successor;
    var pending := [successor];
    var visited: set<Id> := {};
    ReachesReflexive(r, successor);
    while |pending| > 0
      invariant visited <= all && predecessor !in visited
      invariant forall x :: x in pending ==> x in all && Reaches(r, successor, x)
      invariant successor in visited || successor in pending
      invariant forall e :: e in r && e.0 in visited ==> e.1 in visited || e.1 in pending
      decreases all - visited, |pending|
    {
      var last := |pending| - 1;
      var feature := pending[last];
      ghost var before := pending;
      pending := pending[..last];
      assert forall x :: x in before ==> x == feature || x in pending;
      if feature == predecessor {
        return true;
      }
      if feature in visited {
        continue;
      }
      visited := visited + {feature};
      var next := if feature in adjacency then adjacency[feature] else [];
      forall y | y in next
        ensures y in all && Reaches(r, successor, y)
      {
        assert (feature, y) in r;
        ReachesEdge(r, feature, y);
        ReachesTransitive(r, successor, feature, y);
      }
      pending := pending + next;
    }
    if Reaches(r, successor, predecessor) {
      ClosedHoldsReachable(r, visited, successor, predecessor);
    }
    return false;
  }

  /** With one more edge, a node is reached as before, or by a detour over that edge. */
  lemma {:induction false} ReachesWithEdge(r: Relation, p: Id, s: Id, x: Id, y: Id, n: nat)
    requires y in Ball(r + {(p, s)}, x, n)
    ensures Reaches(r, x, y) || (Reaches(r, x, p) && Reaches(r, s, y))
    decreases n
  {
    var r' := r + {(p, s)};
    if n == 0 {
      ReachesReflexive(r, x);
    } else if y in Ball(r', x, n - 1) {
      ReachesWithEdge(r, p, s, x, y, n - 1);
    } else {
      var e :| e in r' && e.0 in Ball(r', x, n - 1) && e.1 == y;
      ReachesWithEdge(r, p, s, x, e.0, n - 1);
      if e in r {
        ReachesEdge(r, e.0, y);
        if Reaches(r, x, e.0) {
          ReachesTransitive(r, x, e.0, y);
        } else {
          ReachesTransitive(r, s, e.0, y);
        }
      } else {
        ReachesReflexive(r, s);
      }
    }
  }

  /** An edge closes a cycle in an acyclic graph exactly when its source is reachable from its target. */
  lemma EdgeKeepsAcyclic(r: Relation, p: Id, s: Id)
    requires Acyclic(r)
    ensures Acyclic(r + {(p, s)}) <==> !Reaches(r, s, p)
  {
    var r' := r + {(p, s)};
    if Reaches(r, s, p) {
      var n: nat :| p in Ball(r, s, n);
      BallGrowsWithEdges(r, r', s, n);
      assert (p, s) in r';
      assert Reaches(r', s, p);
    } else {
      forall e | e in r'
        ensures !Reaches(r', e.1, e.0)
      {
        if Reaches(r', e.1, e.0) {
          var n: nat :| e.0 in Ball(r', e.1, n);
          ReachesWithEdge(r, p, s, e.1, e.0, n);
          if e in r && !Reaches(r, e.1, e.0) {
            ReachesEdge(r, e.0, e.1);
            ReachesTransitive(r, s, e.0, e.1);
            ReachesTransitive(r, s, e.1, p);
          }
        }
      }
    }
  }

  ghost predicate Conflicts(lineages: seq<Lineage>, l: Lineage) {
    (exists k :: k in lineages && k.id == l.id && k != l)
    || (exists k :: k in lineages && k.id != l.id
                    && k.predecessor == l.predecessor && k.successor == l.successor && k.relation == l.relation)
  }

  // ---------------------------------------------------------------- a request and its sections

  /** What a request is refused for by what it has read of the features and the history, if anything. */
  ghost function Objection(features: set<Id>, seen: seq<Lineage>, l: Lineage): Option<Rejection> {
    if l.predecessor !in features || l.successor !in features then Some(UnknownEndpoint)
    else if (forall k :: k in seen ==> k.id != l.id) && Reaches(Edges(seen), l.successor, l.predecessor) then
      Some(WouldCreateCycle)
    else None
  }

  /** The store's own checks: known endpoints, nothing recorded rewritten, no relation recorded twice. */
  ghost function StoreAnswer(features: set<Id>, lineages: seq<Lineage>, l: Lineage): Outcome {
    if l.predecessor !in features || l.successor !in features then Rejected(UnknownEndpoint)
    else if Conflicts(lineages, l) then Rejected(ConflictsWithHistory)
    else Accepted(l)
  }

  ghost function Stored(features: set<Id>, lineages: seq<Lineage>, l: Lineage): seq<Lineage> {
    if StoreAnswer(features, lineages, l).Accepted? && l !in lineages then lineages + [l] else lineages
  }

  /** A call: about to read, with what it has read and not objected to, or answered. */
  datatype Call = Begun(l: Lineage) | Read(l: Lineage, seen: seq<Lineage>) | Answered(outcome: Outcome)

  datatype System = System(features: set<Id>, lineages: seq<Lineage>, calls: seq<Call>)

  /** Calls interleave between their read of the history and the store's append. */
  datatype Event = Begins(l: Lineage) | Reads(i: nat) | Stores(i: nat)

  ghost function Next(s: System, e: Event): System {
    match e
    case Begins(l) =>
      s.(calls := s.calls + [if l.predecessor == l.successor then Answered(Rejected(SelfReference)) else Begun(l)])
    case Reads(i) =>
      if i >= |s.calls| || !s.calls[i].Begun? then s
      else
        var l := s.calls[i].l;
        var objection := Objection(s.features, s.lineages, l);
        s.(calls := s.calls[i := if objection.Some? then Answered(Rejected(objection.value)) else Read(l, s.lineages)])
    case Stores(i) =>
      if i >= |s.calls| || !s.calls[i].Read? then s
      else
        var l := s.calls[i].l;
        s.(calls := s.calls[i := Answered(StoreAnswer(s.features, s.lineages, l))],
           lineages := Stored(s.features, s.lineages, l))
  }

  ghost function After(s: System, events: seq<Event>): System {
    if events == [] then s else Next(After(s, events[..|events| - 1]), events[|events| - 1])
  }

  /** The event records a lineage whose predecessor is reachable from its successor by then. */
  ghost predicate ClosesCycle(s: System, e: Event) {
    && e.Stores? && e.i < |s.calls| && s.calls[e.i].Read? && s.lineages != Next(s, e).lineages
    && Reaches(Edges(s.lineages), s.calls[e.i].l.successor, s.calls[e.i].l.predecessor)
  }

  /** The event stores on the history that its call has read: nothing has been recorded in between. */
  ghost predicate StoresOnWhatWasRead(s: System, e: Event) {
    e.Stores? && e.i < |s.calls| && s.calls[e.i].Read? ==> s.calls[e.i].seen == s.lineages
  }

  /** What every call has read passed its check. */
  ghost predicate ReadsPassed(s: System) {
    forall i :: 0 <= i < |s.calls| && s.calls[i].Read? ==> Objection(s.features, s.calls[i].seen, s.calls[i].l).None?
  }

  /** Recording on an acyclic history keeps it acyclic exactly if the predecessor is not reachable from the successor. */
  lemma StepIsExact(s: System, e: Event)
    requires Acyclic(Edges(s.lineages))
    ensures Acyclic(Edges(Next(s, e).lineages)) <==> !ClosesCycle(s, e)
  {
    if s.lineages != Next(s, e).lineages {
      var l := s.calls[e.i].l;
      assert Edges(s.lineages + [l]) == Edges(s.lineages) + {(l.predecessor, l.successor)};
      EdgeKeepsAcyclic(Edges(s.lineages), l.predecessor, l.successor);
    }
  }

  lemma CyclesStay(r: Relation, r': Relation)
    requires r <= r' && !Acyclic(r)
    ensures !Acyclic(r')
  {
    var e :| e in r && Reaches(r, e.1, e.0);
    var n: nat :| e.0 in Ball(r, e.1, n);
    BallGrowsWithEdges(r, r', e.1, n);
    assert e in r' && Reaches(r', e.1, e.0);
  }

  lemma StepKeepsReads(s: System, e: Event)
    requires ReadsPassed(s)
    ensures ReadsPassed(Next(s, e)) && Edges(s.lineages) <= Edges(Next(s, e).lineages)
  {
  }

  /** A store on what was read closes no cycle. */
  lemma UndisturbedStoreIsSafe(s: System, e: Event)
    requires ReadsPassed(s) && StoresOnWhatWasRead(s, e)
    ensures !ClosesCycle(s, e)
  {
    if e.Stores? && e.i < |s.calls| && s.calls[e.i].Read? && s.lineages != Next(s, e).lineages {
      var l := s.calls[e.i].l;
      assert Objection(s.features, s.lineages, l).None?;
      assert l !in s.lineages && !Conflicts(s.lineages, l);
    }
  }

  ghost predicate ClosesCycleAt(s: System, events: seq<Event>, k: nat)
    requires k < |events|
  {
    ClosesCycle(After(s, events[..k]), events[k])
  }

  lemma EarlierEvents(s: System, init: seq<Event>, last: Event)
    ensures After(s, init + [last]) == Next(After(s, init), last)
    ensures forall k: nat :: k < |init| ==> (ClosesCycleAt(s, init + [last], k) <==> ClosesCycleAt(s, init, k))
    ensures ClosesCycleAt(s, init + [last], |init|) <==> ClosesCycle(After(s, init), last)
  {
    assert (init + [last])[..|init|] == init;
    forall k: nat | k < |init|
      ensures ClosesCycleAt(s, init + [last], k) <==> ClosesCycleAt(s, init, k)
    {
      assert (init + [last])[..k] == init[..k];
    }
  }

  /** In every interleaving of requests the history is acyclic exactly if no append has closed a cycle. */
  lemma {:induction false} InterleavingIsAcyclic(s: System, events: seq<Event>)
    requires Acyclic(Edges(s.lineages)) && ReadsPassed(s)
    ensures ReadsPassed(After(s, events))
    ensures Acyclic(Edges(After(s, events).lineages)) <==> forall k: nat :: k < |events| ==> !ClosesCycleAt(s, events, k)
  {
    if events != [] {
      var init, last := events[..|events| - 1], events[|events| - 1];
      var before := After(s, init);
      InterleavingIsAcyclic(s, init);
      EarlierEvents(s, init, last);
      assert events == init + [last];
      StepKeepsReads(before, last);
      if Acyclic(Edges(before.lineages)) {
        StepIsExact(before, last);
        if forall k: nat :: k < |events| ==> !ClosesCycleAt(s, events, k) {
          assert !ClosesCycleAt(s, events, |init|);
        }
      } else {
        CyclesStay(Edges(before.lineages), Edges(Next(before, last).lineages));
        var k: nat :| k < |init| && ClosesCycleAt(s, init, k);
        assert ClosesCycleAt(s, events, k);
      }
    }
  }

  /** Where nothing is recorded between the read of a request and its store, the history stays acyclic. */
  lemma {:induction false} UndisturbedRequestsStayAcyclic(s: System, events: seq<Event>)
    requires Acyclic(Edges(s.lineages)) && ReadsPassed(s)
    requires forall k: nat :: k < |events| ==> StoresOnWhatWasRead(After(s, events[..k]), events[k])
    ensures Acyclic(Edges(After(s, events).lineages))
  {
    forall k: nat | k < |events|
      ensures !ClosesCycleAt(s, events, k)
    {
      InterleavingIsAcyclic(s, events[..k]);
      UndisturbedStoreIsSafe(After(s, events[..k]), events[k]);
    }
    InterleavingIsAcyclic(s, events);
  }

  lemma AfterOneMore(s: System, events: seq<Event>, e: Event)
    ensures After(s, events + [e]) == Next(After(s, events), e)
  {
    assert (events + [e])[..|events|] == events;
  }

  lemma NothingIsReached(a: Id, b: Id)
    requires a != b
    ensures !Reaches(Edges([]), a, b)
  {
    if Reaches(Edges([]), a, b) {
      ClosedHoldsReachable(Edges([]), {a}, a, b);
    }
  }

  /** The input: of two overlapping requests that point at each other both are accepted, and make a cycle. */
  lemma OverlappingRequestsMakeACycle(features: set<Id>, x: Lineage, y: Lineage)
    requires x.predecessor == y.successor && x.successor == y.predecessor && x.predecessor != x.successor && x.id != y.id
    requires x.predecessor in features && x.successor in features
    ensures var s := After(System(features, [], []), [Begins(x), Begins(y), Reads(0), Reads(1), Stores(0), Stores(1)]);
      s.lineages == [x, y] && s.calls == [Answered(Accepted(x)), Answered(Accepted(y))] && !Acyclic(Edges(s.lineages))
  {
    NothingIsReached(x.successor, x.predecessor);
    NothingIsReached(y.successor, y.predecessor);
    var s0, both := System(features, [], []), [Begins(x), Begins(y)];
    AfterOneMore(s0, [], Begins(x));
    AfterOneMore(s0, [Begins(x)], Begins(y));
    assert [] + [Begins(x)] == [Begins(x)] && [Begins(x)] + [Begins(y)] == both;
    AfterOneMore(s0, both, Reads(0));
    AfterOneMore(s0, both + [Reads(0)], Reads(1));
    AfterOneMore(s0, both + [Reads(0), Reads(1)], Stores(0));
    AfterOneMore(s0, both + [Reads(0), Reads(1), Stores(0)], Stores(1));
    assert both + [Reads(0)] + [Reads(1)] == both + [Reads(0), Reads(1)];
    assert both + [Reads(0), Reads(1)] + [Stores(0)] == both + [Reads(0), Reads(1), Stores(0)];
    assert both + [Reads(0), Reads(1), Stores(0)] + [Stores(1)]
           == [Begins(x), Begins(y), Reads(0), Reads(1), Stores(0), Stores(1)];
    TwoMakeACycle(x, y);
  }

  lemma TwoMakeACycle(x: Lineage, y: Lineage)
    requires x.predecessor == y.successor && x.successor == y.predecessor
    ensures !Acyclic(Edges([x, y]))
  {
    var r := Edges([x, y]);
    assert x in [x, y] && y in [x, y];
    assert (x.predecessor, x.successor) in r && (y.predecessor, y.successor) in r;
    ReachesEdge(r, x.successor, x.predecessor);
  }

  // ---------------------------------------------------------------- what the history records

  /** Between known features, no identifier twice and no relation twice. */
  ghost predicate IsConsistent(features: set<Id>, lineages: seq<Lineage>) {
    && (forall k :: k in lineages ==> k.predecessor in features && k.successor in features && k.predecessor != k.successor)
    && forall i, j :: 0 <= i < j < |lineages| ==>
         && lineages[i].id != lineages[j].id
         && (lineages[i].predecessor, lineages[i].successor, lineages[i].relation)
            != (lineages[j].predecessor, lineages[j].successor, lineages[j].relation)
  }

  /** No call that goes on relates a feature to itself. */
  ghost predicate NoneRefersToItself(s: System) {
    forall i :: 0 <= i < |s.calls| && !s.calls[i].Answered? ==> s.calls[i].l.predecessor != s.calls[i].l.successor
  }

  lemma StepKeepsConsistent(s: System, e: Event)
    requires IsConsistent(s.features, s.lineages) && NoneRefersToItself(s)
    ensures Next(s, e).features == s.features && IsConsistent(s.features, Next(s, e).lineages) && NoneRefersToItself(Next(s, e))
  {
  }

  /** In every interleaving the history relates known features, and records no identifier and no relation twice. */
  lemma {:induction false} HistoryIsConsistent(features: set<Id>, events: seq<Event>)
    ensures var s := After(System(features, [], []), events);
      s.features == features && IsConsistent(features, s.lineages) && NoneRefersToItself(s)
  {
    if events != [] {
      HistoryIsConsistent(features, events[..|events| - 1]);
      StepKeepsConsistent(After(System(features, [], []), events[..|events| - 1]), events[|events| - 1]);
    }
  }

  lemma ConflictBreaksConsistency(features: set<Id>, lineages: seq<Lineage>, l: Lineage)
    requires l !in lineages && Conflicts(lineages, l)
    ensures !IsConsistent(features, lineages + [l])
  {
    var next := lineages + [l];
    var k :| k in lineages && (k.id == l.id || (k.predecessor, k.successor, k.relation) == (l.predecessor, l.successor, l.relation));
    var i :| 0 <= i < |lineages| && lineages[i] == k;
    assert next[i] == k && next[|lineages|] == l;
  }

  lemma OneMoreIsConsistent(features: set<Id>, lineages: seq<Lineage>, l: Lineage)
    requires IsConsistent(features, lineages) && l !in lineages && !Conflicts(lineages, l)
    requires l.predecessor in features && l.successor in features && l.predecessor != l.successor
    ensures IsConsistent(features, lineages + [l])
  {
    forall i | 0 <= i < |lineages|
      ensures lineages[i].id != l.id
    {
      assert lineages[i] in lineages;
    }
  }

  lemma RecordedDoesNotConflict(features: set<Id>, lineages: seq<Lineage>, l: Lineage)
    requires IsConsistent(features, lineages) && l in lineages
    ensures !Conflicts(lineages, l) && l.predecessor in features && l.successor in features
  {
    var i :| 0 <= i < |lineages| && lineages[i] == l;
    forall k | k in lineages && k != l
      ensures k.id != l.id && (k.predecessor, k.successor, k.relation) != (l.predecessor, l.successor, l.relation)
    {
      var j :| 0 <= j < |lineages| && lineages[j] == k;
    }
  }

  lemma UnknownEndBreaksConsistency(features: set<Id>, lineages: seq<Lineage>, l: Lineage)
    ensures IsConsistent(features, lineages + [l]) ==> l.predecessor in features && l.successor in features
  {
    assert l in lineages + [l];
  }

  /** The store accepts exactly what keeps the history so, or stands in it already; only in the first case does it grow. */
  lemma StoreAcceptsExactly(features: set<Id>, lineages: seq<Lineage>, l: Lineage)
    requires IsConsistent(features, lineages) && l.predecessor != l.successor
    ensures StoreAnswer(features, lineages, l) == Accepted(l) <==> l in lineages || IsConsistent(features, lineages + [l])
    ensures Stored(features, lineages, l) == if l !in lineages && IsConsistent(features, lineages + [l]) then lineages + [l] else lineages
    ensures StoreAnswer(features, lineages, l) == Rejected(UnknownEndpoint) <==>
            l.predecessor !in features || l.successor !in features
  {
    UnknownEndBreaksConsistency(features, lineages, l);
    if l in lineages {
      RecordedDoesNotConflict(features, lineages, l);
    } else if Conflicts(lineages, l) {
      ConflictBreaksConsistency(features, lineages, l);
    } else if l.predecessor in features && l.successor in features {
      OneMoreIsConsistent(features, lineages, l);
    }
  }

  // ---------------------------------------------------------------- requests one at a time

  /** The whole decision: which reason wins, and that only a new, cycle-free record changes the history. */
  ghost function Decision(features: set<Id>, lineages: seq<Lineage>, l: Lineage): Outcome {
    if l.predecessor == l.successor then Rejected(SelfReference)
    else if l.predecessor !in features || l.successor !in features then Rejected(UnknownEndpoint)
    else if (forall k :: k in lineages ==> k.id != l.id) && Reaches(Edges(lineages), l.successor, l.predecessor) then
      Rejected(WouldCreateCycle)
    else if Conflicts(lineages, l) then Rejected(ConflictsWithHistory)
    else Accepted(l)
  }

  ghost function History(features: set<Id>, lineages: seq<Lineage>, l: Lineage): seq<Lineage> {
    if Decision(features, lineages, l).Accepted? && l !in lineages then lineages + [l] else lineages
  }

  /** A request whose sections follow each other with nothing in between is decided as a whole. */
  lemma RequestIsItsSections(s: System, l: Lineage)
    ensures var n := |s.calls|;
      var end := Next(Next(Next(s, Begins(l)), Reads(n)), Stores(n));
      && end.lineages == History(s.features, s.lineages, l)
      && end.calls == s.calls + [Answered(Decision(s.features, s.lineages, l))]
  {
    var n := |s.calls|;
    var begun := Next(s, Begins(l));
    var read := Next(begun, Reads(n));
    assert read.calls[..n] == s.calls && |read.calls| == n + 1;
    var end := Next(read, Stores(n));
    assert end.calls[n] == Answered(Decision(s.features, s.lineages, l));
    assert end.calls[..n] == s.calls;
    assert end.calls == end.calls[..n] + [end.calls[n]];
  }

  /** The history after a whole run of requests. */
  ghost function HistoryAfter(features: set<Id>, lineages: seq<Lineage>, requests: seq<Lineage>): seq<Lineage> {
    if requests == [] then lineages
    else
      var before := HistoryAfter(features, lineages, requests[..|requests| - 1]);
      History(features, before, requests[|requests| - 1])
  }

  lemma RequestKeepsAcyclic(features: set<Id>, lineages: seq<Lineage>, l: Lineage)
    requires Acyclic(Edges(lineages))
    ensures Acyclic(Edges(History(features, lineages, l)))
  {
    var after := History(features, lineages, l);
    if after != lineages {
      assert Edges(after) == Edges(lineages) + {(l.predecessor, l.successor)};
      EdgeKeepsAcyclic(Edges(lineages), l.predecessor, l.successor);
    }
  }

  /** Whatever is requested, in whatever order, no accepted history contains a cycle. */
  lemma {:induction false} EveryHistoryIsAcyclic(features: set<Id>, requests: seq<Lineage>)
    ensures Acyclic(Edges(HistoryAfter(features, [], requests)))
  {
    if requests != [] {
      var earlier := requests[..|requests| - 1];
      EveryHistoryIsAcyclic(features, earlier);
      RequestKeepsAcyclic(features, HistoryAfter(features, [], earlier), requests[|requests| - 1]);
    }
  }

  /** A new record between known features is refused as cyclic exactly when recording it would make a cycle. */
  lemma CycleRefusalIsExact(features: set<Id>, lineages: seq<Lineage>, l: Lineage)
    requires Acyclic(Edges(lineages))
    requires l.predecessor != l.successor && l.predecessor in features && l.successor in features
    requires forall k :: k in lineages ==> k.id != l.id
    ensures Decision(features, lineages, l) == Rejected(WouldCreateCycle) <==> !Acyclic(Edges(lineages + [l]))
  {
    assert Edges(lineages + [l]) == Edges(lineages) + {(l.predecessor, l.successor)};
    EdgeKeepsAcyclic(Edges(lineages), l.predecessor, l.successor);
  }

  class LineageService {
    var features: set<Id>
    var lineages: seq<Lineage>

    ghost predicate Valid()
      reads this
    {
      Acyclic(Edges(lineages))
    }

    constructor (features: set<Id>)
      ensures Valid() && this.features == features && lineages == []
    {
      this.features := features;
      lineages := [];
    }

    /** The first section, up to the store: what is refused by what is read of the features and the history. */
    method Admit(l: Lineage) returns (objection: Option<Rejection>)
      ensures objection == Objection(features, lineages, l)
    {
      if l.predecessor !in features || l.successor !in features {
        return Some(UnknownEndpoint);
      }
      var same := exists k :: k in lineages && k.id == l.id;
      var cycle := IntroducesCycle(lineages, l.predecessor, l.successor);
      objection := if !same && cycle then Some(WouldCreateCycle) else None;
    }

    /** The second section: the store's own checks, and the append. */
    method Store(l: Lineage) returns (outcome: Outcome)
      modifies this`lineages
      ensures outcome == StoreAnswer(features, old(lineages), l)
      ensures lineages == Stored(features, old(lineages), l)
    {
      if l.predecessor !in features || l.successor !in features {
        return Rejected(UnknownEndpoint);
      }
      var known := false;
      for i := 0 to |lineages|
        invariant lineages == old(lineages)
        invariant !Conflicts(lineages[..i], l)
        invariant known <==> l in lineages[..i]
      {
        var k := lineages[i];
        assert k in lineages;
        assert lineages[..i + 1] == lineages[..i] + [k];
        if k.id == l.id {
          if k != l {
            return Rejected(ConflictsWithHistory);
          }
          known := true;
        } else if k.predecessor == l.predecessor && k.successor == l.successor && k.relation == l.relation {
          return Rejected(ConflictsWithHistory);
        }
      }
      assert lineages[..|lineages|] == lineages;
      if !known {
        lineages := lineages + [l];
      }
      return Accepted(l);
    }

    /** A request with nothing between its sections. */
    method Append(l: Lineage) returns (outcome: Outcome)
      requires Valid()
      modifies this`lineages
      ensures Valid()
      ensures outcome == Decision(features, old(lineages), l)
      ensures lineages == History(features, old(lineages), l)
    {
      RequestKeepsAcyclic(features, lineages, l);
      if l.predecessor == l.successor {
        return Rejected(SelfReference);
      }
      var objection := Admit(l);
      if objection.Some? {
        return Rejected(objection.value);
      }
      outcome := Store(l);
    }
  }
}
