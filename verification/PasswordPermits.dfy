/**
 The permits of password derivation: at most two callers derive at a time, at most sixteen wait, and a permit is handed
 from caller to caller in the order of arrival.
 */
module PasswordPermits {
  const PERMITS: nat := 2
  const WAITERS: nat := 16

  /** A handed caller has its permit, but has not come to run again yet. */
  datatype Phase = WAITING | HANDED | DERIVING | FINISHED | REFUSED

  /** `arrived` and `granted` record who ever queued, and who was handed a permit from the queue, in order. */
  datatype State = State(active: int, queue: seq<nat>, phases: map<nat, Phase>, arrived: seq<nat>, granted: seq<nat>)

  /** What happens next: a new caller comes, a handed caller runs again, or a derivation ends, with or without an error. */
  datatype Event = Arrives(caller: nat) | Resumes(caller: nat) | Ends(caller: nat)

  function Initial(): State {
    State(0, [], map[], [], [])
  }

  function Next(s: State, e: Event): State {
    match e
    case Arrives(c) =>
      if c in s.phases then s
      else if s.active >= PERMITS then
        if |s.queue| >= WAITERS then s.(phases := s.phases[c := REFUSED])
        else s.(queue := s.queue + [c], phases := s.phases[c := WAITING], arrived := s.arrived + [c])
      else s.(active := s.active + 1, phases := s.phases[c := DERIVING])
    case Resumes(c) =>
      if c in s.phases && s.phases[c] == HANDED then s.(phases := s.phases[c := DERIVING]) else s
    case Ends(c) =>
      if c !in s.phases || s.phases[c] != DERIVING then s
      else if s.queue == [] then s.(active := s.active - 1, phases := s.phases[c := FINISHED])
      else
        s.(queue := s.queue[1..], phases := s.phases[c := FINISHED][s.queue[0] := HANDED], granted := s.granted + [s.queue[0]])
  }

  function After(events: seq<Event>): State {
    if events == [] then Initial() else Next(After(events[..|events| - 1]), events[|events| - 1])
  }

  /** The callers that have a permit. */
  function Holders(s: State): set<nat> {
    set c | c in s.phases && (s.phases[c] == HANDED || s.phases[c] == DERIVING)
  }

  ghost predicate QueueHolds(s: State) {
    && |s.queue| <= WAITERS && (s.queue != [] ==> s.active == PERMITS)
    && s.arrived == s.granted + s.queue && WaitersAreQueued(s.queue, s.phases)
  }

  /** The queue lists exactly the waiting callers, each once. */
  ghost predicate WaitersAreQueued(queue: seq<nat>, phases: map<nat, Phase>) {
    && (forall i, j :: 0 <= i < j < |queue| ==> queue[i] != queue[j])
    && (forall i :: 0 <= i < |queue| ==> queue[i] in phases && phases[queue[i]] == WAITING)
    && (forall c :: c in phases && phases[c] == WAITING ==> c in queue)
  }

  /** Every permit counted is held by one caller, and no more than two are. */
  ghost predicate PermitsHold(s: State) {
    0 <= s.active <= PERMITS && |Holders(s)| == s.active
  }

  lemma ArrivalKeeps(s: State, c: nat)
    requires QueueHolds(s) && PermitsHold(s)
    ensures QueueHolds(Next(s, Arrives(c))) && PermitsHold(Next(s, Arrives(c)))
  {
    var r := Next(s, Arrives(c));
    if c !in s.phases {
      if s.active < PERMITS {
        assert Holders(r) == Holders(s) + {c};
      } else {
        assert Holders(r) == Holders(s);
      }
      assert s.granted + (s.queue + [c]) == s.granted + s.queue + [c];
    }
  }

  lemma ResumptionKeeps(s: State, c: nat)
    requires QueueHolds(s) && PermitsHold(s)
    ensures QueueHolds(Next(s, Resumes(c))) && PermitsHold(Next(s, Resumes(c)))
  {
    assert Holders(Next(s, Resumes(c))) == Holders(s);
  }

  lemma HandoverKeepsWaiters(queue: seq<nat>, phases: map<nat, Phase>, c: nat)
    requires WaitersAreQueued(queue, phases) && queue != [] && c in phases && phases[c] == DERIVING
    ensures WaitersAreQueued(queue[1..], phases[c := FINISHED][queue[0] := HANDED])
  {
    var next, rest := queue[0], queue[1..];
    assert forall i :: 0 <= i < |rest| ==> rest[i] == queue[i + 1];
    assert forall d :: d in queue <==> d == next || d in rest;
  }

  lemma EndKeepsQueue(s: State, c: nat)
    requires QueueHolds(s)
    ensures QueueHolds(Next(s, Ends(c)))
  {
    if c in s.phases && s.phases[c] == DERIVING && s.queue != [] {
      assert s.queue == [s.queue[0]] + s.queue[1..];
      assert s.granted + s.queue == s.granted + [s.queue[0]] + s.queue[1..];
      HandoverKeepsWaiters(s.queue, s.phases, c);
    }
  }

  lemma EndKeepsPermits(s: State, c: nat)
    requires QueueHolds(s) && PermitsHold(s)
    ensures PermitsHold(Next(s, Ends(c)))
  {
    var r := Next(s, Ends(c));
    if c in s.phases && s.phases[c] == DERIVING {
      if s.queue == [] {
        assert Holders(r) == Holders(s) - {c};
      } else {
        var next := s.queue[0];
        assert next !in Holders(s) && c in Holders(s);
        assert Holders(r) == Holders(s) - {c} + {next};
      }
    }
  }

  lemma EndKeeps(s: State, c: nat)
    requires QueueHolds(s) && PermitsHold(s)
    ensures QueueHolds(Next(s, Ends(c))) && PermitsHold(Next(s, Ends(c)))
  {
    EndKeepsQueue(s, c);
    EndKeepsPermits(s, c);
  }

  /**
   * Over every interleaving: never more than two callers have a permit and never more than sixteen wait; nobody waits while
   * a permit is free; every permit that is counted is held; and permits are handed out in the order of arrival.
   */
  lemma {:induction false} PermitsAreBounded(events: seq<Event>)
    ensures var s := After(events);
      && QueueHolds(s) && PermitsHold(s)
      && |Holders(s)| <= PERMITS && |s.queue| <= WAITERS && s.granted <= s.arrived
  {
    if events == [] {
      assert Holders(Initial()) == {};
    } else {
      var init, last := events[..|events| - 1], events[|events| - 1];
      PermitsAreBounded(init);
      match last
      case Arrives(c) => ArrivalKeeps(After(init), c);
      case Resumes(c) => ResumptionKeeps(After(init), c);
      case Ends(c) => EndKeeps(After(init), c);
    }
  }

  /** A caller is refused exactly when two others have permits and sixteen wait. */
  lemma RefusedWhenFull(events: seq<Event>, c: nat)
    requires c !in After(events).phases
    ensures Next(After(events), Arrives(c)).phases[c] == REFUSED
            <==> |Holders(After(events))| == PERMITS && |After(events).queue| == WAITERS
    ensures Next(After(events), Arrives(c)).phases[c] == DERIVING <==> |Holders(After(events))| < PERMITS
  {
    PermitsAreBounded(events);
  }

  /** No permit leaks: once nobody derives or is about to, all permits are free and nobody waits. */
  lemma NoPermitLeaks(events: seq<Event>)
    requires Holders(After(events)) == {}
    ensures After(events).active == 0 && After(events).queue == []
    ensures forall c :: c in After(events).phases ==> After(events).phases[c] == FINISHED || After(events).phases[c] == REFUSED
  {
    PermitsAreBounded(events);
    var s := After(events);
    forall c | c in s.phases
      ensures s.phases[c] == FINISHED || s.phases[c] == REFUSED
    {
      assert c !in Holders(s) && c !in s.queue;
    }
  }

  /** The module's variables, and the sections of a call between its awaits. */
  class Permits {
    var active: int
    var queue: seq<nat>
    ghost var state: State

    ghost predicate Valid()
      reads this
    {
      state.active == active && state.queue == queue && QueueHolds(state) && PermitsHold(state)
    }

    constructor ()
      ensures Valid() && state == Initial()
    {
      active, queue, state := 0, [], Initial();
      new;
      assert Holders(Initial()) == {};
    }

    method Acquire(caller: nat) returns (phase: Phase)
      requires Valid() && caller !in state.phases
      modifies this
      ensures Valid() && state == Next(old(state), Arrives(caller)) && phase == state.phases[caller]
    {
      ArrivalKeeps(state, caller);
      state := Next(state, Arrives(caller));
      if active >= PERMITS {
        if |queue| >= WAITERS {
          return REFUSED;
        }
        queue := queue + [caller];
        phase := WAITING;
      } else {
        active := active + 1;
        phase := DERIVING;
      }
    }

    /** `next` is the caller that goes on with the permit, if one was waiting. */
    method Release(caller: nat) returns (handed: bool, next: nat)
      requires Valid() && caller in state.phases && state.phases[caller] == DERIVING
      modifies this
      ensures Valid() && state == Next(old(state), Ends(caller))
      ensures handed <==> old(queue) != []
      ensures handed ==> next == old(queue)[0] && state.phases[next] == HANDED
    {
      EndKeeps(state, caller);
      state := Next(state, Ends(caller));
      handed, next := false, 0;
      if |queue| > 0 {
        handed, next := true, queue[0];
        queue := queue[1..];
      } else {
        active := active - 1;
      }
    }
  }
}
