/**
 Mapping over values with a bounded number of workers that share a cursor, in any interleaving of their sections.
 */
module WorkerPool {
  import opened Wrappers

  /** What the mapper rejects with: any value, which may be one that counts as false. */
  datatype Thrown<+E> = Thrown(error: E, truthy: bool)

  datatype Outcome<+V, +E> = Mapped(value: V) | Failed(thrown: Thrown<E>)

  /** A worker between two awaits: about to claim, waiting for the mapper, or returned. */
  datatype Worker = READY | MAPPING(index: nat) | RETURNED

  datatype Pool<+V, +E> = Pool(cursor: nat, failure: Option<Thrown<E>>, results: seq<Option<V>>, workers: seq<Worker>)

  function Min(a: nat, b: nat): nat {
    if a < b then a else b
  }

  function Initial<V, E>(n: nat, limit: nat): Pool<V, E> {
    Pool(0, None, seq(n, _ => None), seq(Min(limit, if n > 1 then n else 1), _ => READY))
  }

  /** Whether the variable `failure` counts as true. */
  predicate IsFailing<E>(failure: Option<Thrown<E>>) {
    failure.Some? && failure.value.truthy
  }

  /** The head of a worker's loop: it returns after a failure or past the end, and claims the next index otherwise. */
  function Claimed<V, E>(p: Pool<V, E>, w: nat): Pool<V, E>
    requires w < |p.workers|
  {
    if IsFailing(p.failure) then p.(workers := p.workers[w := RETURNED])
    else if p.cursor >= |p.results| then p.(cursor := p.cursor + 1, workers := p.workers[w := RETURNED])
    else p.(cursor := p.cursor + 1, workers := p.workers[w := MAPPING(p.cursor)])
  }

  /** The section that follows when the mapper of worker `w` has ended. */
  function Recorded<V, E>(f: nat -> Outcome<V, E>, p: Pool<V, E>, index: nat): Pool<V, E>
    requires index < |p.results|
  {
    match f(index)
    case Mapped(v) => p.(results := p.results[index := Some(v)])
    case Failed(e) => p.(failure := Some(e))
  }

  function Step<V, E>(f: nat -> Outcome<V, E>, p: Pool<V, E>, w: nat): Pool<V, E> {
    if w >= |p.workers| || p.workers[w].RETURNED? then p
    else if p.workers[w].READY? then Claimed(p, w)
    else if p.workers[w].index >= |p.results| then p
    else Claimed(Recorded(f, p, p.workers[w].index), w)
  }

  function After<V, E>(f: nat -> Outcome<V, E>, n: nat, limit: nat, steps: seq<nat>): Pool<V, E> {
    if steps == [] then Initial(n, limit) else Step(f, After(f, n, limit, steps[..|steps| - 1]), steps[|steps| - 1])
  }

  predicate IsMapping<V, E>(p: Pool<V, E>, index: nat) {
    exists w :: 0 <= w < |p.workers| && p.workers[w] == MAPPING(index)
  }

  predicate IsOver<V, E>(p: Pool<V, E>) {
    forall w :: 0 <= w < |p.workers| ==> p.workers[w].RETURNED?
  }

  /** Each index before the cursor is being mapped by one worker, or is mapped, or has failed; none is after it. */
  ghost predicate Holds<V(!new), E(!new)>(f: nat -> Outcome<V, E>, p: Pool<V, E>) {
    && (forall w :: 0 <= w < |p.workers| && p.workers[w].MAPPING? ==>
          p.workers[w].index < p.cursor && p.workers[w].index < |p.results| && p.results[p.workers[w].index] == None)
    && (forall v, w :: 0 <= v < w < |p.workers| && p.workers[v].MAPPING? ==> p.workers[v] != p.workers[w])
    && (forall i :: 0 <= i < |p.results| && p.results[i].Some? ==> i < p.cursor && f(i) == Mapped(p.results[i].value))
    && (forall i :: 0 <= i < |p.results| && i < p.cursor && p.results[i].None? && !IsMapping(p, i) ==> p.failure.Some? && f(i).Failed?)
    && (p.failure.Some? ==> exists i :: 0 <= i < |p.results| && i < p.cursor && f(i) == Failed(p.failure.value))
    && (IsOver(p) && |p.workers| > 0 ==> IsFailing(p.failure) || p.cursor >= |p.results|)
  }

  lemma ClaimKeeps<V(!new), E(!new)>(f: nat -> Outcome<V, E>, p: Pool<V, E>, w: nat)
    requires Holds(f, p) && w < |p.workers| && !p.workers[w].MAPPING?
    ensures Holds(f, Claimed(p, w))
  {
    var r := Claimed(p, w);
    forall i | IsMapping(p, i)
      ensures IsMapping(r, i)
    {
      var v :| 0 <= v < |p.workers| && p.workers[v] == MAPPING(i);
      assert r.workers[v] == MAPPING(i);
    }
    assert p.failure.None? && p.cursor < |p.results| ==> r.workers[w] == MAPPING(p.cursor);
  }

  /** After the mapper of `w` has ended, the worker is at the head of its loop again. */
  lemma RecordKeeps<V(!new), E(!new)>(f: nat -> Outcome<V, E>, p: Pool<V, E>, w: nat)
    requires Holds(f, p) && w < |p.workers| && p.workers[w].MAPPING?
    ensures p.workers[w].index < |p.results|
    ensures Holds(f, Recorded(f, p, p.workers[w].index).(workers := p.workers[w := READY]))
  {
    var index := p.workers[w].index;
    var r := Recorded(f, p, index).(workers := p.workers[w := READY]);
    assert r.workers[w] == READY;
    forall i | IsMapping(p, i) && i != index
      ensures IsMapping(r, i)
    {
      var v :| 0 <= v < |p.workers| && p.workers[v] == MAPPING(i);
      assert r.workers[v] == MAPPING(i);
    }
  }

  lemma StepKeeps<V(!new), E(!new)>(f: nat -> Outcome<V, E>, p: Pool<V, E>, w: nat)
    requires Holds(f, p)
    ensures Holds(f, Step(f, p, w))
  {
    if w < |p.workers| && !p.workers[w].RETURNED? {
      if p.workers[w].READY? {
        ClaimKeeps(f, p, w);
      } else {
        var index := p.workers[w].index;
        RecordKeeps(f, p, w);
        var q := Recorded(f, p, index).(workers := p.workers[w := READY]);
        ClaimKeeps(f, q, w);
        assert p.workers[w := READY][w := RETURNED] == p.workers[w := RETURNED];
        assert p.workers[w := READY][w := MAPPING(p.cursor)] == p.workers[w := MAPPING(p.cursor)];
        assert Claimed(Recorded(f, p, index), w) == Claimed(q, w);
      }
    }
  }

  lemma InitialHolds<V(!new), E(!new)>(f: nat -> Outcome<V, E>, n: nat, limit: nat)
    ensures Holds(f, Initial(n, limit))
  {
    var p: Pool<V, E> := Initial(n, limit);
    if |p.workers| > 0 {
      assert p.workers[0] == READY;
    }
  }

  lemma {:induction false} AlwaysHolds<V(!new), E(!new)>(f: nat -> Outcome<V, E>, n: nat, limit: nat, steps: seq<nat>)
    ensures var p := After(f, n, limit, steps);
      Holds(f, p) && |p.results| == n && |p.workers| == Min(limit, if n > 1 then n else 1)
  {
    if steps == [] {
      InitialHolds(f, n, limit);
    } else {
      AlwaysHolds(f, n, limit, steps[..|steps| - 1]);
      StepKeeps(f, After(f, n, limit, steps[..|steps| - 1]), steps[|steps| - 1]);
    }
  }

  // ---------------------------------------------------------------- what the mapping promises

  /** The indices being mapped. */
  function InFlight<V, E>(p: Pool<V, E>): set<nat> {
    set w | 0 <= w < |p.workers| && p.workers[w].MAPPING? :: p.workers[w].index
  }

  lemma {:induction false} FewerThanWorkers(workers: seq<Worker>)
    ensures |set w | 0 <= w < |workers| && workers[w].MAPPING? :: workers[w].index| <= |workers|
  {
    var all := set w | 0 <= w < |workers| && workers[w].MAPPING? :: workers[w].index;
    if workers == [] {
      assert all == {};
    } else {
      var init, last := workers[..|workers| - 1], workers[|workers| - 1];
      FewerThanWorkers(init);
      var rest := set w | 0 <= w < |init| && init[w].MAPPING? :: init[w].index;
      assert all == if last.MAPPING? then rest + {last.index} else rest;
    }
  }

  /** At most `limit` indices are being mapped at any time. */
  lemma AtMostLimitInFlight<V(!new), E(!new)>(f: nat -> Outcome<V, E>, n: nat, limit: nat, steps: seq<nat>)
    ensures |InFlight(After(f, n, limit, steps))| <= limit
  {
    AlwaysHolds(f, n, limit, steps);
    FewerThanWorkers(After(f, n, limit, steps).workers);
  }

  /** An index that a step begins to map has never been mapped or claimed before, and none is begun while a failure stands. */
  lemma ClaimedOnce<V(!new), E(!new)>(f: nat -> Outcome<V, E>, n: nat, limit: nat, steps: seq<nat>, w: nat, index: nat)
    requires var p := After(f, n, limit, steps);
      index in InFlight(Step(f, p, w)) && index !in InFlight(p)
    ensures var p := After(f, n, limit, steps);
      && index == p.cursor && !IsFailing(Step(f, p, w).failure)
      && index < n && p.results[index].None? && Step(f, p, w).cursor == index + 1
  {
    AlwaysHolds(f, n, limit, steps);
    var p := After(f, n, limit, steps);
    var r := Step(f, p, w);
    forall v | 0 <= v < |r.workers| && v != w && r.workers[v].MAPPING?
      ensures r.workers[v].index in InFlight(p)
    {
      assert p.workers[v] == r.workers[v];
    }
  }

  /**
   With at least one worker: if the mapping ends without a failure that stands, every value has its result, in its place,
   and the only holes are at values whose mapper failed.
   */
  lemma SuccessFillsEveryResult<V(!new), E(!new)>(f: nat -> Outcome<V, E>, n: nat, limit: nat, steps: seq<nat>)
    requires limit >= 1 || n == 0
    requires IsOver(After(f, n, limit, steps)) && !IsFailing(After(f, n, limit, steps).failure)
    ensures var p := After(f, n, limit, steps);
      |p.results| == n && forall i :: 0 <= i < n ==> p.results[i] == if f(i).Mapped? then Some(f(i).value) else None
  {
    AlwaysHolds(f, n, limit, steps);
    var p := After(f, n, limit, steps);
    forall i | 0 <= i < n
      ensures p.results[i] == if f(i).Mapped? then Some(f(i).value) else None
    {
      assert !IsMapping(p, i);
    }
  }

  /** Every error that the mapper ends with counts as true. */
  ghost predicate ErrorsAreTruthy<V, E>(f: nat -> Outcome<V, E>, n: nat) {
    forall i :: 0 <= i < n && f(i).Failed? ==> f(i).thrown.truthy
  }

  /**
   What it ends with is an error of the mapper; and where errors count as true it ends with one exactly if the mapper
   fails on some value.
   */
  lemma FailsExactlyIfSomeValueFails<V(!new), E(!new)>(f: nat -> Outcome<V, E>, n: nat, limit: nat, steps: seq<nat>)
    requires limit >= 1 && IsOver(After(f, n, limit, steps))
    ensures var failure := After(f, n, limit, steps).failure;
      && (IsFailing(failure) ==> exists i :: 0 <= i < n && f(i) == Failed(failure.value))
      && (ErrorsAreTruthy(f, n) ==> (!IsFailing(failure) <==> forall i :: 0 <= i < n ==> f(i).Mapped?))
  {
    AlwaysHolds(f, n, limit, steps);
    var p := After(f, n, limit, steps);
    if ErrorsAreTruthy(f, n) && !IsFailing(p.failure) {
      SuccessFillsEveryResult(f, n, limit, steps);
      assert p.failure.None?;
      forall i | 0 <= i < n
        ensures f(i).Mapped?
      {
        assert !IsMapping(p, i);
      }
    }
  }

  /** The input: one value, whose mapper rejects with nothing. The mapping succeeds, with a hole for its result. */
  lemma FalsyErrorIsLost<V(!new), E(!new)>(f: nat -> Outcome<V, E>, limit: nat)
    requires limit >= 1 && f(0).Failed? && !f(0).thrown.truthy
    ensures var p := After(f, 1, limit, [0, 0]);
      IsOver(p) && !IsFailing(p.failure) && p.results == [None]
  {
    assert [0, 0][..1] == [0] && [0][..0] == [];
    var p0: Pool<V, E> := Initial(1, limit);
    assert After(f, 1, limit, [0]) == Step(f, p0, 0);
    assert Step(f, p0, 0).workers == [MAPPING(0)];
  }

  /** A falsy error hides a true one as well, if its mapper was at work already: of two workers the later one decides. */
  lemma LaterFalsyErrorHidesAFailure<V(!new), E(!new)>(f: nat -> Outcome<V, E>)
    requires f(0).Failed? && f(0).thrown.truthy && f(1).Failed? && !f(1).thrown.truthy
    ensures var p := After(f, 2, 2, [0, 1, 0, 1]);
      IsOver(p) && !IsFailing(p.failure) && p.results == [None, None]
  {
    assert [0, 1, 0, 1][..3] == [0, 1, 0] && [0, 1, 0][..2] == [0, 1] && [0, 1][..1] == [0] && [0][..0] == [];
    var p0: Pool<V, E> := Initial(2, 2);
    var p1, p2 := Step(f, p0, 0), Step(f, Step(f, p0, 0), 1);
    assert After(f, 2, 2, [0]) == p1 && After(f, 2, 2, [0, 1]) == p2;
    assert p2 == Pool(2, None, [None, None], [MAPPING(0), MAPPING(1)]);
    var p3 := Step(f, p2, 0);
    assert After(f, 2, 2, [0, 1, 0]) == p3;
    assert p3 == Pool(2, Some(f(0).thrown), [None, None], [RETURNED, MAPPING(1)]);
    assert Step(f, p3, 1).workers == [RETURNED, RETURNED];
  }

  /** Without workers nothing is mapped, and the mapping ends at once with its results missing. */
  lemma NoWorkersNoResults<V(!new), E(!new)>(f: nat -> Outcome<V, E>, n: nat)
    ensures IsOver(After(f, n, 0, [])) && !IsFailing(After(f, n, 0, []).failure)
    ensures forall i :: 0 <= i < n ==> After(f, n, 0, []).results[i].None?
  {
  }

  function Live(workers: seq<Worker>): nat {
    if workers == [] then 0 else Live(workers[..|workers| - 1]) + if workers[|workers| - 1].RETURNED? then 0 else 1
  }

  lemma {:induction false} LiveAfterUpdate(workers: seq<Worker>, w: nat, next: Worker)
    requires w < |workers| && !workers[w].RETURNED?
    ensures Live(workers[w := next]) == Live(workers) - if next.RETURNED? then 1 else 0
  {
    var init := workers[..|workers| - 1];
    var updated := workers[w := next];
    if w < |init| {
      LiveAfterUpdate(init, w, next);
      assert updated[..|workers| - 1] == init[w := next];
    } else {
      assert updated[..|workers| - 1] == init;
    }
  }

  function ToDo<V, E>(p: Pool<V, E>): nat {
    (if p.cursor < |p.results| then |p.results| - p.cursor else 0) + Live(p.workers)
  }

  /** Every section of a worker that has not returned brings the mapping closer to its end. */
  lemma EveryStepIsProgress<V(!new), E(!new)>(f: nat -> Outcome<V, E>, p: Pool<V, E>, w: nat)
    requires Holds(f, p) && w < |p.workers| && !p.workers[w].RETURNED?
    ensures ToDo(Step(f, p, w)) < ToDo(p)
  {
    LiveAfterUpdate(p.workers, w, RETURNED);
    LiveAfterUpdate(p.workers, w, MAPPING(p.cursor));
  }

  // ---------------------------------------------------------------- the closure's variables

  class Mapping<V(!new), E(!new)> {
    const f: nat -> Outcome<V, E>
    var cursor: nat
    var failure: Option<Thrown<E>>
    var results: seq<Option<V>>
    var workers: seq<Worker>

    ghost function State(): Pool<V, E>
      reads this
    {
      Pool(cursor, failure, results, workers)
    }

    constructor (f: nat -> Outcome<V, E>, n: nat, limit: nat)
      ensures this.f == f && State() == Initial(n, limit) && Holds(f, State())
    {
      this.f := f;
      cursor, failure := 0, None;
      results := seq(n, _ => None);
      workers := seq(Min(limit, if n > 1 then n else 1), _ => READY);
      InitialHolds(f, n, limit);
    }

    /** Worker `w` runs from one await to the next. */
    method RunWorker(w: nat)
      requires Holds(f, State()) && w < |workers| && !workers[w].RETURNED?
      modifies this
      ensures State() == Step(f, old(State()), w) && Holds(f, State())
    {
      StepKeeps(f, State(), w);
      if workers[w].MAPPING? {
        var index := workers[w].index;
        match f(index) {
          case Mapped(v) => results := results[index := Some(v)];
          case Failed(e) => failure := Some(e);
        }
      }
      if IsFailing(failure) {
        workers := workers[w := RETURNED];
        return;
      }
      var index := cursor;
      cursor := cursor + 1;
      workers := workers[w := if index >= |results| then RETURNED else MAPPING(index)];
    }
  }
}
