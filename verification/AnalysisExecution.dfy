/**
 Resumable execution of an analysis run: one call after another over a stored checkpoint, each of which may stop at a
 limit, at an abort signal, or by crashing between any two of its writes.
 */
module AnalysisExecution {
  datatype UnitStatus = QUEUED | RUNNING | COMPLETED | FAILED

  datatype Output<+O> = NoOutput | Bundle(value: O)

  datatype WorkUnit<+O> = WorkUnit(status: UnitStatus, attempts: nat, output: Output<O>)

  datatype RunStatus = RUN_RUNNING | RUN_PAUSED | RUN_COMPLETED | RUN_COMPLETED_WITH_GAPS

  datatype Checkpoint<+O, +R> = Checkpoint(
    units: seq<WorkUnit<O>>, status: RunStatus, completed: nat, failed: nat, result: Output<R>)

  /** What a producer makes of one attempt at a unit; an abort error or signal during the attempt is `Aborted`. */
  datatype Outcome<+O> = Produced(value: O) | Errored | Aborted

  /**
   How a call ends: at a terminal status, paused, by a crash between two writes, by one between the append of the result
   and the final save of the checkpoint, or with an error since the result that it made is not the one appended before.
   */
  datatype Ending = Terminal | Paused | Crashed | CrashedAfterAppend | Refused

  /** A result with the readings of the clock that went into it: its completion, and the absences that it reports. */
  datatype Result<+R> = Result(content: R, stamp: seq<int>)

  /** What survives a call: the saved checkpoint, and the result once appended, which is never replaced. */
  datatype Repository<+O, +R> = Repository(checkpoint: Checkpoint<O, Result<R>>, appended: Output<Result<R>>)

  predicate IsTerminal(status: RunStatus) {
    status == RUN_COMPLETED || status == RUN_COMPLETED_WITH_GAPS
  }

  function CountStatus<O>(units: seq<WorkUnit<O>>, status: UnitStatus): (n: nat)
    ensures n <= |units|
  {
    if units == [] then 0
    else CountStatus(units[..|units| - 1], status) + if units[|units| - 1].status == status then 1 else 0
  }

  function UnitAfter<O>(w: WorkUnit<O>, outcome: Outcome<O>): WorkUnit<O> {
    match outcome
    case Produced(value) => WorkUnit(COMPLETED, w.attempts + 1, Bundle(value))
    case Errored => WorkUnit(FAILED, w.attempts + 1, w.output)
    case Aborted => WorkUnit(QUEUED, w.attempts + 1, w.output)
  }

  // ---------------------------------------------------------------- where a run has to end

  /** The fate of unit `u` from attempt `a` on: the first success within `max` attempts, or failure after all of them. */
  function FinalUnit<O>(producer: (nat, nat) -> Outcome<O>, u: nat, a: nat, max: nat): WorkUnit<O>
    decreases max - a
  {
    if a > max then WorkUnit(FAILED, max, NoOutput)
    else
      match producer(u, a)
      case Produced(value) => WorkUnit(COMPLETED, a, Bundle(value))
      case _ => FinalUnit(producer, u, a + 1, max)
  }

  function FinalUnits<O>(producer: (nat, nat) -> Outcome<O>, n: nat, max: nat): (units: seq<WorkUnit<O>>)
    ensures |units| == n && forall u :: 0 <= u < n ==> units[u] == FinalUnit(producer, u, 1, max)
  {
    if n == 0 then [] else FinalUnits(producer, n - 1, max) + [FinalUnit(producer, n - 1, 1, max)]
  }

  ghost predicate NeverAborts<O(!new)>(producer: (nat, nat) -> Outcome<O>) {
    forall u, a :: producer(u, a) != Aborted
  }

  ghost predicate FailsThrough<O(!new)>(producer: (nat, nat) -> Outcome<O>, u: nat, k: nat) {
    forall a :: 1 <= a <= k ==> producer(u, a) == Errored
  }

  /** A stored unit agrees with its producer: all its attempts so far failed, but for the last one of a completed unit. */
  ghost predicate UnitConsistent<O(!new)>(producer: (nat, nat) -> Outcome<O>, max: nat, u: nat, w: WorkUnit<O>) {
    match w.status
    case COMPLETED =>
      && 1 <= w.attempts <= max && FailsThrough(producer, u, w.attempts - 1)
      && w.output.Bundle? && producer(u, w.attempts) == Produced(w.output.value)
    case FAILED => 1 <= w.attempts <= max && FailsThrough(producer, u, w.attempts) && w.output == NoOutput
    case _ => w.attempts < max && FailsThrough(producer, u, w.attempts) && w.output == NoOutput
  }

  ghost predicate Consistent<O(!new)>(producer: (nat, nat) -> Outcome<O>, max: nat, units: seq<WorkUnit<O>>) {
    forall u :: 0 <= u < |units| ==> UnitConsistent(producer, max, u, units[u])
  }

  /** Holds even after aborted attempts: an output is what the last attempt produced, a failure is what it ended in. */
  ghost predicate Honest<O(!new)>(producer: (nat, nat) -> Outcome<O>, units: seq<WorkUnit<O>>) {
    forall u :: 0 <= u < |units| ==>
      && (units[u].status == COMPLETED ==>
            units[u].output.Bundle? && producer(u, units[u].attempts) == Produced(units[u].output.value))
      && (units[u].status == FAILED ==> producer(u, units[u].attempts) == Errored)
  }

  predicate Retryable<O>(units: seq<WorkUnit<O>>, max: nat) {
    exists u :: 0 <= u < |units| && units[u].status == FAILED && units[u].attempts < max
  }

  predicate Settled<O>(w: WorkUnit<O>, max: nat) {
    w.status == COMPLETED || (w.status == FAILED && w.attempts >= max)
  }

  lemma {:induction false} FinalAfterFailures<O(!new)>(producer: (nat, nat) -> Outcome<O>, max: nat, u: nat, a: nat, k: nat)
    requires 1 <= a <= k + 1 && k <= max && FailsThrough(producer, u, k)
    ensures FinalUnit(producer, u, a, max) == FinalUnit(producer, u, k + 1, max)
    decreases k - a
  {
    if a <= k {
      assert producer(u, a) == Errored;
      FinalAfterFailures(producer, max, u, a + 1, k);
    }
  }

  /** A settled unit is what an uninterrupted run would have made of it. */
  lemma SettledIsFinal<O(!new)>(producer: (nat, nat) -> Outcome<O>, max: nat, u: nat, w: WorkUnit<O>)
    requires UnitConsistent(producer, max, u, w) && Settled(w, max)
    ensures w == FinalUnit(producer, u, 1, max)
  {
    if w.status == COMPLETED {
      FinalAfterFailures(producer, max, u, 1, w.attempts - 1);
    } else {
      FinalAfterFailures(producer, max, u, 1, w.attempts);
    }
  }

  lemma AllSettledIsFinal<O(!new)>(producer: (nat, nat) -> Outcome<O>, max: nat, units: seq<WorkUnit<O>>)
    requires Consistent(producer, max, units) && forall u :: 0 <= u < |units| ==> Settled(units[u], max)
    ensures units == FinalUnits(producer, |units|, max)
  {
    forall u | 0 <= u < |units|
      ensures units[u] == FinalUnit(producer, u, 1, max)
    {
      SettledIsFinal(producer, max, u, units[u]);
    }
  }

  // ---------------------------------------------------------------- what is left to do

  function RemainingOf<O>(w: WorkUnit<O>, max: nat): nat {
    if w.status == COMPLETED || w.attempts >= max then 0 else max - w.attempts
  }

  function Remaining<O>(units: seq<WorkUnit<O>>, max: nat): nat {
    if units == [] then 0 else Remaining(units[..|units| - 1], max) + RemainingOf(units[|units| - 1], max)
  }

  lemma {:induction false} RemainingAfterUpdate<O>(units: seq<WorkUnit<O>>, max: nat, i: nat, w: WorkUnit<O>)
    requires i < |units|
    ensures Remaining(units[i := w], max) == Remaining(units, max) - RemainingOf(units[i], max) + RemainingOf(w, max)
  {
    var updated := units[i := w];
    var init := units[..|units| - 1];
    if i < |init| {
      RemainingAfterUpdate(init, max, i, w);
      assert updated[..|units| - 1] == init[i := w];
    } else {
      assert updated[..|units| - 1] == init;
    }
  }

  lemma {:induction false} CountAfterUpdate<O>(units: seq<WorkUnit<O>>, status: UnitStatus, i: nat, w: WorkUnit<O>)
    requires i < |units|
    ensures CountStatus(units[i := w], status) + (if units[i].status == status then 1 else 0)
            == CountStatus(units, status) + if w.status == status then 1 else 0
  {
    var updated := units[i := w];
    var init := units[..|units| - 1];
    if i < |init| {
      CountAfterUpdate(init, status, i, w);
      assert updated[..|units| - 1] == init[i := w];
    } else {
      assert updated[..|units| - 1] == init;
    }
  }

  lemma {:induction false} EveryStatusIsCounted<O>(units: seq<WorkUnit<O>>)
    ensures CountStatus(units, COMPLETED) + CountStatus(units, FAILED)
            + CountStatus(units, QUEUED) + CountStatus(units, RUNNING) == |units|
  {
    if units != [] {
      EveryStatusIsCounted(units[..|units| - 1]);
    }
  }

  lemma {:induction false} NoneCounted<O>(units: seq<WorkUnit<O>>, status: UnitStatus)
    requires forall u :: 0 <= u < |units| ==> units[u].status != status
    ensures CountStatus(units, status) == 0
  {
    if units != [] {
      NoneCounted(units[..|units| - 1], status);
    }
  }

  lemma {:induction false} FreshUnitsRemain<O>(units: seq<WorkUnit<O>>, max: nat)
    requires forall u :: 0 <= u < |units| ==> units[u] == WorkUnit(QUEUED, 0, NoOutput)
    ensures Remaining(units, max) == |units| * max
    ensures CountStatus(units, COMPLETED) == 0 && CountStatus(units, FAILED) == 0
  {
    NoneCounted(units, COMPLETED);
    NoneCounted(units, FAILED);
    if units != [] {
      FreshUnitsRemain(units[..|units| - 1], max);
    }
  }

  // ---------------------------------------------------------------- one attempt

  /** The attempt at a unit as it is recorded: an error after the abort signal counts as an abort. */
  function Recorded<O>(outcome: Outcome<O>, signalled: bool): Outcome<O> {
    if outcome == Errored && signalled then Aborted else outcome
  }

  function Attempted<O>(producer: (nat, nat) -> Outcome<O>, units: seq<WorkUnit<O>>, i: nat, signalled: bool): (r: seq<WorkUnit<O>>)
    requires i < |units|
    ensures |r| == |units|
  {
    units[i := UnitAfter(units[i], Recorded(producer(i, units[i].attempts + 1), signalled))]
  }

  /** Unit `u` after a pass over it: settled units stay, every other one is attempted once more. */
  function OneMore<O>(producer: (nat, nat) -> Outcome<O>, max: nat, u: nat, w: WorkUnit<O>, signalled: bool): WorkUnit<O> {
    if Settled(w, max) then w else UnitAfter(w, Recorded(producer(u, w.attempts + 1), signalled))
  }

  lemma AttemptKeepsConsistency<O(!new)>(
      producer: (nat, nat) -> Outcome<O>, max: nat, units: seq<WorkUnit<O>>, i: nat, signalled: bool)
    requires Consistent(producer, max, units) && i < |units| && !Settled(units[i], max)
    requires Recorded(producer(i, units[i].attempts + 1), signalled) != Aborted
    ensures Consistent(producer, max, Attempted(producer, units, i, signalled))
    ensures Remaining(Attempted(producer, units, i, signalled), max) < Remaining(units, max)
  {
    var w := UnitAfter(units[i], Recorded(producer(i, units[i].attempts + 1), signalled));
    assert UnitConsistent(producer, max, i, units[i]);
    assert UnitConsistent(producer, max, i, w);
    RemainingAfterUpdate(units, max, i, w);
  }

  lemma StartKeepsConsistency<O(!new)>(producer: (nat, nat) -> Outcome<O>, max: nat, units: seq<WorkUnit<O>>, i: nat)
    requires i < |units| && units[i].status != COMPLETED
    ensures Remaining(units[i := units[i].(status := RUNNING)], max) == Remaining(units, max)
    ensures Consistent(producer, max, units) && !Settled(units[i], max)
            ==> Consistent(producer, max, units[i := units[i].(status := RUNNING)])
  {
    RemainingAfterUpdate(units, max, i, units[i].(status := RUNNING));
    assert Consistent(producer, max, units) ==> UnitConsistent(producer, max, i, units[i]);
  }

  // ---------------------------------------------------------------- the run

  /** A checkpoint reports its units exactly, unless a crash has left one of them marked as running. */
  predicate CountsHold<O, R>(c: Checkpoint<O, R>) {
    || (c.completed == CountStatus(c.units, COMPLETED) && c.failed == CountStatus(c.units, FAILED))
    || exists u :: 0 <= u < |c.units| && c.units[u].status == RUNNING
  }

  /**
   What is different from call to call: its limit, when its signal is aborted, after how many writes it crashes or fails
   to write, and the readings of its clock at the end.
   */
  datatype Call = Call(limit: nat, abortedBefore: nat -> bool, abortedDuring: nat -> bool, crashes: bool, savesUntilCrash: nat,
                       stamp: seq<int>)

  ghost predicate Undisturbed(call: Call) {
    call.limit >= 1 && !call.crashes && forall i :: !call.abortedBefore(i)
  }

  ghost predicate NeverInterrupts(call: Call) {
    forall i :: !call.abortedDuring(i)
  }

  /** The units before `i` have been passed over as settled, or work has been done on some unit since the call began. */
  predicate Progress<O>(units: seq<WorkUnit<O>>, max: nat, i: nat, before: nat, completedThisCall: nat)
    requires i <= |units|
  {
    && Remaining(units, max) <= before
    && (completedThisCall > 0 ==> Remaining(units, max) < before)
    && forall u :: 0 <= u < i ==>
         && (units[u].status == COMPLETED || units[u].status == FAILED)
         && (!Settled(units[u], max) ==> Remaining(units, max) < before)
  }

  /** What a stored checkpoint keeps to; `interrupted` says whether an aborted attempt was ever recorded. */
  ghost predicate Sound<O(!new), R>(
      producer: (nat, nat) -> Outcome<O>, max: nat, c: Checkpoint<O, R>, interrupted: bool)
  {
    CountsHold(c) && Honest(producer, c.units) && (!interrupted ==> Consistent(producer, max, c.units))
  }

  ghost predicate PassedOver<O(!new), R>(
      max: nat, c: Checkpoint<O, R>, interrupted: bool, i: nat, before: nat, completedThisCall: nat)
    requires i <= |c.units|
  {
    && (!interrupted ==> Progress(c.units, max, i, before, completedThisCall))
    && forall u :: 0 <= u < i ==> c.units[u].status != RUNNING
  }

  /** What a terminal checkpoint says. */
  ghost predicate Finished<O(!new), R>(
      producer: (nat, nat) -> Outcome<O>, max: nat, assemble: seq<WorkUnit<O>> -> R, c: Checkpoint<O, Result<R>>, interrupted: bool)
  {
    && c.completed == CountStatus(c.units, COMPLETED) && c.failed == CountStatus(c.units, FAILED)
    && c.completed + c.failed == |c.units| - CountStatus(c.units, QUEUED)
    && c.status == (if c.failed > 0 then RUN_COMPLETED_WITH_GAPS else RUN_COMPLETED)
    && c.result.Bundle? && c.result.value.content == assemble(c.units)
    && (!interrupted ==> c.units == FinalUnits(producer, |c.units|, max) && CountStatus(c.units, QUEUED) == 0)
  }

  function Started<O, R>(c: Checkpoint<O, R>, i: nat): (r: Checkpoint<O, R>)
    requires i < |c.units|
    ensures |r.units| == |c.units|
  {
    c.(units := c.units[i := c.units[i].(status := RUNNING)], status := RUN_RUNNING)
  }

  function Recounted<O, R>(c: Checkpoint<O, R>, units: seq<WorkUnit<O>>): Checkpoint<O, R> {
    c.(units := units, completed := CountStatus(units, COMPLETED), failed := CountStatus(units, FAILED))
  }

  function Concluded<O, R>(c: Checkpoint<O, R>, result: R): Checkpoint<O, R> {
    c.(status := if c.failed > 0 then RUN_COMPLETED_WITH_GAPS else RUN_COMPLETED, result := Bundle(result))
  }

  lemma StartKeepsSound<O(!new), R>(
      producer: (nat, nat) -> Outcome<O>, max: nat, c: Checkpoint<O, R>, interrupted: bool, i: nat)
    requires Sound(producer, max, c, interrupted) && i < |c.units|
    requires c.units[i].status != COMPLETED && !Settled(c.units[i], max)
    ensures Sound(producer, max, Started(c, i), interrupted)
    ensures Remaining(Started(c, i).units, max) == Remaining(c.units, max)
    ensures CountStatus(Started(c, i).units, COMPLETED) == CountStatus(c.units, COMPLETED)
  {
    CountAfterUpdate(c.units, COMPLETED, i, c.units[i].(status := RUNNING));
    StartKeepsConsistency(producer, max, c.units, i);
    assert Started(c, i).units[i].status == RUNNING;
  }

  lemma AttemptKeepsSound<O(!new), R>(
      producer: (nat, nat) -> Outcome<O>, max: nat, c: Checkpoint<O, R>, interrupted: bool, i: nat, signalled: bool)
    requires Sound(producer, max, c, interrupted) && i < |c.units| && c.units[i].status == RUNNING
    ensures var units := Attempted(producer, c.units, i, signalled);
      var now := interrupted || units[i].status == QUEUED;
      && Sound(producer, max, Recounted(c, units), now)
      && (!now ==> Remaining(units, max) < Remaining(c.units, max))
      && CountStatus(units, COMPLETED) == CountStatus(c.units, COMPLETED) + if units[i].status == COMPLETED then 1 else 0
  {
    var units := Attempted(producer, c.units, i, signalled);
    CountAfterUpdate(c.units, COMPLETED, i, units[i]);
    if !interrupted && units[i].status != QUEUED {
      AttemptKeepsConsistency(producer, max, c.units, i, signalled);
    }
  }

  lemma AttemptPasses<O(!new), R>(
      max: nat, c: Checkpoint<O, R>, next: Checkpoint<O, R>, was: bool, interrupted: bool, i: nat, before: nat,
      done: nat, doneNow: nat)
    requires i < |c.units| == |next.units| && PassedOver(max, c, was, i, before, done) && (was ==> interrupted)
    requires forall u :: 0 <= u < i ==> next.units[u] == c.units[u]
    requires next.units[i].status != RUNNING && (next.units[i].status == QUEUED ==> interrupted)
    requires !interrupted ==> Remaining(next.units, max) < Remaining(c.units, max)
    ensures PassedOver(max, next, interrupted, i + 1, before, doneNow)
  {
  }

  /** Both saves of an attempt keep a checkpoint sound, and after the second one the unit has been passed over. */
  lemma AttemptIsSound<O(!new), R>(
      producer: (nat, nat) -> Outcome<O>, max: nat, c: Checkpoint<O, R>, interrupted: bool, i: nat, signalled: bool,
      before: nat, done: nat)
    returns (started: Checkpoint<O, R>, next: Checkpoint<O, R>, now: bool, doneNow: nat)
    requires i < |c.units| && c.units[i].status != COMPLETED && !Settled(c.units[i], max)
    requires Sound(producer, max, c, interrupted) && PassedOver(max, c, interrupted, i, before, done)
    ensures started == Started(c, i)
    ensures next == Recounted(started, Attempted(producer, started.units, i, signalled)) && |next.units| == |c.units|
    ensures now == (interrupted || next.units[i].status == QUEUED)
    ensures doneNow == done + if next.units[i].status == COMPLETED then 1 else 0
    ensures Sound(producer, max, started, interrupted) && Sound(producer, max, next, now)
    ensures !interrupted ==> Remaining(started.units, max) <= before
    ensures PassedOver(max, next, now, i + 1, before, doneNow)
    ensures CountStatus(started.units, COMPLETED) == CountStatus(c.units, COMPLETED)
    ensures CountStatus(next.units, COMPLETED) - doneNow == CountStatus(c.units, COMPLETED) - done
  {
    started := Started(c, i);
    StartKeepsSound(producer, max, c, interrupted, i);
    AttemptKeepsSound(producer, max, started, interrupted, i, signalled);
    next := Recounted(started, Attempted(producer, started.units, i, signalled));
    now := interrupted || next.units[i].status == QUEUED;
    doneNow := done + if next.units[i].status == COMPLETED then 1 else 0;
    AttemptPasses(max, c, next, interrupted, now, i, before, done, doneNow);
  }

  lemma SettledIsPassed<O(!new), R>(
      max: nat, c: Checkpoint<O, R>, interrupted: bool, i: nat, before: nat, completedThisCall: nat)
    requires i < |c.units| && PassedOver(max, c, interrupted, i, before, completedThisCall) && Settled(c.units[i], max)
    ensures PassedOver(max, c, interrupted, i + 1, before, completedThisCall)
  {
  }

  lemma WorkWasDone<O(!new), R>(
      max: nat, c: Checkpoint<O, R>, interrupted: bool, i: nat, before: nat, completedThisCall: nat)
    requires i <= |c.units| && PassedOver(max, c, interrupted, i, before, completedThisCall)
    ensures !interrupted ==> Remaining(c.units, max) <= before
    ensures !interrupted && completedThisCall > 0 ==> Remaining(c.units, max) < before
  {
  }

  /** Every unit is settled or, if an attempt was aborted, at least not running. */
  ghost predicate NothingIsLeft<O(!new)>(max: nat, units: seq<WorkUnit<O>>, interrupted: bool) {
    && (forall u :: 0 <= u < |units| ==> units[u].status != RUNNING)
    && (!interrupted ==> forall u :: 0 <= u < |units| ==> Settled(units[u], max))
  }

  lemma AllPassedAreSettled<O(!new), R>(max: nat, c: Checkpoint<O, R>, interrupted: bool, before: nat, completedThisCall: nat)
    requires PassedOver(max, c, interrupted, |c.units|, before, completedThisCall) && !Retryable(c.units, max)
    ensures NothingIsLeft(max, c.units, interrupted)
  {
    if !interrupted {
      forall u | 0 <= u < |c.units|
        ensures Settled(c.units[u], max)
      {
        assert c.units[u].status == COMPLETED || c.units[u].status == FAILED;
      }
    }
  }

  lemma SettledIsFinished<O(!new), R>(
      producer: (nat, nat) -> Outcome<O>, max: nat, assemble: seq<WorkUnit<O>> -> R, c: Checkpoint<O, Result<R>>,
      interrupted: bool, stamp: seq<int>)
    requires Sound(producer, max, c, interrupted) && NothingIsLeft(max, c.units, interrupted)
    ensures Finished(producer, max, assemble, Concluded(c, Result(assemble(c.units), stamp)), interrupted)
  {
    NoneCounted(c.units, RUNNING);
    EveryStatusIsCounted(c.units);
    if !interrupted {
      AllSettledIsFinal(producer, max, c.units);
      NoneCounted(c.units, QUEUED);
    }
  }

  /** A call that nothing ends before every unit has been looked at. */
  ghost predicate Unlimited(call: Call, planned: nat) {
    call.limit >= planned && Undisturbed(call)
  }

  /** The attempt at unit `u` that follows the `attempts` made is cut off: by its own abort, or by an error after the signal. */
  predicate IsCutOff<O>(producer: (nat, nat) -> Outcome<O>, call: Call, u: nat, attempts: nat) {
    || producer(u, attempts + 1) == Aborted
    || (producer(u, attempts + 1) == Errored && call.abortedDuring(u))
  }

  /** What one more attempt makes of unit `u`: completed with what was produced, queued if cut off, and failed otherwise. */
  ghost predicate IsAttempted<O>(producer: (nat, nat) -> Outcome<O>, call: Call, u: nat, w: WorkUnit<O>, next: WorkUnit<O>) {
    var outcome := producer(u, w.attempts + 1);
    && next.attempts == w.attempts + 1
    && (next.status == COMPLETED <==> outcome.Produced?)
    && (next.status == QUEUED <==> IsCutOff(producer, call, u, w.attempts))
    && (next.status == FAILED <==> outcome == Errored && !call.abortedDuring(u))
    && next.output == if outcome.Produced? then Bundle(outcome.value) else w.output
  }

  /** Settled units stay as they are in a pass, and every other one gets one more attempt. */
  ghost predicate IsPassed<O>(
      producer: (nat, nat) -> Outcome<O>, max: nat, call: Call, u: nat, w: WorkUnit<O>, next: WorkUnit<O>)
  {
    if w.status == COMPLETED || (w.status == FAILED && w.attempts >= max) then next == w
    else IsAttempted(producer, call, u, w, next)
  }

  lemma OneMoreIsPassed<O>(producer: (nat, nat) -> Outcome<O>, max: nat, call: Call, u: nat, w: WorkUnit<O>)
    ensures IsPassed(producer, max, call, u, w, OneMore(producer, max, u, w, call.abortedDuring(u)))
  {
  }

  /** The units before `i` have been passed over once since a call found them as `before`, the others not at all. */
  ghost predicate PassedOnce<O>(
      producer: (nat, nat) -> Outcome<O>, max: nat, call: Call, i: nat, before: seq<WorkUnit<O>>, units: seq<WorkUnit<O>>)
  {
    && i <= |before| == |units|
    && (forall u :: 0 <= u < i ==> IsPassed(producer, max, call, u, before[u], units[u]))
    && forall u :: i <= u < |units| ==> units[u] == before[u]
  }

  lemma OnePassed<O>(producer: (nat, nat) -> Outcome<O>, max: nat, call: Call, i: nat, before: seq<WorkUnit<O>>,
                     units: seq<WorkUnit<O>>, next: seq<WorkUnit<O>>)
    requires PassedOnce(producer, max, call, i, before, units) && i < |units|
    requires next == units[i := OneMore(producer, max, i, units[i], call.abortedDuring(i))]
    ensures PassedOnce(producer, max, call, i + 1, before, next)
  {
    OneMoreIsPassed(producer, max, call, i, units[i]);
  }

  lemma AttemptIsOneMore<O, R>(
      producer: (nat, nat) -> Outcome<O>, max: nat, c: Checkpoint<O, R>, i: nat, signalled: bool, units: seq<WorkUnit<O>>)
    requires i < |c.units| && !Settled(c.units[i], max) && units == Attempted(producer, Started(c, i).units, i, signalled)
    ensures units == c.units[i := OneMore(producer, max, i, c.units[i], signalled)]
  {
  }

  /** No unit that was not settled before the call has its one attempt aborted, or cut off by the signal. */
  ghost predicate NoneAborts<O>(producer: (nat, nat) -> Outcome<O>, max: nat, call: Call, before: seq<WorkUnit<O>>) {
    forall u :: 0 <= u < |before| && before[u].status != COMPLETED && !(before[u].status == FAILED && before[u].attempts >= max) ==>
      !IsCutOff(producer, call, u, before[u].attempts)
  }

  lemma {:induction false} NoneCountedMeansNone<O>(units: seq<WorkUnit<O>>, status: UnitStatus, u: nat)
    requires CountStatus(units, status) == 0 && u < |units|
    ensures units[u].status != status
  {
    if u < |units| - 1 {
      NoneCountedMeansNone(units[..|units| - 1], status, u);
    }
  }

  /** After a pass over every unit, one is left queued exactly if an attempt of the pass was aborted. */
  lemma QueuedExactlyIfAborted<O>(producer: (nat, nat) -> Outcome<O>, max: nat, call: Call, before: seq<WorkUnit<O>>,
                                  units: seq<WorkUnit<O>>)
    requires PassedOnce(producer, max, call, |units|, before, units)
    ensures CountStatus(units, QUEUED) == 0 <==> NoneAborts(producer, max, call, before)
  {
    forall u | 0 <= u < |units|
      ensures units[u].status == QUEUED <==> !Settled(before[u], max) && IsCutOff(producer, call, u, before[u].attempts)
    {
      assert IsPassed(producer, max, call, u, before[u], units[u]);
    }
    if CountStatus(units, QUEUED) == 0 {
      forall u | 0 <= u < |units|
        ensures units[u].status != QUEUED
      {
        NoneCountedMeansNone(units, QUEUED, u);
      }
    }
    if NoneAborts(producer, max, call, before) {
      NoneCounted(units, QUEUED);
    }
  }

  /** What the end of a call leaves: nothing to do or retry, and nothing queued exactly if no attempt was aborted. */
  lemma EndIsFinished<O(!new), R>(
      producer: (nat, nat) -> Outcome<O>, max: nat, assemble: seq<WorkUnit<O>> -> R, call: Call, start: seq<WorkUnit<O>>,
      c: Checkpoint<O, Result<R>>, interrupted: bool, before: nat, done: nat)
    requires Sound(producer, max, c, interrupted) && !Retryable(c.units, max)
    requires PassedOver(max, c, interrupted, |c.units|, before, done)
    requires PassedOnce(producer, max, call, |c.units|, start, c.units)
    ensures Finished(producer, max, assemble, Concluded(c, Result(assemble(c.units), call.stamp)), interrupted)
    ensures c.completed + c.failed == |c.units| <==> NoneAborts(producer, max, call, start)
    ensures !interrupted ==> AllSettled(c.units, max)
  {
    AllPassedAreSettled(max, c, interrupted, before, done);
    SettledIsFinished(producer, max, assemble, c, interrupted, call.stamp);
    QueuedExactlyIfAborted(producer, max, call, start, c.units);
  }

  predicate AllSettled<O>(units: seq<WorkUnit<O>>, max: nat) {
    forall u :: 0 <= u < |units| ==> Settled(units[u], max)
  }

  // ---------------------------------------------------------------- one call

  predicate CrashesAt(call: Call, saves: nat) {
    call.crashes && saves == call.savesUntilCrash
  }

  /** How far the pass over the units has got; an `ending` other than terminal says that the call has to return. */
  datatype Pass<+O, +R> = Pass(checkpoint: Checkpoint<O, R>, ending: Ending, saves: nat, done: nat)

  /** Saves the run as paused. */
  function PauseOf<O, R>(call: Call, c: Checkpoint<O, R>, saves: nat, done: nat): Pass<O, R> {
    if CrashesAt(call, saves) then Pass(c, Crashed, saves, done)
    else Pass(c.(status := RUN_PAUSED), Paused, saves + 1, done)
  }

  /** One attempt at unit `i`: it is saved as running, then with the outcome of the attempt. */
  function AttemptOf<O, R>(producer: (nat, nat) -> Outcome<O>, call: Call, c: Checkpoint<O, R>, i: nat, saves: nat, done: nat): Pass<O, R>
    requires i < |c.units|
  {
    if CrashesAt(call, saves) then Pass(c, Crashed, saves, done)
    else
      var started := Started(c, i);
      if CrashesAt(call, saves + 1) then Pass(started, Crashed, saves + 1, done)
      else
        var units := Attempted(producer, started.units, i, call.abortedDuring(i));
        Pass(Recounted(started, units), Terminal, saves + 2, done + if units[i].status == COMPLETED then 1 else 0)
  }

  /** A pause is the next write, unless the call crashes at it. */
  lemma PauseIsSaved<O, R>(call: Call, c: Checkpoint<O, R>, saves: nat, done: nat)
    ensures var pass := PauseOf(call, c, saves, done);
      if call.crashes && call.savesUntilCrash == saves then pass.ending == Crashed && pass.checkpoint == c
      else
        && pass.ending == Paused && pass.saves == saves + 1 && pass.done == done
        && pass.checkpoint == Checkpoint(c.units, RUN_PAUSED, c.completed, c.failed, c.result)
  {
  }

  /**
   An attempt is two writes: the unit as running, and what the attempt came to. One that is not cut off by a crash at either
   is recorded as what it came to, and no other unit changes.
   */
  lemma AttemptIsRecorded<O, R>(
      producer: (nat, nat) -> Outcome<O>, call: Call, c: Checkpoint<O, R>, i: nat, saves: nat, done: nat)
    requires i < |c.units|
    ensures var pass := AttemptOf(producer, call, c, i, saves, done);
      && |pass.checkpoint.units| == |c.units|
      && (forall u :: 0 <= u < |c.units| && u != i ==> pass.checkpoint.units[u] == c.units[u])
      && (pass.ending == Terminal <==> !(call.crashes && saves <= call.savesUntilCrash <= saves + 1))
      && (pass.ending == Terminal ==>
            && pass.checkpoint.status == RUN_RUNNING && pass.checkpoint.result == c.result
            && IsAttempted(producer, call, i, c.units[i], pass.checkpoint.units[i]) && pass.saves == saves + 2
            && pass.done == done + if pass.checkpoint.units[i].status == COMPLETED then 1 else 0)
      && (pass.ending != Terminal ==>
            pass.ending == Crashed
            && if call.savesUntilCrash == saves then pass.checkpoint == c
               else pass.checkpoint.status == RUN_RUNNING && pass.checkpoint.units[i] == c.units[i].(status := RUNNING))
  {
  }

  /** Nothing made the call return before unit `i`: the signal was not aborted before any unit that was not completed. */
  ghost predicate NotStopped<O>(call: Call, start: seq<WorkUnit<O>>, i: nat) {
    forall u :: 0 <= u < i && u < |start| && start[u].status != COMPLETED ==> !call.abortedBefore(u)
  }

  ghost predicate ComesTo<O>(
      producer: (nat, nat) -> Outcome<O>, max: nat, call: Call, start: seq<WorkUnit<O>>, units: seq<WorkUnit<O>>, i: nat)
  {
    PassedOnce(producer, max, call, i, start, units) && NotStopped(call, start, i)
  }

  /** The call paused before unit `i`, at the signal or with as many units completed as its limit says. */
  ghost predicate PausesAt<O>(
      producer: (nat, nat) -> Outcome<O>, max: nat, call: Call, start: seq<WorkUnit<O>>, units: seq<WorkUnit<O>>, i: nat)
  {
    && ComesTo(producer, max, call, start, units, i) && i < |start| && start[i].status != COMPLETED
    && (call.abortedBefore(i) || CountStatus(units, COMPLETED) == CountStatus(start, COMPLETED) + call.limit)
  }

  /** The call crashed before it recorded an attempt at unit `i`, which may have been marked as running. */
  ghost predicate CrashesIn<O>(
      producer: (nat, nat) -> Outcome<O>, max: nat, call: Call, start: seq<WorkUnit<O>>, units: seq<WorkUnit<O>>, i: nat)
  {
    && call.crashes
    && (ComesTo(producer, max, call, start, units, i)
        || (i < |start| == |units| && units[i] == start[i].(status := RUNNING)
            && ComesTo(producer, max, call, start, units[i := start[i]], i)))
  }

  /** How far a call has come, by its ending. */
  ghost predicate HasEnded<O, R>(
      producer: (nat, nat) -> Outcome<O>, max: nat, call: Call, start: seq<WorkUnit<O>>, c: Checkpoint<O, R>, ending: Ending)
  {
    match ending
    case Paused =>
      && c.status == RUN_PAUSED
      && ((exists i :: PausesAt(producer, max, call, start, c.units, i))
          || (ComesTo(producer, max, call, start, c.units, |start|) && Retryable(c.units, max)))
    case Crashed => exists i :: CrashesIn(producer, max, call, start, c.units, i)
    case _ => ComesTo(producer, max, call, start, c.units, |start|) && !Retryable(c.units, max)
  }

  /** What a call does about unit `i`. */
  function UnitOf<O, R>(
      producer: (nat, nat) -> Outcome<O>, max: nat, call: Call, c: Checkpoint<O, R>, i: nat, saves: nat, done: nat): Pass<O, R>
    requires i < |c.units|
  {
    if c.units[i].status == COMPLETED then Pass(c, Terminal, saves, done)
    else if call.abortedBefore(i) || done >= call.limit then PauseOf(call, c, saves, done)
    else if c.units[i].attempts >= max && c.units[i].status == FAILED then Pass(c, Terminal, saves, done)
    else AttemptOf(producer, call, c, i, saves, done)
  }

  lemma UnitsAreKept<O, R>(
      producer: (nat, nat) -> Outcome<O>, max: nat, call: Call, c: Checkpoint<O, R>, i: nat, saves: nat, done: nat)
    requires i < |c.units|
    ensures |UnitOf(producer, max, call, c, i, saves, done).checkpoint.units| == |c.units|
  {
  }

  /** The pass over the units from `i` on. */
  function PassFrom<O, R>(
      producer: (nat, nat) -> Outcome<O>, max: nat, call: Call, c: Checkpoint<O, R>, i: nat, saves: nat, done: nat): Pass<O, R>
    requires i <= |c.units|
    decreases |c.units| - i
  {
    if i == |c.units| then Pass(c, Terminal, saves, done)
    else
      var next := UnitOf(producer, max, call, c, i, saves, done);
      UnitsAreKept(producer, max, call, c, i, saves, done);
      if next.ending != Terminal then next
      else PassFrom(producer, max, call, next.checkpoint, i + 1, next.saves, next.done)
  }

  /** After the pass: the run is paused if a unit can be retried; otherwise its result is appended, and then saved. */
  function Conclude<O, R(==)>(max: nat, assemble: seq<WorkUnit<O>> -> R, call: Call, r: Repository<O, R>, saves: nat)
    : (Repository<O, R>, Ending)
  {
    var c := r.checkpoint;
    if Retryable(c.units, max) then
      var pause := PauseOf(call, c, saves, 0);
      (r.(checkpoint := pause.checkpoint), pause.ending)
    else if CrashesAt(call, saves) then (r, Crashed)
    else
      var result := Result(assemble(c.units), call.stamp);
      if r.appended.Bundle? && r.appended.value != result then (r, Refused)
      else if CrashesAt(call, saves + 1) then (r.(appended := Bundle(result)), CrashedAfterAppend)
      else (Repository(Concluded(c, result), Bundle(result)), Terminal)
  }

  /** What a call makes of the repository, and how it ends. */
  function AfterCall<O, R(==)>(
      producer: (nat, nat) -> Outcome<O>, max: nat, assemble: seq<WorkUnit<O>> -> R, r: Repository<O, R>, call: Call)
    : (Repository<O, R>, Ending)
  {
    if IsTerminal(r.checkpoint.status) then (r, Terminal)
    else
      var pass := PassFrom(producer, max, call, r.checkpoint, 0, 0, 0);
      if pass.ending != Terminal then (r.(checkpoint := pass.checkpoint), pass.ending)
      else Conclude(max, assemble, call, r.(checkpoint := pass.checkpoint), pass.saves)
  }

  // ---------------------------------------------------------------- what a call keeps

  /** The pass has come to unit `i` of the call that found the units as `start`, with `before` attempts left to make. */
  ghost predicate Passing<O(!new), R>(
      producer: (nat, nat) -> Outcome<O>, max: nat, call: Call, start: seq<WorkUnit<O>>, before: nat,
      c: Checkpoint<O, R>, i: nat, done: nat, interrupted: bool)
  {
    && i <= |c.units| && done <= call.limit && done <= i
    && Sound(producer, max, c, interrupted) && !IsTerminal(c.status)
    && PassedOver(max, c, interrupted, i, before, done)
    && ComesTo(producer, max, call, start, c.units, i)
    && CountStatus(c.units, COMPLETED) == CountStatus(start, COMPLETED) + done
  }

  /** The pass has made the call return. */
  ghost predicate Stopped<O(!new), R>(
      producer: (nat, nat) -> Outcome<O>, max: nat, call: Call, start: seq<WorkUnit<O>>, before: nat,
      c: Checkpoint<O, R>, ending: Ending, interrupted: bool)
  {
    && |c.units| == |start| && Sound(producer, max, c, interrupted) && !IsTerminal(c.status)
    && (!interrupted ==> Remaining(c.units, max) <= before)
    && (!interrupted && Undisturbed(call) ==> Remaining(c.units, max) < before)
    && CountStatus(c.units, COMPLETED) <= CountStatus(start, COMPLETED) + call.limit
    && (ending == Paused || ending == Crashed) && !Unlimited(call, |start|)
    && HasEnded(producer, max, call, start, c, ending)
  }

  ghost predicate Holds<O(!new), R>(
      producer: (nat, nat) -> Outcome<O>, max: nat, call: Call, start: seq<WorkUnit<O>>, before: nat,
      pass: Pass<O, R>, i: nat, interrupted: bool)
  {
    if pass.ending == Terminal then Passing(producer, max, call, start, before, pass.checkpoint, i, pass.done, interrupted)
    else Stopped(producer, max, call, start, before, pass.checkpoint, pass.ending, interrupted)
  }

  lemma PauseHolds<O(!new), R>(
      producer: (nat, nat) -> Outcome<O>, max: nat, call: Call, start: seq<WorkUnit<O>>, before: nat,
      c: Checkpoint<O, R>, i: nat, saves: nat, done: nat, interrupted: bool)
    requires Passing(producer, max, call, start, before, c, i, done, interrupted)
    requires i < |c.units| && (call.abortedBefore(i) || done >= call.limit)
    requires c.units[i].status != COMPLETED
    ensures Holds(producer, max, call, start, before, PauseOf(call, c, saves, done), i + 1, interrupted)
  {
    WorkWasDone(max, c, interrupted, i, before, done);
    assert PausesAt(producer, max, call, start, c.units, i);
    assert call.crashes ==> CrashesIn(producer, max, call, start, c.units, i);
  }

  lemma SettledHolds<O(!new), R>(
      producer: (nat, nat) -> Outcome<O>, max: nat, call: Call, start: seq<WorkUnit<O>>, before: nat,
      c: Checkpoint<O, R>, i: nat, saves: nat, done: nat, interrupted: bool)
    requires Passing(producer, max, call, start, before, c, i, done, interrupted)
    requires i < |c.units| && Settled(c.units[i], max) && (c.units[i].status != COMPLETED ==> !call.abortedBefore(i))
    ensures Holds(producer, max, call, start, before, Pass(c, Terminal, saves, done), i + 1, interrupted)
  {
    SettledIsPassed(max, c, interrupted, i, before, done);
    OneMoreComesTo(producer, max, call, i, start, c.units, c.units);
  }

  lemma OneMoreComesTo<O>(producer: (nat, nat) -> Outcome<O>, max: nat, call: Call, i: nat, start: seq<WorkUnit<O>>,
                          units: seq<WorkUnit<O>>, next: seq<WorkUnit<O>>)
    requires ComesTo(producer, max, call, start, units, i) && i < |units|
    requires units[i].status != COMPLETED ==> !call.abortedBefore(i)
    requires next == units[i := OneMore(producer, max, i, units[i], call.abortedDuring(i))]
    ensures ComesTo(producer, max, call, start, next, i + 1)
  {
    OnePassed(producer, max, call, i, start, units, next);
  }

  lemma CrashHolds<O(!new), R>(
      producer: (nat, nat) -> Outcome<O>, max: nat, call: Call, start: seq<WorkUnit<O>>, before: nat,
      c: Checkpoint<O, R>, i: nat, done: nat, interrupted: bool, saved: Checkpoint<O, R>)
    requires Passing(producer, max, call, start, before, c, i, done, interrupted) && call.crashes && i < |c.units|
    requires saved == c || saved == Started(c, i)
    requires Sound(producer, max, saved, interrupted) && Remaining(saved.units, max) == Remaining(c.units, max)
    requires CountStatus(saved.units, COMPLETED) == CountStatus(c.units, COMPLETED)
    ensures Stopped(producer, max, call, start, before, saved, Crashed, interrupted)
  {
    WorkWasDone(max, c, interrupted, i, before, done);
    assert saved.units[i := start[i]] == c.units;
    assert CrashesIn(producer, max, call, start, saved.units, i);
  }

  /** One attempt with its two saves, possibly cut off by a crash, keeps the checkpoint sound and counted. */
  lemma AttemptHolds<O(!new), R>(
      producer: (nat, nat) -> Outcome<O>, max: nat, call: Call, start: seq<WorkUnit<O>>, before: nat,
      c: Checkpoint<O, R>, i: nat, saves: nat, done: nat, interrupted: bool)
    returns (now: bool)
    requires Passing(producer, max, call, start, before, c, i, done, interrupted)
    requires i < |c.units| && c.units[i].status != COMPLETED && !Settled(c.units[i], max) && done < call.limit
    requires !call.abortedBefore(i)
    ensures Holds(producer, max, call, start, before, AttemptOf(producer, call, c, i, saves, done), i + 1, now)
    ensures (interrupted ==> now) && (NeverAborts(producer) && NeverInterrupts(call) ==> now == interrupted)
  {
    var started, next, counted;
    started, next, now, counted := AttemptIsSound(producer, max, c, interrupted, i, call.abortedDuring(i), before, done);
    if call.crashes && (saves == call.savesUntilCrash || saves + 1 == call.savesUntilCrash) {
      StartKeepsSound(producer, max, c, interrupted, i);
      CrashHolds(producer, max, call, start, before, c, i, done, interrupted, if saves == call.savesUntilCrash then c else started);
      now := interrupted;
    } else {
      AttemptIsOneMore(producer, max, c, i, call.abortedDuring(i), next.units);
      OneMoreComesTo(producer, max, call, i, start, c.units, next.units);
    }
  }

  lemma UnitHolds<O(!new), R>(
      producer: (nat, nat) -> Outcome<O>, max: nat, call: Call, start: seq<WorkUnit<O>>, before: nat,
      c: Checkpoint<O, R>, i: nat, saves: nat, done: nat, interrupted: bool)
    returns (now: bool)
    requires Passing(producer, max, call, start, before, c, i, done, interrupted) && i < |c.units|
    ensures Holds(producer, max, call, start, before, UnitOf(producer, max, call, c, i, saves, done), i + 1, now)
    ensures (interrupted ==> now) && (NeverAborts(producer) && NeverInterrupts(call) ==> now == interrupted)
  {
    now := interrupted;
    if c.units[i].status == COMPLETED {
      SettledHolds(producer, max, call, start, before, c, i, saves, done, interrupted);
    } else if call.abortedBefore(i) || done >= call.limit {
      PauseHolds(producer, max, call, start, before, c, i, saves, done, interrupted);
    } else if c.units[i].attempts >= max && c.units[i].status == FAILED {
      SettledHolds(producer, max, call, start, before, c, i, saves, done, interrupted);
    } else {
      now := AttemptHolds(producer, max, call, start, before, c, i, saves, done, interrupted);
    }
  }

  lemma {:induction false} PassHolds<O(!new), R>(
      producer: (nat, nat) -> Outcome<O>, max: nat, call: Call, start: seq<WorkUnit<O>>, before: nat,
      c: Checkpoint<O, R>, i: nat, saves: nat, done: nat, interrupted: bool)
    returns (now: bool)
    requires Passing(producer, max, call, start, before, c, i, done, interrupted)
    ensures Holds(producer, max, call, start, before, PassFrom(producer, max, call, c, i, saves, done), |start|, now)
    ensures (interrupted ==> now) && (NeverAborts(producer) && NeverInterrupts(call) ==> now == interrupted)
    decreases |c.units| - i
  {
    now := interrupted;
    if i < |c.units| {
      var next := UnitOf(producer, max, call, c, i, saves, done);
      now := UnitHolds(producer, max, call, start, before, c, i, saves, done, interrupted);
      if next.ending == Terminal {
        now := PassHolds(producer, max, call, start, before, next.checkpoint, i + 1, next.saves, next.done, now);
      }
    }
  }

  /** What a repository keeps to, between any two calls. */
  ghost predicate Keeps<O(!new), R>(
      producer: (nat, nat) -> Outcome<O>, max: nat, assemble: seq<WorkUnit<O>> -> R, r: Repository<O, R>, interrupted: bool)
  {
    && Sound(producer, max, r.checkpoint, interrupted)
    && (IsTerminal(r.checkpoint.status) ==>
          Finished(producer, max, assemble, r.checkpoint, interrupted) && r.appended == r.checkpoint.result)
    && (!interrupted && r.appended.Bundle? ==>
          AllSettled(r.checkpoint.units, max) && r.appended.value.content == assemble(r.checkpoint.units))
  }

  /** What a call does to a run that has not ended. */
  ghost predicate CallDoes<O(!new), R>(
      producer: (nat, nat) -> Outcome<O>, max: nat, assemble: seq<WorkUnit<O>> -> R, call: Call,
      r: Repository<O, R>, next: Repository<O, R>, ending: Ending, interrupted: bool)
  {
    var c, n := r.checkpoint, next.checkpoint;
    var result := Result(assemble(n.units), call.stamp);
    && |n.units| == |c.units|
    && (ending == Terminal <==> IsTerminal(n.status))
    && (!interrupted ==> Remaining(n.units, max) <= Remaining(c.units, max))
    && (!interrupted && Undisturbed(call) && ending != Terminal && ending != Refused ==> Remaining(n.units, max) < Remaining(c.units, max))
    && CountStatus(n.units, COMPLETED) <= CountStatus(c.units, COMPLETED) + call.limit
    // a result is appended once, and the call refused if it has made another one
    && (ending == Terminal || ending == CrashedAfterAppend ==> next.appended == Bundle(result))
    && (ending != Terminal && ending != CrashedAfterAppend ==> next.appended == r.appended)
    && (r.appended.Bundle? ==> next.appended == r.appended)
    && (ending == Refused ==> r.appended.Bundle? && r.appended.value != result)
    // a call that nothing stops before ends the run unless there is something to retry, or another result
    && (Unlimited(call, |c.units|) ==>
          (ending == Terminal <==> !Retryable(n.units, max) && (r.appended.Bundle? ==> r.appended.value == result)))
    // how far it has come; one that ends the run leaves no unit queued exactly if no attempt aborted
    && HasEnded(producer, max, call, c.units, n, ending)
    && (ending == Terminal ==> (n.completed + n.failed == |n.units| <==> NoneAborts(producer, max, call, c.units)))
  }

  /** A call has passed over every unit, and has come to the end of its work. */
  ghost predicate HasPassed<O(!new), R>(
      producer: (nat, nat) -> Outcome<O>, max: nat, assemble: seq<WorkUnit<O>> -> R, call: Call,
      r: Repository<O, R>, middle: Repository<O, R>, done: nat, interrupted: bool)
  {
    && max >= 1 && middle.appended == r.appended
    && Passing(producer, max, call, r.checkpoint.units, Remaining(r.checkpoint.units, max), middle.checkpoint,
               |r.checkpoint.units|, done, interrupted)
    && (!interrupted && r.appended.Bundle? ==>
          AllSettled(middle.checkpoint.units, max) && r.appended.value.content == assemble(middle.checkpoint.units))
  }

  lemma RetryKeeps<O(!new), R>(
      producer: (nat, nat) -> Outcome<O>, max: nat, assemble: seq<WorkUnit<O>> -> R, call: Call, r: Repository<O, R>,
      middle: Repository<O, R>, saves: nat, done: nat, interrupted: bool, next: Repository<O, R>, ending: Ending)
    requires HasPassed(producer, max, assemble, call, r, middle, done, interrupted) && Retryable(middle.checkpoint.units, max)
    requires (next, ending) == Conclude(max, assemble, call, middle, saves)
    ensures Keeps(producer, max, assemble, next, interrupted)
    ensures CallDoes(producer, max, assemble, call, r, next, ending, interrupted)
  {
    WorkWasDone(max, middle.checkpoint, interrupted, |r.checkpoint.units|, Remaining(r.checkpoint.units, max), done);
    assert call.crashes ==>
        CrashesIn(producer, max, call, r.checkpoint.units, middle.checkpoint.units, |r.checkpoint.units|);
  }

  lemma CutOffKeeps<O(!new), R>(
      producer: (nat, nat) -> Outcome<O>, max: nat, assemble: seq<WorkUnit<O>> -> R, call: Call, r: Repository<O, R>,
      middle: Repository<O, R>, done: nat, interrupted: bool, next: Repository<O, R>, ending: Ending)
    requires HasPassed(producer, max, assemble, call, r, middle, done, interrupted)
    requires next.checkpoint == middle.checkpoint && !Retryable(middle.checkpoint.units, max)
    requires var result := Result(assemble(middle.checkpoint.units), call.stamp);
      || (ending == Crashed && call.crashes && next.appended == r.appended)
      || (ending == Refused && r.appended.Bundle? && r.appended.value != result && next.appended == r.appended)
      || (ending == CrashedAfterAppend && call.crashes && (r.appended.Bundle? ==> r.appended.value == result)
          && next.appended == Bundle(result) && (!interrupted ==> AllSettled(middle.checkpoint.units, max)))
    ensures Keeps(producer, max, assemble, next, interrupted)
    ensures CallDoes(producer, max, assemble, call, r, next, ending, interrupted)
  {
    WorkWasDone(max, middle.checkpoint, interrupted, |r.checkpoint.units|, Remaining(r.checkpoint.units, max), done);
    assert call.crashes ==>
        CrashesIn(producer, max, call, r.checkpoint.units, middle.checkpoint.units, |r.checkpoint.units|);
  }

  lemma EndKeeps<O(!new), R>(
      producer: (nat, nat) -> Outcome<O>, max: nat, assemble: seq<WorkUnit<O>> -> R, call: Call, r: Repository<O, R>,
      middle: Repository<O, R>, done: nat, interrupted: bool, next: Repository<O, R>)
    requires HasPassed(producer, max, assemble, call, r, middle, done, interrupted) && !Retryable(middle.checkpoint.units, max)
    requires var result := Result(assemble(middle.checkpoint.units), call.stamp);
      (r.appended.Bundle? ==> r.appended.value == result) && next == Repository(Concluded(middle.checkpoint, result), Bundle(result))
    ensures Keeps(producer, max, assemble, next, interrupted)
    ensures CallDoes(producer, max, assemble, call, r, next, Terminal, interrupted)
  {
    var before := Remaining(r.checkpoint.units, max);
    WorkWasDone(max, middle.checkpoint, interrupted, |r.checkpoint.units|, before, done);
    EndIsFinished(producer, max, assemble, call, r.checkpoint.units, middle.checkpoint, interrupted, before, done);
  }

  lemma ConclusionKeeps<O(!new), R>(
      producer: (nat, nat) -> Outcome<O>, max: nat, assemble: seq<WorkUnit<O>> -> R, call: Call, r: Repository<O, R>,
      middle: Repository<O, R>, saves: nat, done: nat, interrupted: bool, next: Repository<O, R>, ending: Ending)
    requires HasPassed(producer, max, assemble, call, r, middle, done, interrupted)
    requires (next, ending) == Conclude(max, assemble, call, middle, saves)
    ensures Keeps(producer, max, assemble, next, interrupted)
    ensures CallDoes(producer, max, assemble, call, r, next, ending, interrupted)
  {
    if Retryable(middle.checkpoint.units, max) {
      RetryKeeps(producer, max, assemble, call, r, middle, saves, done, interrupted, next, ending);
    } else if ending == Terminal {
      EndKeeps(producer, max, assemble, call, r, middle, done, interrupted, next);
    } else {
      AllPassedAreSettled(max, middle.checkpoint, interrupted, Remaining(r.checkpoint.units, max), done);
      CutOffKeeps(producer, max, assemble, call, r, middle, done, interrupted, next, ending);
    }
  }

  lemma StoppedKeeps<O(!new), R>(
      producer: (nat, nat) -> Outcome<O>, max: nat, assemble: seq<WorkUnit<O>> -> R, call: Call, r: Repository<O, R>,
      c: Checkpoint<O, Result<R>>, ending: Ending, interrupted: bool)
    requires Stopped(producer, max, call, r.checkpoint.units, Remaining(r.checkpoint.units, max), c, ending, interrupted)
    requires !interrupted && r.appended.Bundle? ==> AllSettled(c.units, max) && r.appended.value.content == assemble(c.units)
    ensures Keeps(producer, max, assemble, r.(checkpoint := c), interrupted)
    ensures CallDoes(producer, max, assemble, call, r, r.(checkpoint := c), ending, interrupted)
  {
  }

  // ---------------------------------------------------------------- calls on settled units

  /** Whether a call gets past the units that are left to look at, with nothing to do about any of them. */
  predicate GetsThrough<O>(call: Call, units: seq<WorkUnit<O>>) {
    forall u :: 0 <= u < |units| && units[u].status != COMPLETED ==> !call.abortedBefore(u) && call.limit > 0
  }

  /** A pass over settled units changes none of them, and writes nothing unless it is stopped. */
  lemma {:induction false} SettledPass<O(!new), R>(
      producer: (nat, nat) -> Outcome<O>, max: nat, call: Call, c: Checkpoint<O, R>, i: nat)
    requires AllSettled(c.units, max) && i <= |c.units|
    ensures var pass := PassFrom(producer, max, call, c, i, 0, 0);
      && pass.checkpoint.units == c.units && (IsTerminal(pass.checkpoint.status) ==> IsTerminal(c.status))
      && (pass.ending == Terminal <==>
            forall u :: i <= u < |c.units| && c.units[u].status != COMPLETED ==> !call.abortedBefore(u) && call.limit > 0)
      && (if pass.ending == Terminal then pass == Pass(c, Terminal, 0, 0) else pass.ending == Paused || pass.ending == Crashed)
    decreases |c.units| - i
  {
    if i < |c.units| {
      assert Settled(c.units[i], max);
      SettledPass(producer, max, call, c, i + 1);
    }
  }
}
