/**
 Whole analysis runs: any number of calls one after the other on one repository, and the agent that makes them.
 */
module AnalysisRuns {
  import opened AnalysisExecution

  lemma CallKeeps<O(!new), R>(
      producer: (nat, nat) -> Outcome<O>, max: nat, assemble: seq<WorkUnit<O>> -> R, r: Repository<O, R>, call: Call,
      interrupted: bool, next: Repository<O, R>, ending: Ending)
    returns (now: bool)
    requires max >= 1 && Keeps(producer, max, assemble, r, interrupted) && !IsTerminal(r.checkpoint.status)
    requires (next, ending) == AfterCall(producer, max, assemble, r, call)
    ensures Keeps(producer, max, assemble, next, now) && CallDoes(producer, max, assemble, call, r, next, ending, now)
    ensures (interrupted ==> now) && (NeverAborts(producer) && NeverInterrupts(call) ==> now == interrupted)
  {
    var c := r.checkpoint;
    var before, pass := Remaining(c.units, max), PassFrom(producer, max, call, c, 0, 0, 0);
    now := PassHolds(producer, max, call, c.units, before, c, 0, 0, 0, interrupted);
    if !interrupted && r.appended.Bundle? {
      SettledPass(producer, max, call, c, 0);
    }
    if pass.ending == Terminal {
      ConclusionKeeps(producer, max, assemble, call, r, r.(checkpoint := pass.checkpoint), pass.saves, pass.done, now, next, ending);
    } else {
      StoppedKeeps(producer, max, assemble, call, r, pass.checkpoint, pass.ending, now);
    }
  }

  // ---------------------------------------------------------------- any sequence of calls

  /** Everything the result is computed from besides the units is fixed when the run is planned. */
  datatype Plan<!O, !R> = Plan(producer: (nat, nat) -> Outcome<O>, max: nat, assemble: seq<WorkUnit<O>> -> R, planned: nat)

  /** A run is stored once planned, with every unit queued. */
  function Planned<O, R>(n: nat): Repository<O, R> {
    Repository(Checkpoint(seq(n, _ => WorkUnit(QUEUED, 0, NoOutput)), RUN_RUNNING, 0, 0, NoOutput), NoOutput)
  }

  function Called<O, R(==)>(plan: Plan<O, R>, r: Repository<O, R>, call: Call): (Repository<O, R>, Ending) {
    AfterCall(plan.producer, plan.max, plan.assemble, r, call)
  }

  function AfterCalls<O, R(==)>(plan: Plan<O, R>, calls: seq<Call>): Repository<O, R> {
    if calls == [] then Planned(plan.planned)
    else Called(plan, AfterCalls(plan, calls[..|calls| - 1]), calls[|calls| - 1]).0
  }

  /** Call `k` appends the result of the run, and stops before it has saved the checkpoint. */
  predicate LosesSave<O, R(==)>(plan: Plan<O, R>, calls: seq<Call>, k: nat)
    requires k < |calls|
  {
    Called(plan, AfterCalls(plan, calls[..k]), calls[k]).1 == CrashedAfterAppend
  }

  predicate NeverLosesSave<O, R(==)>(plan: Plan<O, R>, calls: seq<Call>) {
    forall k :: 0 <= k < |calls| ==> !LosesSave(plan, calls, k)
  }

  /** Whether a call that finds all units settled and the same result appended saves the checkpoint. */
  predicate SavesAtOnce<O>(call: Call, units: seq<WorkUnit<O>>) {
    GetsThrough(call, units) && !(call.crashes && call.savesUntilCrash <= 1)
  }

  /** After a call that has lost the save, another one whose clock reads the same gets through to it. */
  ghost predicate IsSavedLater<O, R>(plan: Plan<O, R>, calls: seq<Call>) {
    exists k, j :: 0 <= k < j < |calls| && LosesSave(plan, calls, k) && SavesAgain(plan, calls[k], calls[j])
  }

  ghost predicate SavesAgain<O, R>(plan: Plan<O, R>, lost: Call, later: Call) {
    later.stamp == lost.stamp && SavesAtOnce(later, FinalUnits(plan.producer, plan.planned, plan.max))
  }

  ghost function CountUndisturbed(calls: seq<Call>): (n: nat)
    ensures n <= |calls|
  {
    if calls == [] then 0
    else CountUndisturbed(calls[..|calls| - 1]) + if Undisturbed(calls[|calls| - 1]) then 1 else 0
  }

  ghost predicate NothingAborts<O(!new), R>(plan: Plan<O, R>, calls: seq<Call>) {
    plan.max >= 1 && NeverAborts(plan.producer) && forall k :: 0 <= k < |calls| ==> NeverInterrupts(calls[k])
  }

  lemma PlannedKeeps<O(!new), R>(plan: Plan<O, R>, r: Repository<O, R>)
    requires plan.max >= 1 && r == Planned(plan.planned)
    ensures Keeps(plan.producer, plan.max, plan.assemble, r, false)
    ensures Remaining(r.checkpoint.units, plan.max) == plan.planned * plan.max
  {
    FreshUnitsRemain(r.checkpoint.units, plan.max);
  }

  /** Where no save has been lost: the run has ended, or nothing has been appended and each undisturbed call did some work. */
  ghost predicate IsUnderWay<O(!new), R>(plan: Plan<O, R>, r: Repository<O, R>, undisturbed: nat) {
    IsTerminal(r.checkpoint.status)
    || (r.appended.NoOutput? && Remaining(r.checkpoint.units, plan.max) + undisturbed <= plan.planned * plan.max)
  }

  /** Where a save has been lost: the units are final, and their result is appended, as it was stamped. */
  ghost predicate HasLost<O(!new), R>(plan: Plan<O, R>, r: Repository<O, R>, stamp: seq<int>) {
    var units := FinalUnits(plan.producer, plan.planned, plan.max);
    && r.checkpoint.units == units && AllSettled(units, plan.max)
    && r.appended == Bundle(Result(plan.assemble(units), stamp))
  }

  lemma CallWhereSaveIsLost<O(!new), R>(plan: Plan<O, R>, r: Repository<O, R>, call: Call, stamp: seq<int>,
                                        next: Repository<O, R>, ending: Ending)
    requires HasLost(plan, r, stamp) && (next, ending) == Called(plan, r, call)
    ensures HasLost(plan, next, stamp)
    ensures IsTerminal(next.checkpoint.status) <==>
            IsTerminal(r.checkpoint.status) || (call.stamp == stamp && SavesAtOnce(call, r.checkpoint.units))
    ensures ending == CrashedAfterAppend ==> call.stamp == stamp
    ensures !IsTerminal(r.checkpoint.status) && Undisturbed(call) && call.stamp != stamp ==> ending == Refused
  {
    if !IsTerminal(r.checkpoint.status) {
      SettledPass(plan.producer, plan.max, call, r.checkpoint, 0);
      assert !Retryable(r.checkpoint.units, plan.max);
    }
  }

  lemma CallThatLosesSave<O(!new), R>(plan: Plan<O, R>, r: Repository<O, R>, call: Call, next: Repository<O, R>)
    requires plan.max >= 1 && NeverAborts(plan.producer) && NeverInterrupts(call)
    requires Keeps(plan.producer, plan.max, plan.assemble, r, false) && |r.checkpoint.units| == plan.planned
    requires Called(plan, r, call) == (next, CrashedAfterAppend)
    ensures HasLost(plan, next, call.stamp) && !IsTerminal(next.checkpoint.status)
  {
    var now := CallKeeps(plan.producer, plan.max, plan.assemble, r, call, false, next, CrashedAfterAppend);
    AllSettledIsFinal(plan.producer, plan.max, next.checkpoint.units);
  }

  lemma CallUnderWay<O(!new), R>(plan: Plan<O, R>, r: Repository<O, R>, call: Call, undisturbed: nat,
                                 next: Repository<O, R>, ending: Ending)
    requires plan.max >= 1 && NeverAborts(plan.producer) && NeverInterrupts(call)
    requires Keeps(plan.producer, plan.max, plan.assemble, r, false) && IsUnderWay(plan, r, undisturbed)
    requires (next, ending) == Called(plan, r, call) && ending != CrashedAfterAppend
    ensures IsUnderWay(plan, next, undisturbed + if Undisturbed(call) then 1 else 0)
  {
    if !IsTerminal(r.checkpoint.status) {
      var now := CallKeeps(plan.producer, plan.max, plan.assemble, r, call, false, next, ending);
    }
  }

  lemma CallsKeep<O(!new), R>(plan: Plan<O, R>, r: Repository<O, R>, call: Call, next: Repository<O, R>, ending: Ending)
    requires plan.max >= 1 && NeverAborts(plan.producer) && NeverInterrupts(call)
    requires Keeps(plan.producer, plan.max, plan.assemble, r, false) && |r.checkpoint.units| == plan.planned
    requires (next, ending) == Called(plan, r, call)
    ensures Keeps(plan.producer, plan.max, plan.assemble, next, false) && |next.checkpoint.units| == plan.planned
  {
    if !IsTerminal(r.checkpoint.status) {
      var now := CallKeeps(plan.producer, plan.max, plan.assemble, r, call, false, next, ending);
    }
  }

  lemma {:induction false} RunKeeps<O(!new), R>(plan: Plan<O, R>, calls: seq<Call>)
    requires NothingAborts(plan, calls)
    ensures Keeps(plan.producer, plan.max, plan.assemble, AfterCalls(plan, calls), false)
    ensures |AfterCalls(plan, calls).checkpoint.units| == plan.planned
  {
    if calls == [] {
      PlannedKeeps(plan, AfterCalls(plan, calls));
    } else {
      var init, last := calls[..|calls| - 1], calls[|calls| - 1];
      RunKeeps(plan, init);
      var (next, ending) := Called(plan, AfterCalls(plan, init), last);
      CallsKeep(plan, AfterCalls(plan, init), last, next, ending);
    }
  }

  lemma EarlierCallsLose<O, R>(plan: Plan<O, R>, init: seq<Call>, last: Call, k: nat)
    requires k < |init|
    ensures LosesSave(plan, init + [last], k) <==> LosesSave(plan, init, k)
  {
    assert (init + [last])[..k] == init[..k];
  }

  lemma LastCallLoses<O, R>(plan: Plan<O, R>, init: seq<Call>, last: Call)
    ensures LosesSave(plan, init + [last], |init|) <==> Called(plan, AfterCalls(plan, init), last).1 == CrashedAfterAppend
    ensures AfterCalls(plan, init + [last]) == Called(plan, AfterCalls(plan, init), last).0
  {
    assert (init + [last])[..|init|] == init;
  }

  lemma {:induction false} RunIsUnderWay<O(!new), R>(plan: Plan<O, R>, calls: seq<Call>)
    requires NothingAborts(plan, calls) && NeverLosesSave(plan, calls)
    ensures IsUnderWay(plan, AfterCalls(plan, calls), CountUndisturbed(calls))
  {
    if calls == [] {
      PlannedKeeps(plan, AfterCalls(plan, calls));
    } else {
      var init, last := calls[..|calls| - 1], calls[|calls| - 1];
      assert calls == init + [last];
      forall k | 0 <= k < |init|
        ensures !LosesSave(plan, init, k)
      {
        EarlierCallsLose(plan, init, last, k);
        assert !LosesSave(plan, calls, k);
      }
      RunIsUnderWay(plan, init);
      RunKeeps(plan, init);
      LastCallLoses(plan, init, last);
      assert !LosesSave(plan, calls, |init|);
      var (next, ending) := Called(plan, AfterCalls(plan, init), last);
      CallUnderWay(plan, AfterCalls(plan, init), last, CountUndisturbed(init), next, ending);
    }
  }

  /** From a lost save on, the appended result stays, and only a call with the same readings can end the run. */
  lemma {:induction false} LostSaveStays<O(!new), R>(plan: Plan<O, R>, calls: seq<Call>, k: nat)
    requires NothingAborts(plan, calls) && k < |calls| && LosesSave(plan, calls, k)
    ensures HasLost(plan, AfterCalls(plan, calls), calls[k].stamp)
    ensures IsTerminal(AfterCalls(plan, calls).checkpoint.status) <==>
            exists j :: k < j < |calls| && SavesAgain(plan, calls[k], calls[j])
    decreases |calls|
  {
    var init, last := calls[..|calls| - 1], calls[|calls| - 1];
    assert calls == init + [last];
    LastCallLoses(plan, init, last);
    RunKeeps(plan, init);
    var (next, ending) := Called(plan, AfterCalls(plan, init), last);
    if k == |init| {
      CallThatLosesSave(plan, AfterCalls(plan, init), last, next);
    } else {
      EarlierCallsLose(plan, init, last, k);
      LostSaveStays(plan, init, k);
      CallWhereSaveIsLost(plan, AfterCalls(plan, init), last, calls[k].stamp, next, ending);
      OneMoreCall(plan, init, last, k);
    }
  }

  lemma OneMoreCall<O, R>(plan: Plan<O, R>, init: seq<Call>, last: Call, k: nat)
    requires k < |init|
    ensures var calls := init + [last];
      (exists j :: k < j < |calls| && SavesAgain(plan, calls[k], calls[j])) <==>
      (exists j :: k < j < |init| && SavesAgain(plan, init[k], init[j])) || SavesAgain(plan, init[k], last)
  {
    var calls := init + [last];
    assert calls[|init|] == last && calls[k] == init[k];
    if j :| k < j < |init| && SavesAgain(plan, init[k], init[j]) {
      assert SavesAgain(plan, calls[k], calls[j]);
    }
    if j :| k < j < |calls| && SavesAgain(plan, calls[k], calls[j]) {
      assert calls[j] == if j < |init| then init[j] else last;
    }
  }

  /**
   However a run is split over calls, paused and crashed: with producers that never abort and more undisturbed calls than
   there are attempts to make, it has ended exactly if no call stopped between appending the result and saving the
   checkpoint, or a later call whose clock reads the same got through. It ends with the result of the same units always.
   */
  lemma RunEnds<O(!new), R>(plan: Plan<O, R>, calls: seq<Call>)
    requires NothingAborts(plan, calls) && CountUndisturbed(calls) > plan.planned * plan.max
    ensures IsTerminal(AfterCalls(plan, calls).checkpoint.status) <==> NeverLosesSave(plan, calls) || IsSavedLater(plan, calls)
  {
    if NeverLosesSave(plan, calls) {
      RunIsUnderWay(plan, calls);
    } else {
      var k: nat :| k < |calls| && LosesSave(plan, calls, k);
      LostSaveStays(plan, calls, k);
      forall i: nat, j: nat | i < j < |calls| && LosesSave(plan, calls, i) && SavesAgain(plan, calls[i], calls[j])
        ensures IsTerminal(AfterCalls(plan, calls).checkpoint.status)
      {
        LostSaveStays(plan, calls, i);
      }
    }
  }

  lemma EndedRunIsFinal<O(!new), R>(plan: Plan<O, R>, calls: seq<Call>)
    requires NothingAborts(plan, calls) && IsTerminal(AfterCalls(plan, calls).checkpoint.status)
    ensures var r := AfterCalls(plan, calls);
      var units := FinalUnits(plan.producer, plan.planned, plan.max);
      && r.checkpoint.units == units && r.checkpoint.completed + r.checkpoint.failed == plan.planned
      && r.appended == r.checkpoint.result && r.appended.Bundle? && r.appended.value.content == plan.assemble(units)
  {
    RunKeeps(plan, calls);
  }

  // ---------------------------------------------------------------- the input at which a run never ends

  lemma OneUnitIsAppended<O(!new), R>(plan: Plan<O, R>, call: Call)
    requires plan.max >= 1 && plan.planned == 1 && plan.producer(0, 1).Produced?
    requires call.limit >= 1 && !call.abortedBefore(0) && call.crashes && call.savesUntilCrash == 3
    ensures LosesSave(plan, [call], 0)
  {
    var r: Repository<O, R> := Planned(1);
    var c := r.checkpoint;
    var one := UnitOf(plan.producer, plan.max, call, c, 0, 0, 0);
    assert one.ending == Terminal && one.saves == 2 && |one.checkpoint.units| == 1;
    assert one.checkpoint.units[0].status == COMPLETED;
    assert PassFrom(plan.producer, plan.max, call, one.checkpoint, 1, one.saves, one.done) == one;
    assert PassFrom(plan.producer, plan.max, call, c, 0, 0, 0) == one;
    assert [call][..0] == [];
  }

  /**
   The input: one work unit, a first call that crashes after its third write, the append of the result, and later calls
   that nothing disturbs, at other times. The run never ends, and each of these calls is refused.
   */
  lemma LaterCallsAreRefused<O(!new), R>(plan: Plan<O, R>, first: Call, later: seq<Call>, next: Call)
    requires plan.max >= 1 && plan.planned == 1 && NeverAborts(plan.producer) && plan.producer(0, 1).Produced?
    requires NeverInterrupts(first) && first.limit >= 1 && !first.abortedBefore(0)
    requires first.crashes && first.savesUntilCrash == 3
    requires forall k :: 0 <= k < |later| ==> NeverInterrupts(later[k]) && later[k].stamp != first.stamp
    requires Undisturbed(next) && next.stamp != first.stamp
    ensures !IsTerminal(AfterCalls(plan, [first] + later).checkpoint.status)
    ensures Called(plan, AfterCalls(plan, [first] + later), next).1 == Refused
  {
    var calls := [first] + later;
    OneUnitIsAppended(plan, first);
    assert calls[..0] == [first][..0];
    LostSaveStays(plan, calls, 0);
    var r := AfterCalls(plan, calls);
    assert forall j :: 0 < j < |calls| ==> calls[j] == later[j - 1];
    assert !IsTerminal(r.checkpoint.status);
    var (after, ending) := Called(plan, r, next);
    CallWhereSaveIsLost(plan, r, next, first.stamp, after, ending);
  }

  // ---------------------------------------------------------------- the agent

  class AnalysisRun<O(!new, ==), R(==)> {
    const plan: Plan<O, R>
    /** The checkpoint in the repository, and the result appended to it: all that survives a crash. */
    var stored: Checkpoint<O, Result<R>>
    var appended: Output<Result<R>>
    /** Whether an aborted attempt has been recorded. */
    ghost var interrupted: bool

    ghost function Records(): Repository<O, R>
      reads this
    {
      Repository(stored, appended)
    }

    ghost predicate Valid()
      reads this
    {
      plan.max >= 1 && Keeps(plan.producer, plan.max, plan.assemble, Records(), interrupted)
    }

    constructor (plan: Plan<O, R>)
      requires plan.max >= 1
      ensures Valid() && this.plan == plan && Records() == Planned(plan.planned) && !interrupted
    {
      this.plan := plan;
      stored := Checkpoint(seq(plan.planned, _ => WorkUnit(QUEUED, 0, NoOutput)), RUN_RUNNING, 0, 0, NoOutput);
      appended := NoOutput;
      interrupted := false;
      PlannedKeeps(plan, Planned(plan.planned));
    }

    /** One attempt at unit `i`: it is saved as running, then with the outcome of the attempt. */
    method RunUnit(call: Call, i: nat, savesBefore: nat, doneBefore: nat) returns (crashed: bool, saves: nat, done: nat)
      requires i < |stored.units|
      modifies this`stored
      ensures Pass(stored, if crashed then Crashed else Terminal, saves, done)
              == AttemptOf(plan.producer, call, old(stored), i, savesBefore, doneBefore)
    {
      saves, done := savesBefore, doneBefore;
      if CrashesAt(call, saves) {
        return true, saves, done;
      }
      var checkpoint := Started(stored, i);
      stored, saves := checkpoint, saves + 1;
      if CrashesAt(call, saves) {
        return true, saves, done;
      }
      var units := Attempted(plan.producer, checkpoint.units, i, call.abortedDuring(i));
      if units[i].status == COMPLETED {
        done := done + 1;
      }
      stored, saves := Recounted(checkpoint, units), saves + 1;
      crashed := false;
    }

    method Pause(call: Call, saves: nat) returns (ending: Ending)
      modifies this`stored
      ensures stored == PauseOf(call, old(stored), saves, 0).checkpoint && ending == PauseOf(call, old(stored), saves, 0).ending
    {
      if CrashesAt(call, saves) {
        return Crashed;
      }
      stored := stored.(status := RUN_PAUSED);
      ending := Paused;
    }

    /** The pass over the units: an `ending` other than terminal says that the call has to return. */
    method RunUnits(call: Call) returns (ending: Ending, saves: nat)
      modifies this`stored
      ensures var pass := PassFrom(plan.producer, plan.max, call, old(stored), 0, 0, 0);
        stored == pass.checkpoint && ending == pass.ending && (ending == Terminal ==> saves == pass.saves)
    {
      var completedThisCall: nat;
      saves, completedThisCall := 0, 0;
      for i := 0 to |stored.units|
        invariant |stored.units| == |old(stored.units)|
        invariant PassFrom(plan.producer, plan.max, call, old(stored), 0, 0, 0)
                  == PassFrom(plan.producer, plan.max, call, stored, i, saves, completedThisCall)
      {
        if stored.units[i].status == COMPLETED {
          continue;
        }
        if call.abortedBefore(i) || completedThisCall >= call.limit {
          ending := Pause(call, saves);
          return ending, saves;
        }
        if stored.units[i].attempts >= plan.max && stored.units[i].status == FAILED {
          continue;
        }
        var crashed;
        crashed, saves, completedThisCall := RunUnit(call, i, saves, completedThisCall);
        if crashed {
          return Crashed, saves;
        }
      }
      ending := Terminal;
    }

    /** The repository's append: another result under the same run is refused. */
    method AppendResult(result: Result<R>) returns (ok: bool)
      modifies this`appended
      ensures ok <==> old(appended).NoOutput? || old(appended).value == result
      ensures appended == if ok then Bundle(result) else old(appended)
    {
      if appended.Bundle? && appended.value != result {
        return false;
      }
      appended := Bundle(result);
      ok := true;
    }

    /** After the pass: the run is paused if a unit can be retried; otherwise its result is appended, and then saved. */
    method EndRun(call: Call, saves: nat) returns (ending: Ending)
      modifies this`stored, this`appended
      ensures (Records(), ending) == Conclude(plan.max, plan.assemble, call, old(Records()), saves)
    {
      if Retryable(stored.units, plan.max) {
        ending := Pause(call, saves);
        return;
      }
      if CrashesAt(call, saves) {
        return Crashed;
      }
      var result := Result(plan.assemble(stored.units), call.stamp);
      var ok := AppendResult(result);
      if !ok {
        return Refused;
      }
      if CrashesAt(call, saves + 1) {
        return CrashedAfterAppend;
      }
      stored := Concluded(stored, result);
      ending := Terminal;
    }

    method Execute(call: Call) returns (ending: Ending)
      requires Valid()
      modifies this
      ensures Valid() && (Records(), ending) == Called(plan, old(Records()), call)
      ensures IsTerminal(old(stored.status)) ==> Records() == old(Records()) && interrupted == old(interrupted) && ending == Terminal
      ensures !IsTerminal(old(stored.status)) ==>
                CallDoes(plan.producer, plan.max, plan.assemble, call, old(Records()), Records(), ending, interrupted)
      ensures (old(interrupted) ==> interrupted) && (NeverAborts(plan.producer) && NeverInterrupts(call) ==> interrupted == old(interrupted))
    {
      if IsTerminal(stored.status) {
        return Terminal;
      }
      ghost var (next, end) := Called(plan, Records(), call);
      ghost var now := CallKeeps(plan.producer, plan.max, plan.assemble, Records(), call, interrupted, next, end);
      interrupted := now;
      var saves;
      ending, saves := RunUnits(call);
      if ending != Terminal {
        return;
      }
      ending := EndRun(call, saves);
    }
  }

  /** The calls of a schedule, made one after the other: the repository comes to be what `RunEnds` speaks of. */
  method RunSchedule<O(!new, ==), R(==)>(plan: Plan<O, R>, calls: seq<Call>) returns (run: AnalysisRun<O, R>)
    requires NothingAborts(plan, calls)
    ensures fresh(run) && run.Records() == AfterCalls(plan, calls)
    ensures CountUndisturbed(calls) > plan.planned * plan.max ==>
              (IsTerminal(run.stored.status) <==> NeverLosesSave(plan, calls) || IsSavedLater(plan, calls))
    ensures IsTerminal(run.stored.status) ==>
              && run.stored.units == FinalUnits(plan.producer, plan.planned, plan.max)
              && run.stored.result == run.appended && run.appended.Bundle?
              && run.appended.value.content == plan.assemble(FinalUnits(plan.producer, plan.planned, plan.max))
              && run.stored.completed + run.stored.failed == plan.planned
  {
    run := new AnalysisRun(plan);
    for k := 0 to |calls|
      invariant fresh(run) && run.Valid() && run.plan == plan
      invariant run.Records() == AfterCalls(plan, calls[..k])
    {
      assert calls[..k + 1][..k] == calls[..k];
      var _ := run.Execute(calls[k]);
    }
    assert calls[..|calls|] == calls;
    if CountUndisturbed(calls) > plan.planned * plan.max {
      RunEnds(plan, calls);
    }
    if IsTerminal(run.stored.status) {
      EndedRunIsFinal(plan, calls);
    }
  }

  /** When every attempt aborts, one unlimited call still ends the run, with all of its planned units left queued. */
  method AbortedRunStillEnds<O(!new, ==), R(==)>(plan: Plan<O, R>, call: Call) returns (run: AnalysisRun<O, R>)
    requires plan.max >= 1 && Unlimited(call, plan.planned) && forall u, a :: plan.producer(u, a) == Aborted
    ensures run.stored.status == RUN_COMPLETED
    ensures run.stored.completed + run.stored.failed == 0 && CountStatus(run.stored.units, QUEUED) == plan.planned
  {
    run := new AnalysisRun(plan);
    var _ := run.Execute(call);
    NoneCounted(run.stored.units, COMPLETED);
    NoneCounted(run.stored.units, FAILED);
  }
}
