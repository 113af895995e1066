/**
 What becomes of a pause of a workspace analysis job, depending on the section of the run in which it lands.
 */
module JobPauses {
  import opened AnalysisJobs
  import opened SingleRunner
  import opened Wrappers

  // ---------------------------------------------------------------- status and desired state agree

  ghost predicate IsRunning(job: Job) {
    job.status == RUNNING && job.desired == TO_RUN
  }

  ghost predicate Agrees(job: Job) {
    (job.status == RUNNING ==> job.desired == TO_RUN) && (job.status == PAUSED ==> job.desired == TO_PAUSE)
  }

  /** What a run is about to save is a running job with one more phase, a pause, or a completion. */
  ghost predicate RunnerAgrees(length: nat, p: Process) {
    match p.pc
    case BeforePhase(_) => Agrees(p.state)
    case Handling(_) => IsRunning(p.state)
    case Listing(job, NextPhase(_)) => IsRunning(job)
    case Appending(job, requested, NextPhase(_)) => IsRunning(job) && requested <= length + 1
    case Listing(job, Return) => (job.status == PAUSED || job.status == COMPLETED) && Agrees(job)
    case Appending(job, requested, Return) =>
      (job.status == PAUSED || job.status == COMPLETED) && Agrees(job) && requested <= length + 1
    case _ => true
  }

  ghost predicate LogAgrees(log: seq<Checkpoint>) {
    forall k :: 0 <= k < |log| ==> Agrees(log[k].state)
  }

  ghost predicate SoloAgrees(s: Solo) {
    SoloInStep(s) && LogAgrees(s.log) && (Ended(s.log) || RunnerAgrees(|s.log|, s.runner))
  }

  lemma EnterAgrees(log: seq<Checkpoint>, local: Job, i: nat, aborted: bool)
    requires WorkInOrder(log) && !Ended(log) && LogAgrees(log) && Agrees(local) && i < PHASES
    ensures RunnerAgrees(|log|, EnterPhase(log, local, i, aborted))
  {
    OrderedGet(log);
  }

  lemma LeaveAgrees(log: seq<Checkpoint>, local: Job, i: nat, output: Output)
    requires WorkInOrder(log) && !Ended(log) && LogAgrees(log) && IsRunning(local) && i < PHASES
    ensures RunnerAgrees(|log|, LeavePhase(log, local, i, output))
  {
    OrderedGet(log);
    assert Agrees(log[|log| - 1].state);
  }

  lemma AppendAgrees(log: seq<Checkpoint>, p: Process)
    requires WorkInOrder(log) && !Ended(log) && LogAgrees(log) && p.pc.Appending? && RunnerAgrees(|log|, p)
    ensures var (appended, answer) := Append(log, p.pc.job, p.pc.requested);
      LogAgrees(appended) && (Ended(appended) || RunnerAgrees(|appended|, AfterSave(p.state, answer, p.pc.next)))
  {
    AppendKeepsOrder(log, p.pc.job, p.pc.requested);
    assert Agrees(log[|log| - 1].state);
  }

  lemma RunnerMoveAgrees(s: Solo, env: Env)
    requires SoloAgrees(s)
    ensures SoloAgrees(Moved(s, RunnerActs(env)))
  {
    var p := s.runner;
    RunnerMoveKeepsStep(s, env);
    OrderedGet(s.log);
    if Ended(s.log) {
      if p.pc.Appending? {
        AppendKeepsOrder(s.log, p.pc.job, p.pc.requested);
      }
    } else if p.pc.BeforePhase? {
      if p.pc.i < PHASES {
        EnterAgrees(s.log, p.state, p.pc.i, env.aborted);
      }
    } else if p.pc.Handling? {
      if env.outcome.Done? {
        LeaveAgrees(s.log, p.state, p.pc.i, env.outcome.output);
      }
    } else if p.pc.Appending? {
      AppendAgrees(s.log, p);
    }
  }

  lemma OneMoreAgrees(log: seq<Checkpoint>, next: seq<Checkpoint>, p: Process)
    requires LogAgrees(log) && RunnerAgrees(|log|, p)
    requires next == log || (|next| == |log| + 1 && log <= next && Agrees(next[|log|].state))
    ensures LogAgrees(next) && RunnerAgrees(|next|, p)
  {
    assert forall k :: 0 <= k < |log| ==> next[k] == log[k];
  }

  lemma CallAgrees(s: Solo, call: Call)
    requires SoloAgrees(s) && call in {Pause(Latest(s.log)), Resume(Latest(s.log)), Cancel(Latest(s.log))}
    ensures LogAgrees(CallLatest(s.log, call))
    ensures Ended(CallLatest(s.log, call)) || RunnerAgrees(|CallLatest(s.log, call)|, s.runner)
  {
    CallLatestAppends(s.log, call);
    assert Agrees(s.log[|s.log| - 1].state);
    if !Ended(s.log) {
      OneMoreAgrees(s.log, CallLatest(s.log, call), s.runner);
    }
  }

  lemma FailAgrees(s: Solo, error: Error)
    requires SoloAgrees(s)
    ensures SoloAgrees(Moved(s, FailLatestAfterThrow(error)))
  {
    FailKeepsStep(s, error);
    OrderedGet(s.log);
    if !Ended(s.log) {
      FailureAppends(s.log, error);
    }
  }

  lemma ControlMoveAgrees(s: Solo, m: Move)
    requires SoloAgrees(s) && InStep(s.runner, m) && !m.RunnerActs?
    ensures SoloAgrees(Moved(s, m))
  {
    MoveKeepsStep(s, m);
    var latest := Latest(s.log);
    match m
    case StartRun =>
      OrderedGet(s.log);
      assert Agrees(s.log[|s.log| - 1].state);
    case PauseLatest => CallAgrees(s, Pause(latest));
    case ResumeLatest => CallAgrees(s, Resume(latest));
    case CancelLatest => CallAgrees(s, Cancel(latest));
    case FailLatestAfterThrow(error) => FailAgrees(s, error);
  }

  /** In every run in step, what is saved and about to be saved is running, paused or ended in every respect. */
  lemma {:induction false} RunsAgree(moves: seq<Move>)
    requires AllInStep(Initial(), moves)
    ensures SoloAgrees(AfterMoves(Initial(), moves))
  {
    if moves == [] {
      WorkStaysInOrder(moves);
    } else {
      var before, last := AfterMoves(Initial(), moves[..|moves| - 1]), moves[|moves| - 1];
      RunsAgree(moves[..|moves| - 1]);
      if last.RunnerActs? {
        RunnerMoveAgrees(before, last.env);
      } else {
        ControlMoveAgrees(before, last);
      }
    }
  }

  // ---------------------------------------------------------------- where a pause is kept

  /**
   The sections in which a pause is kept: not between the second read of a phase, or the end of the last phase, and the
   listing of the log for the save of what was read; nor before that end, once all phases are done.
   */
  ghost predicate KeepsPause(latest: Job, p: Process) {
    match p.pc
    case Listing(job, NextPhase(_)) => false
    case Listing(job, Return) => job.status == PAUSED
    case BeforePhase(_) => |latest.completed| < PHASES
    case _ => true
  }

  /** Undisturbed from `s` on, the run returns or ends the job, with the job paused in the end if and only if `kept`. */
  ghost predicate EndsPaused(s: Solo, moves: seq<Move>, kept: bool) {
    var end := AfterMoves(s, moves);
    && Undisturbed(moves) && (IsOver(end.runner.pc) || Ended(end.log))
    && end.log != [] && (kept <==> end.log[|end.log| - 1].state.status == PAUSED)
  }

  lemma FirstThen(s: Solo, m: Move, next: Solo, rest: seq<Move>, kept: bool) returns (moves: seq<Move>)
    requires Undisturbed([m]) && Moved(s, m) == next && EndsPaused(next, rest, kept)
    ensures EndsPaused(s, moves, kept)
  {
    moves := [m] + rest;
    MovesCompose(s, m, rest);
    assert forall k :: 0 <= k < |moves| ==> moves[k] == if k == 0 then m else rest[k - 1];
  }

  lemma NothingMore(s: Solo, kept: bool)
    requires IsOver(s.runner.pc) || Ended(s.log)
    requires s.log != [] && (kept <==> s.log[|s.log| - 1].state.status == PAUSED)
    ensures EndsPaused(s, [], kept)
  {
  }

  /** The listing and the append of a save after which the run returns. */
  lemma LastSave(log: seq<Checkpoint>, local: Job, job: Job, output: Output) returns (moves: seq<Move>)
    requires Ordered(log) && !Ended(log)
    ensures EndsPaused(Solo(log, Process(local, Listing(job, Return))), moves, job.status == PAUSED)
  {
    var env := Env(false, Done(output));
    var act := RunnerActs(env);
    ListThenAppend(log, local, job, Return, env);
    var s1 := Solo(log, Process(local, Appending(job, |log| + 1, Return)));
    var s2 := Solo(log + [Checkpoint(|log| + 1, job)], Process(local, Returned(Some(job))));
    NothingMore(s2, job.status == PAUSED);
    moves := FirstThen(s1, act, s2, [], job.status == PAUSED);
    moves := FirstThen(Solo(log, Process(local, Listing(job, Return))), act, s1, moves, job.status == PAUSED);
  }

  /** The log stands at a pause of which the run does not know yet, or has just read. */
  ghost predicate StandsPaused(log: seq<Checkpoint>, paused: Job, local: Job) {
    && WorkInOrder(log) && !Ended(log) && log[|log| - 1].state == paused && OrderedWork(paused)
    && paused.status == PAUSED && paused.desired == TO_PAUSE
    && (local == paused || local.version < paused.version)
  }

  /** At the start of a phase a pause is read, and kept unless nothing is left to do. */
  lemma {:induction false} PauseBeforePhase(log: seq<Checkpoint>, paused: Job, local: Job, i: nat, output: Output)
    returns (moves: seq<Move>)
    requires StandsPaused(log, paused, local) && i <= PHASES
    requires i == PHASES ==> |paused.completed| == PHASES
    ensures EndsPaused(Solo(log, Process(local, BeforePhase(i))), moves, |paused.completed| < PHASES)
    decreases PHASES - i
  {
    var act := RunnerActs(Env(false, Done(output)));
    var s := Solo(log, Process(local, BeforePhase(i)));
    OrderedGet(log);
    if i == PHASES {
      var next := Process(local, Listing(CompletedJob(local), Return));
      assert Moved(s, act) == Solo(log, next);
      moves := LastSave(log, local, CompletedJob(local), output);
      moves := FirstThen(s, act, Solo(log, next), moves, false);
    } else {
      PhaseIsDone(paused, i);
      if i < |paused.completed| {
        assert Moved(s, act) == Solo(log, Process(paused, BeforePhase(i + 1)));
        moves := PauseBeforePhase(log, paused, paused, i + 1, output);
        moves := FirstThen(s, act, Solo(log, Process(paused, BeforePhase(i + 1))), moves, |paused.completed| < PHASES);
      } else {
        var next := Process(paused, Listing(PausedJob(paused), Return));
        assert Moved(s, act) == Solo(log, next);
        moves := LastSave(log, paused, PausedJob(paused), output);
        moves := FirstThen(s, act, Solo(log, next), moves, true);
      }
    }
  }

  lemma PauseDuringHandler(log: seq<Checkpoint>, paused: Job, local: Job, i: nat, output: Output) returns (moves: seq<Move>)
    requires StandsPaused(log, paused, local) && local.version < paused.version && i < PHASES
    ensures EndsPaused(Solo(log, Process(local, Handling(i))), moves, true)
  {
    var act := RunnerActs(Env(false, Done(output)));
    var s := Solo(log, Process(local, Handling(i)));
    OrderedGet(log);
    var again := paused.(status := PAUSED, version := paused.version + 1);
    assert Moved(s, act) == Solo(log, Process(local, Listing(again, Return)));
    moves := LastSave(log, local, again, output);
    moves := FirstThen(s, act, Solo(log, Process(local, Listing(again, Return))), moves, true);
  }

  /** A save that had listed the log before the pause is refused: the pause is what the run goes on with. */
  lemma PauseBeforeAppend(log: seq<Checkpoint>, paused: Job, p: Process, output: Output) returns (moves: seq<Move>)
    requires StandsPaused(log, paused, paused) && p.pc.Appending? && p.pc.requested <= |log| && p.pc.job.status != CANCELLED
    requires p.pc.next.NextPhase? ==> p.pc.next.i < PHASES && |paused.completed| < p.pc.next.i
    ensures EndsPaused(Solo(log, p), moves, true)
  {
    var act := RunnerActs(Env(false, Done(output)));
    AppendKeepsOrder(log, p.pc.job, p.pc.requested);
    var next := AfterSave(p.state, Some(paused), p.pc.next);
    assert Moved(Solo(log, p), act) == Solo(log, next);
    if p.pc.next.Return? {
      NothingMore(Solo(log, next), true);
      moves := FirstThen(Solo(log, p), act, Solo(log, next), [], true);
    } else {
      moves := PauseBeforePhase(log, paused, paused, p.pc.next.i, output);
      moves := FirstThen(Solo(log, p), act, Solo(log, next), moves, true);
    }
  }

  /** A pause between the second read and the listing is overwritten: the run saves its phase, and goes on to the end. */
  lemma PauseBeforeListing(log: seq<Checkpoint>, paused: Job, p: Process, output: Output) returns (moves: seq<Move>)
    requires StandsPaused(log, paused, paused) && p.pc.Listing? && p.pc.next.NextPhase? && p.pc.next.i >= 1
    requires Advances(paused, p.pc.job, p.pc.next.i - 1) && IsRunning(p.pc.job)
    ensures var act, next := RunnerActs(Env(false, Done(output))), log + [Checkpoint(|log| + 1, p.pc.job)];
      Moved(Moved(Solo(log, p), act), act) == Solo(next, Process(p.pc.job, BeforePhase(p.pc.next.i)))
    ensures EndsPaused(Solo(log, p), moves, false)
  {
    var env := Env(false, Done(output));
    var act, job, i := RunnerActs(env), p.pc.job, p.pc.next.i;
    ListThenAppend(log, p.state, job, NextPhase(i), env);
    var next := log + [Checkpoint(|log| + 1, job)];
    ExtendedInOrder(log, job);
    var s1 := Solo(log, Process(p.state, Appending(job, |log| + 1, NextPhase(i))));
    var s2 := Solo(next, Process(job, BeforePhase(i)));
    assert ReadyToRun(next, job, i);
    var rest, end := UndisturbedRunCompletes(next, job, i, _ => output);
    assert EndsPaused(s2, rest, false);
    moves := FirstThen(s1, act, s2, rest, false);
    moves := FirstThen(Solo(log, p), act, s1, moves, false);
  }

  /**
   A pause that is in step and not refused is kept exactly in the sections that `KeepsPause` names: the run, going on
   undisturbed, leaves the job paused then, and otherwise completes it.
   */
  lemma PauseIsKeptExactly(s: Solo, output: Output) returns (moves: seq<Move>)
    requires SoloAgrees(s) && !Ended(s.log) && InStep(s.runner, PauseLatest)
    requires s.log[|s.log| - 1].state.status == RUNNING
    ensures EndsPaused(Moved(s, PauseLatest), moves, KeepsPause(s.log[|s.log| - 1].state, s.runner))
  {
    var latest, p := s.log[|s.log| - 1].state, s.runner;
    var log := ControlCallAppends(s, PauseLatest);
    var paused := PausedJob(latest);
    assert OrderedWork(latest);
    assert StandsPaused(log, paused, paused);
    match p.pc
    case BeforePhase(i) =>
      moves := PauseBeforePhase(log, paused, p.state, i, output);
    case Handling(i) =>
      moves := PauseDuringHandler(log, paused, p.state, i, output);
    case Appending(job, requested, next) =>
      moves := PauseBeforeAppend(log, paused, p, output);
    case Listing(job, next) =>
      if next.Return? {
        moves := LastSave(log, p.state, job, output);
      } else {
        moves := PauseBeforeListing(log, paused, p, output);
      }
    case _ =>
      moves := [];
      NothingMore(Solo(log, p), true);
  }
}
