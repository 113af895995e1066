/**
 A workspace analysis job that is run by one run at a time, its pauses, resumptions, cancellations and failures each
 acting on the latest checkpoint in one step. The run itself still moves from await to await: the other calls may land
 between its read, its handler, its second read, its listing of the log and its append.
 */
module SingleRunner {
  import opened AnalysisJobs
  import opened Wrappers

  datatype Solo = Solo(log: seq<Checkpoint>, runner: Process)

  datatype Move = StartRun | RunnerActs(env: Env) | PauseLatest | ResumeLatest | CancelLatest | FailLatestAfterThrow(error: Error)

  function Initial(): Solo {
    Solo([Checkpoint(1, InitialJob())], Process(InitialJob(), Returned(None)))
  }

  predicate IsOver(pc: Pc) {
    pc.Returned? || pc.Threw?
  }

  function Latest(log: seq<Checkpoint>): Job {
    match Get(log)
    case Some(job) => job
    case None => InitialJob()
  }

  /** A call that reads the latest checkpoint and saves its change with nothing in between; `Threw` if it refuses. */
  function CallLatest(log: seq<Checkpoint>, call: Call): seq<Checkpoint> {
    match Begin(call).pc
    case Listing(job, next) => Append(log, job, MaxSequence(log) + 1).0
    case _ => log
  }

  function Moved(s: Solo, m: Move): Solo {
    match m
    case StartRun => if IsOver(s.runner.pc) then s.(runner := Begin(Run(Latest(s.log)))) else s
    case RunnerActs(env) => var (log, runner) := Act(s.log, s.runner, env); Solo(log, runner)
    case PauseLatest => s.(log := CallLatest(s.log, Pause(Latest(s.log))))
    case ResumeLatest => s.(log := CallLatest(s.log, Resume(Latest(s.log))))
    case CancelLatest => s.(log := CallLatest(s.log, Cancel(Latest(s.log))))
    case FailLatestAfterThrow(error) =>
      if s.runner.pc != Threw then s
      else
        match AnalysisJobs.FailLatest(s.log, Latest(s.log), error).pc
        case Listing(job, _) => Solo(Append(s.log, job, MaxSequence(s.log) + 1).0, s.runner.(pc := Returned(None)))
        case _ => s.(runner := s.runner.(pc := Returned(None)))
  }

  // ---------------------------------------------------------------- what a job's work has to look like

  /** The phases done are the first ones of the order, the outputs are theirs, and `phase` is the one after them. */
  ghost predicate OrderedWork(job: Job) {
    && |job.completed| <= PHASES
    && (forall k :: 0 <= k < |job.completed| ==> job.completed[k] == PhaseAt(k))
    && (forall p :: p in job.outputs <==> p in job.completed)
    && job.phase == PhaseAt(|job.completed|)
    && (job.status == COMPLETED ==> |job.completed| == PHASES)
  }

  predicate SameWork(a: Job, b: Job) {
    a.completed == b.completed && a.outputs == b.outputs && a.phase == b.phase
  }

  /** The later job has all the phases of the earlier one, with the same outputs. */
  ghost predicate KeepsWork(earlier: Job, later: Job) {
    earlier.completed <= later.completed && forall p :: p in earlier.outputs ==> p in later.outputs && later.outputs[p] == earlier.outputs[p]
  }

  ghost predicate WorkInOrder(log: seq<Checkpoint>) {
    && log != [] && Ordered(log)
    && (forall k :: 0 <= k < |log| ==> OrderedWork(log[k].state))
    && forall k :: 0 < k < |log| ==> KeepsWork(log[k - 1].state, log[k].state)
  }

  // ---------------------------------------------------------------- what keeps a run in step with the log

  /** The run is between listing the log and appending a phase to it. */
  predicate IsSavingPhase(pc: Pc) {
    pc.Appending? && pc.next.NextPhase?
  }

  /** The run has lost the save of a phase without noticing: it goes on to a phase past the next one to do. */
  predicate IsAhead(p: Process) {
    p.pc.BeforePhase? && |p.state.completed| < p.pc.i
  }

  /**
   * The moves that keep a run in step with its log: no pause while it appends the last phase, no resumption while it
   * appends a phase or is ahead of its log.
   */
  predicate InStep(p: Process, m: Move) {
    && (m == PauseLatest ==> !(IsSavingPhase(p.pc) && p.pc.next.i >= PHASES))
    && (m == ResumeLatest ==> !IsSavingPhase(p.pc) && !IsAhead(p))
  }

  /** `job` is `latest` with phase `i` recorded, and still running. */
  ghost predicate Advances(latest: Job, job: Job, i: nat) {
    && i < PHASES && |latest.completed| == i && job.completed == latest.completed + [PhaseAt(i)]
    && KeepsWork(latest, job) && OrderedWork(job) && !IsTerminal(job.status)
  }

  predicate IsPaused(job: Job) {
    job.status == PAUSED && job.desired == TO_PAUSE
  }

  ghost predicate RunnerInStep(latest: Job, length: nat, p: Process) {
    match p.pc
    case BeforePhase(i) =>
      && i <= PHASES && !IsTerminal(p.state.status)
      && SameWork(p.state, latest) && p.state.version <= latest.version
      && (i <= |latest.completed| || (i < PHASES && i == |latest.completed| + 1 && p.state == latest && IsPaused(latest)))
    case Handling(i) =>
      && SameWork(p.state, latest) && p.state.version <= latest.version
      && !IsTerminal(p.state.status) && i == |latest.completed| && i < PHASES
    case Listing(job, NextPhase(i)) => i >= 1 && Advances(latest, job, i - 1)
    case Appending(job, requested, NextPhase(i)) =>
      && i >= 1 && requested <= length + 1
      && if requested == length + 1 then Advances(latest, job, i - 1)
         else i < PHASES && !IsTerminal(job.status) && |latest.completed| == i - 1 && IsPaused(latest)
    case Listing(job, Return) => SameWork(job, latest) && OrderedWork(job)
    case Appending(job, _, Return) => SameWork(job, latest) && OrderedWork(job)
    case FailReading(_) => false
    case _ => true
  }

  ghost predicate SoloInStep(s: Solo) {
    WorkInOrder(s.log) && (Ended(s.log) || RunnerInStep(s.log[|s.log| - 1].state, |s.log|, s.runner))
  }

  // ---------------------------------------------------------------- every move keeps a run in step

  lemma AdvanceIsOrdered(latest: Job, state: Job, i: nat, output: Output)
    requires OrderedWork(latest) && SameWork(state, latest) && i == |latest.completed| < PHASES
    requires !IsTerminal(state.status)
    ensures Advances(latest, AdvancedJob(state, i, output), i)
  {
    var job := AdvancedJob(state, i, output);
    assert PhaseAt(i) !in latest.completed;
    forall p
      ensures p in job.outputs <==> p in job.completed
    {
      assert p in job.completed <==> p in latest.completed || p == PhaseAt(i);
    }
  }

  lemma ExtendedInOrder(log: seq<Checkpoint>, job: Job)
    requires WorkInOrder(log) && !Ended(log) && OrderedWork(job) && KeepsWork(log[|log| - 1].state, job)
    ensures WorkInOrder(log + [Checkpoint(|log| + 1, job)])
  {
  }

  lemma EnterKeepsStep(log: seq<Checkpoint>, p: Process, aborted: bool)
    requires WorkInOrder(log) && !Ended(log) && p.pc.BeforePhase?
    requires RunnerInStep(log[|log| - 1].state, |log|, p)
    ensures RunnerInStep(log[|log| - 1].state, |log|,
                         if p.pc.i < PHASES then EnterPhase(log, p.state, p.pc.i, aborted) else Conclude(log, p.state))
  {
    var latest := log[|log| - 1].state;
    OrderedGet(log);
    assert OrderedWork(latest);
    if p.pc.i < PHASES {
      PhaseIsDone(latest, p.pc.i);
    }
  }

  /** A phase is among the completed ones exactly if it comes before the next one to do. */
  lemma PhaseIsDone(job: Job, i: nat)
    requires OrderedWork(job) && i < PHASES
    ensures PhaseAt(i) in job.completed <==> i < |job.completed|
  {
    if i < |job.completed| {
      assert job.completed[i] == PhaseAt(i);
    }
  }

  lemma LeaveKeepsStep(log: seq<Checkpoint>, p: Process, output: Output)
    requires WorkInOrder(log) && !Ended(log) && p.pc.Handling?
    requires RunnerInStep(log[|log| - 1].state, |log|, p)
    ensures RunnerInStep(log[|log| - 1].state, |log|, LeavePhase(log, p.state, p.pc.i, output))
  {
    var latest := log[|log| - 1].state;
    OrderedGet(log);
    assert OrderedWork(latest);
    AdvanceIsOrdered(latest, p.state, p.pc.i, output);
    AdvanceIsOrdered(latest, latest, p.pc.i, output);
  }

  lemma AppendKeepsStep(log: seq<Checkpoint>, p: Process)
    requires WorkInOrder(log) && !Ended(log) && p.pc.Appending?
    requires RunnerInStep(log[|log| - 1].state, |log|, p)
    ensures var (appended, answer) := Append(log, p.pc.job, p.pc.requested);
      SoloInStep(Solo(appended, AfterSave(p.state, answer, p.pc.next)))
  {
    var latest := log[|log| - 1].state;
    AppendKeepsOrder(log, p.pc.job, p.pc.requested);
    assert OrderedWork(latest);
    if p.pc.requested == |log| + 1 || p.pc.job.status == CANCELLED {
      ExtendedInOrder(log, p.pc.job);
    }
  }

  lemma RunnerMoveKeepsStep(s: Solo, env: Env)
    requires SoloInStep(s)
    ensures SoloInStep(Moved(s, RunnerActs(env)))
  {
    var p := s.runner;
    OrderedGet(s.log);
    if Ended(s.log) {
      if p.pc.Appending? {
        AppendKeepsOrder(s.log, p.pc.job, p.pc.requested);
      }
    } else if p.pc.BeforePhase? {
      EnterKeepsStep(s.log, p, env.aborted);
    } else if p.pc.Handling? {
      if env.outcome.Done? {
        LeaveKeepsStep(s.log, p, env.outcome.output);
      }
    } else if p.pc.Appending? {
      AppendKeepsStep(s.log, p);
    }
  }

  lemma CallLatestAppends(log: seq<Checkpoint>, call: Call)
    requires WorkInOrder(log) && call in {Pause(Latest(log)), Resume(Latest(log)), Cancel(Latest(log))}
    ensures Latest(log) == log[|log| - 1].state
    ensures var process := Begin(call);
      && (Ended(log) || process.pc.Threw? ==> CallLatest(log, call) == log)
      && (!Ended(log) && !process.pc.Threw? ==> CallLatest(log, call) == log + [Checkpoint(|log| + 1, process.pc.job)])
      && WorkInOrder(CallLatest(log, call))
  {
    OrderedGet(log);
    var process := Begin(call);
    if process.pc.Listing? {
      AppendKeepsOrder(log, process.pc.job, |log| + 1);
      if !Ended(log) {
        assert OrderedWork(log[|log| - 1].state);
        ExtendedInOrder(log, process.pc.job);
      }
    }
  }

  lemma ControlCallAppends(s: Solo, m: Move) returns (log: seq<Checkpoint>)
    requires WorkInOrder(s.log) && !Ended(s.log) && (m == PauseLatest || m == ResumeLatest)
    requires s.log[|s.log| - 1].state.status == (if m == PauseLatest then RUNNING else PAUSED)
    ensures Moved(s, m) == Solo(log, s.runner) && WorkInOrder(log) && !Ended(log) && |log| == |s.log| + 1
    ensures var latest := s.log[|s.log| - 1].state;
      log[|log| - 1].state == if m == PauseLatest then PausedJob(latest) else ResumedJob(latest)
  {
    var latest := s.log[|s.log| - 1].state;
    OrderedGet(s.log);
    CallLatestAppends(s.log, if m == PauseLatest then Pause(latest) else Resume(latest));
    log := Moved(s, m).log;
  }

  /**
   A call in one step is the call's sections with nothing in between, next to the run. These are calls of the runner: the
   runtime's own pause also aborts the signal of the run, and its resumption starts another one.
   */
  lemma CallLatestIsItsSections(s: Solo, call: Call, env: Env)
    requires Ordered(s.log) && !Ended(s.log) && Begin(call).pc.Listing?
    ensures var end := After(System(s.log, [s.runner]), [Begins(call), Acts(1, env), Acts(1, env)]);
      end.log == CallLatest(s.log, call) && |end.processes| == 2 && end.processes[0] == s.runner
  {
    var process := Begin(call);
    OrderedGet(s.log);
    AppendKeepsOrder(s.log, process.pc.job, |s.log| + 1);
    AfterThree(System(s.log, [s.runner]), Begins(call), Acts(1, env), Acts(1, env));
    SavesAlone(System(s.log, [s.runner] + [process]), 1, env);
  }

  lemma PausedStaysInStep(latest: Job, length: nat, p: Process)
    requires RunnerInStep(latest, length, p) && InStep(p, PauseLatest) && latest.status == RUNNING
    ensures RunnerInStep(PausedJob(latest), length + 1, p)
  {
  }

  lemma ResumedStaysInStep(latest: Job, length: nat, p: Process)
    requires RunnerInStep(latest, length, p) && InStep(p, ResumeLatest) && latest.status == PAUSED
    ensures RunnerInStep(ResumedJob(latest), length + 1, p)
  {
  }

  lemma PauseKeepsStep(s: Solo)
    requires SoloInStep(s) && InStep(s.runner, PauseLatest)
    ensures SoloInStep(Moved(s, PauseLatest))
  {
    var latest := s.log[|s.log| - 1].state;
    if !Ended(s.log) && latest.status == RUNNING {
      var log := ControlCallAppends(s, PauseLatest);
      PausedStaysInStep(latest, |s.log|, s.runner);
    } else {
      CallLatestAppends(s.log, Pause(Latest(s.log)));
    }
  }

  lemma ResumeKeepsStep(s: Solo)
    requires SoloInStep(s) && InStep(s.runner, ResumeLatest)
    ensures SoloInStep(Moved(s, ResumeLatest))
  {
    var latest := s.log[|s.log| - 1].state;
    if !Ended(s.log) && latest.status == PAUSED {
      var log := ControlCallAppends(s, ResumeLatest);
      ResumedStaysInStep(latest, |s.log|, s.runner);
    } else {
      CallLatestAppends(s.log, Resume(Latest(s.log)));
    }
  }

  lemma CancelKeepsStep(s: Solo)
    requires SoloInStep(s)
    ensures SoloInStep(Moved(s, CancelLatest))
  {
    CallLatestAppends(s.log, Cancel(Latest(s.log)));
  }

  lemma StartKeepsStep(s: Solo)
    requires SoloInStep(s)
    ensures SoloInStep(Moved(s, StartRun))
  {
    OrderedGet(s.log);
  }

  lemma FailureAppends(log: seq<Checkpoint>, error: Error)
    requires WorkInOrder(log) && !Ended(log)
    ensures var failed := FailedJob(log[|log| - 1].state, error);
      var appended := Append(log, failed, |log| + 1).0;
      && appended == log + [Checkpoint(|log| + 1, failed)] && WorkInOrder(appended) && Ended(appended)
  {
    var failed := FailedJob(log[|log| - 1].state, error);
    AppendKeepsOrder(log, failed, |log| + 1);
    assert OrderedWork(log[|log| - 1].state);
    ExtendedInOrder(log, failed);
  }

  lemma FailKeepsStep(s: Solo, error: Error)
    requires SoloInStep(s)
    ensures SoloInStep(Moved(s, FailLatestAfterThrow(error)))
  {
    OrderedGet(s.log);
    if !Ended(s.log) {
      FailureAppends(s.log, error);
    }
  }

  lemma MoveKeepsStep(s: Solo, m: Move)
    requires SoloInStep(s) && InStep(s.runner, m)
    ensures SoloInStep(Moved(s, m))
  {
    match m
    case StartRun => StartKeepsStep(s);
    case RunnerActs(env) => RunnerMoveKeepsStep(s, env);
    case PauseLatest => PauseKeepsStep(s);
    case ResumeLatest => ResumeKeepsStep(s);
    case CancelLatest => CancelKeepsStep(s);
    case FailLatestAfterThrow(error) => FailKeepsStep(s, error);
  }

  // ---------------------------------------------------------------- over whole runs

  function AfterMoves(s: Solo, moves: seq<Move>): Solo {
    if moves == [] then s else Moved(AfterMoves(s, moves[..|moves| - 1]), moves[|moves| - 1])
  }

  predicate AllInStep(s: Solo, moves: seq<Move>) {
    moves == []
    || (AllInStep(s, moves[..|moves| - 1]) && InStep(AfterMoves(s, moves[..|moves| - 1]).runner, moves[|moves| - 1]))
  }

  /**
   * As long as every move is in step, every checkpoint ever saved has done the first phases of the order with exactly
   * their outputs, no later checkpoint has less work than an earlier one, and a completed job has done all phases.
   */
  lemma {:induction false} WorkStaysInOrder(moves: seq<Move>)
    requires AllInStep(Initial(), moves)
    ensures WorkInOrder(AfterMoves(Initial(), moves).log) && SoloInStep(AfterMoves(Initial(), moves))
  {
    if moves != [] {
      WorkStaysInOrder(moves[..|moves| - 1]);
      MoveKeepsStep(AfterMoves(Initial(), moves[..|moves| - 1]), moves[|moves| - 1]);
    }
  }

  // ---------------------------------------------------------------- out of step

  /** What the sections of a run do to a log that has not ended. */
  lemma ListThenAppend(log: seq<Checkpoint>, local: Job, job: Job, next: Then, env: Env)
    requires Ordered(log) && !Ended(log)
    ensures Moved(Solo(log, Process(local, Listing(job, next))), RunnerActs(env))
            == Solo(log, Process(local, Appending(job, |log| + 1, next)))
    ensures Moved(Solo(log, Process(local, Appending(job, |log| + 1, next))), RunnerActs(env))
            == Solo(log + [Checkpoint(|log| + 1, job)], AfterSave(local, Some(job), next))
  {
    OrderedGet(log);
    AppendKeepsOrder(log, job, |log| + 1);
  }

  /** A control call between the listing of the log and the append of a phase: the save is refused, the phase lost. */
  lemma RefusedSave(log: seq<Checkpoint>, p: Process, env: Env)
    requires Ordered(log) && !Ended(log) && log != []
    requires IsSavingPhase(p.pc) && p.pc.requested <= |log| && !IsTerminal(p.pc.job.status)
    ensures var last := log[|log| - 1].state;
      Moved(Solo(log, p), RunnerActs(env)) == Solo(log, Process(last, BeforePhase(p.pc.next.i)))
  {
    AppendKeepsOrder(log, p.pc.job, p.pc.requested);
  }

  lemma {:induction false} MovesConcat(s: Solo, first: seq<Move>, second: seq<Move>)
    ensures AfterMoves(s, first + second) == AfterMoves(AfterMoves(s, first), second)
  {
    if second == [] {
      assert first + second == first;
    } else {
      MovesConcat(s, first, second[..|second| - 1]);
      assert (first + second)[..|first + second| - 1] == first + second[..|second| - 1];
    }
  }

  lemma FirstMove(s: Solo, m: Move)
    ensures AfterMoves(s, [m]) == Moved(s, m)
  {
    assert [m][..0] == [];
  }

  lemma MovesCompose(s: Solo, m: Move, moves: seq<Move>)
    ensures AfterMoves(s, [m] + moves) == AfterMoves(Moved(s, m), moves)
  {
    MovesConcat(s, [m], moves);
    FirstMove(s, m);
  }

  lemma ThreeMoves(s: Solo, m: Move)
    ensures AfterMoves(s, [m, m, m]) == Moved(Moved(Moved(s, m), m), m)
  {
    assert [m, m, m] == [m] + [m, m] && [m, m] == [m] + [m];
    MovesCompose(s, m, [m, m]);
    MovesCompose(Moved(s, m), m, [m]);
    FirstMove(Moved(Moved(s, m), m), m);
  }

  lemma FourMoves(s: Solo, m: Move)
    ensures AfterMoves(s, [m, m, m, m]) == Moved(Moved(Moved(Moved(s, m), m), m), m)
  {
    assert [m, m, m, m] == [m] + [m, m, m];
    MovesCompose(s, m, [m, m, m]);
    ThreeMoves(Moved(s, m), m);
  }

  /** A run that is ahead of a running job handles and records a phase whose predecessor is missing. */
  lemma AheadSkipsAPhase(log: seq<Checkpoint>, local: Job, i: nat, output: Output)
    requires WorkInOrder(log) && !Ended(log) && i < PHASES
    requires var last := log[|log| - 1].state;
      |last.completed| < i && last.desired == TO_RUN && (local == last || last.version > local.version)
    ensures var act := RunnerActs(Env(false, Done(output)));
      !WorkInOrder(AfterMoves(Solo(log, Process(local, BeforePhase(i))), [act, act, act, act]).log)
  {
    var env := Env(false, Done(output));
    var act := RunnerActs(env);
    var last := log[|log| - 1].state;
    OrderedGet(log);
    assert OrderedWork(last);
    PhaseIsDone(last, i);
    var s0 := Solo(log, Process(local, BeforePhase(i)));
    var s1 := Solo(log, Process(last, Handling(i)));
    assert Moved(s0, act) == s1;
    var job := AdvancedJob(last, i, output);
    var s2 := Solo(log, Process(job, Listing(job, NextPhase(i + 1))));
    assert Moved(s1, act) == s2;
    ListThenAppend(log, job, job, NextPhase(i + 1), env);
    FourMoves(s0, act);
    var end := log + [Checkpoint(|log| + 1, job)];
    assert end[|log|].state == job && job.completed[|last.completed|] != PhaseAt(|last.completed|);
    assert !OrderedWork(job);
  }

  /** A run past the last phase completes a job whatever it lacks. */
  lemma AheadCompletes(log: seq<Checkpoint>, local: Job, env: Env)
    requires Ordered(log) && !Ended(log) && log != [] && local == log[|log| - 1].state && |local.completed| < PHASES
    ensures var act := RunnerActs(env);
      var end := AfterMoves(Solo(log, Process(local, BeforePhase(PHASES))), [act, act, act]).log;
      end == log + [Checkpoint(|log| + 1, CompletedJob(local))] && !WorkInOrder(end)
  {
    var act := RunnerActs(env);
    OrderedGet(log);
    var s0 := Solo(log, Process(local, BeforePhase(PHASES)));
    assert Moved(s0, act) == Solo(log, Process(local, Listing(CompletedJob(local), Return)));
    ListThenAppend(log, local, CompletedJob(local), Return, env);
    ThreeMoves(s0, act);
    var end := log + [Checkpoint(|log| + 1, CompletedJob(local))];
    assert end[|log|].state == CompletedJob(local) && !OrderedWork(CompletedJob(local));
  }

  lemma SavingPhaseFacts(latest: Job, length: nat, p: Process)
    requires RunnerInStep(latest, length, p) && IsSavingPhase(p.pc)
    ensures 1 <= p.pc.next.i <= PHASES && |latest.completed| == p.pc.next.i - 1
    ensures p.pc.requested <= length + 1 && !IsTerminal(p.pc.job.status)
    ensures p.pc.next.i == PHASES ==> p.pc.requested == length + 1
  {
  }

  lemma AheadFacts(latest: Job, length: nat, p: Process)
    requires RunnerInStep(latest, length, p) && IsAhead(p)
    ensures p.pc.i < PHASES && |latest.completed| < p.pc.i && p.state == latest
  {
  }

  lemma LostSaveBreaksTheOrder(log: seq<Checkpoint>, p: Process, output: Output) returns (moves: seq<Move>)
    requires WorkInOrder(log) && !Ended(log) && IsSavingPhase(p.pc) && p.pc.requested <= |log|
    requires !IsTerminal(p.pc.job.status) && p.pc.next.i <= PHASES && |log[|log| - 1].state.completed| < p.pc.next.i
    requires p.pc.next.i < PHASES ==> log[|log| - 1].state.desired == TO_RUN
    ensures forall k :: 0 <= k < |moves| ==> moves[k] == RunnerActs(Env(false, Done(output)))
    ensures !WorkInOrder(AfterMoves(Solo(log, p), moves).log)
  {
    var env := Env(false, Done(output));
    var act := RunnerActs(env);
    var last := log[|log| - 1].state;
    RefusedSave(log, p, env);
    if p.pc.next.i == PHASES {
      AheadCompletes(log, last, env);
      moves := [act] + [act, act, act];
      MovesCompose(Solo(log, p), act, [act, act, act]);
    } else {
      AheadSkipsAPhase(log, last, p.pc.next.i, output);
      moves := [act] + [act, act, act, act];
      MovesCompose(Solo(log, p), act, [act, act, act, act]);
    }
  }

  /**
   * No weaker condition will do: after any pause or resumption that is out of step and not refused, the run alone, by
   * going on undisturbed, saves a checkpoint whose work is out of order.
   */
  lemma OutOfStepBreaksTheOrder(s: Solo, m: Move, output: Output) returns (moves: seq<Move>)
    requires SoloInStep(s) && !Ended(s.log) && !InStep(s.runner, m)
    requires s.log[|s.log| - 1].state.status == (if m == PauseLatest then RUNNING else PAUSED)
    ensures forall k :: 0 <= k < |moves| ==> moves[k] == RunnerActs(Env(false, Done(output)))
    ensures !WorkInOrder(AfterMoves(Moved(s, m), moves).log)
  {
    var latest := s.log[|s.log| - 1].state;
    var log := ControlCallAppends(s, m);
    if IsSavingPhase(s.runner.pc) {
      SavingPhaseFacts(latest, |s.log|, s.runner);
      moves := LostSaveBreaksTheOrder(log, s.runner, output);
    } else {
      AheadFacts(latest, |s.log|, s.runner);
      AheadSkipsAPhase(log, s.runner.state, s.runner.pc.i, output);
      var act := RunnerActs(Env(false, Done(output)));
      moves := [act, act, act, act];
    }
  }

  // ---------------------------------------------------------------- in step

  /** A pause that lands while a handler is at work is honoured: the run saves no more than another pause, and returns. */
  lemma PauseDuringHandlerIsHonoured(s: Solo, output: Output)
    requires SoloInStep(s) && !Ended(s.log) && s.runner.pc.Handling? && s.log[|s.log| - 1].state.status == RUNNING
    ensures var act := RunnerActs(Env(true, Done(output)));
      var end := AfterMoves(Moved(s, PauseLatest), [act, act, act]);
      && |end.log| == |s.log| + 2 && s.log <= end.log
      && end.log[|s.log| + 1].state.status == PAUSED && SameWork(end.log[|s.log| + 1].state, s.log[|s.log| - 1].state)
      && end.runner.pc == Returned(Some(end.log[|s.log| + 1].state))
  {
    var env := Env(true, Done(output));
    var act := RunnerActs(env);
    var log := ControlCallAppends(s, PauseLatest);
    var paused := log[|log| - 1].state;
    OrderedGet(log);
    var again := paused.(status := PAUSED, version := paused.version + 1);
    assert Moved(Solo(log, s.runner), act) == Solo(log, Process(s.runner.state, Listing(again, Return)));
    ListThenAppend(log, s.runner.state, again, Return, env);
    ThreeMoves(Solo(log, s.runner), act);
  }

  ghost predicate Undisturbed(moves: seq<Move>) {
    forall k :: 0 <= k < |moves| ==> moves[k].RunnerActs? && !moves[k].env.aborted && moves[k].env.outcome.Done?
  }

  /** Saves phase `i` in four undisturbed sections. */
  lemma PhaseRuns(log: seq<Checkpoint>, local: Job, i: nat, output: Output) returns (next: seq<Checkpoint>)
    requires WorkInOrder(log) && !Ended(log) && local == log[|log| - 1].state && i == |local.completed| < PHASES
    requires local.status == RUNNING && local.desired == TO_RUN
    ensures next == log + [Checkpoint(|log| + 1, AdvancedJob(local, i, output))]
    ensures WorkInOrder(next) && !Ended(next)
    ensures var act := RunnerActs(Env(false, Done(output)));
      AfterMoves(Solo(log, Process(local, BeforePhase(i))), [act, act, act, act])
      == Solo(next, Process(AdvancedJob(local, i, output), BeforePhase(i + 1)))
  {
    assert OrderedWork(local);
    PhaseIsDone(local, i);
    AdvanceIsOrdered(local, local, i, output);
    next := log + [Checkpoint(|log| + 1, AdvancedJob(local, i, output))];
    ExtendedInOrder(log, AdvancedJob(local, i, output));
    PhaseSections(log, local, i, output);
  }

  lemma PhaseSections(log: seq<Checkpoint>, local: Job, i: nat, output: Output)
    requires Ordered(log) && log != [] && !Ended(log) && local == log[|log| - 1].state && i < PHASES
    requires local.status == RUNNING && local.desired == TO_RUN && PhaseAt(i) !in local.completed
    ensures var act := RunnerActs(Env(false, Done(output)));
      AfterMoves(Solo(log, Process(local, BeforePhase(i))), [act, act, act, act])
      == Solo(log + [Checkpoint(|log| + 1, AdvancedJob(local, i, output))],
              Process(AdvancedJob(local, i, output), BeforePhase(i + 1)))
  {
    var env := Env(false, Done(output));
    var act := RunnerActs(env);
    var job := AdvancedJob(local, i, output);
    HandlerSections(log, local, i, output);
    ListThenAppend(log, job, job, NextPhase(i + 1), env);
    FourMoves(Solo(log, Process(local, BeforePhase(i))), act);
  }

  /** The sections before and after the handler of phase `i`. */
  lemma HandlerSections(log: seq<Checkpoint>, local: Job, i: nat, output: Output)
    requires Ordered(log) && log != [] && !Ended(log) && local == log[|log| - 1].state && i < PHASES
    requires local.status == RUNNING && local.desired == TO_RUN && PhaseAt(i) !in local.completed
    ensures var act, job := RunnerActs(Env(false, Done(output))), AdvancedJob(local, i, output);
      && Moved(Solo(log, Process(local, BeforePhase(i))), act) == Solo(log, Process(local, Handling(i)))
      && Moved(Solo(log, Process(local, Handling(i))), act) == Solo(log, Process(job, Listing(job, NextPhase(i + 1))))
  {
    OrderedGet(log);
  }

  /** `final` completes `job`, with what the handlers return for the phases that were left. */
  ghost predicate Completes(job: Job, final: Job, handler: nat -> Output) {
    && final.status == COMPLETED && OrderedWork(final) && KeepsWork(job, final)
    && forall j :: |job.completed| <= j < PHASES ==>
         PhaseAt(j) in final.outputs && final.outputs[PhaseAt(j)] == handler(j)
  }

  lemma KeepsWorkOf(a: Job, b: Job, c: Job)
    requires KeepsWork(a, b) && KeepsWork(b, c)
    ensures KeepsWork(a, c)
  {
  }

  lemma PhaseThenCompletes(job: Job, i: nat, final: Job, handler: nat -> Output)
    requires OrderedWork(job) && i == |job.completed| < PHASES && !IsTerminal(job.status)
    requires Completes(AdvancedJob(job, i, handler(i)), final, handler)
    ensures Completes(job, final, handler)
  {
    var next := AdvancedJob(job, i, handler(i));
    AdvanceIsOrdered(job, job, i, handler(i));
    KeepsWorkOf(job, next, final);
    forall j | i <= j < PHASES
      ensures PhaseAt(j) in final.outputs && final.outputs[PhaseAt(j)] == handler(j)
    {
      if j == i {
        assert PhaseAt(i) in next.outputs && next.outputs[PhaseAt(i)] == handler(i);
      } else {
        assert |next.completed| <= j;
      }
    }
  }

  lemma ConclusionRuns(log: seq<Checkpoint>, local: Job, handler: nat -> Output)
    returns (moves: seq<Move>, end: seq<Checkpoint>)
    requires WorkInOrder(log) && !Ended(log) && local == log[|log| - 1].state && |local.completed| == PHASES
    ensures RunsToCompletion(Solo(log, Process(local, BeforePhase(PHASES))), local, handler, moves, end)
  {
    assert OrderedWork(local);
    var s := Solo(log, Process(local, BeforePhase(PHASES)));
    var act := RunnerActs(Env(false, Done(handler(0))));
    OrderedGet(log);
    assert Moved(s, act) == Solo(log, Process(local, Listing(CompletedJob(local), Return)));
    ListThenAppend(log, local, CompletedJob(local), Return, act.env);
    ThreeMoves(s, act);
    moves, end := [act, act, act], log + [Checkpoint(|log| + 1, CompletedJob(local))];
  }

  /** From `s` on, with `local` the last state of its log, `moves` run the job to its completion. */
  ghost predicate RunsToCompletion(s: Solo, local: Job, handler: nat -> Output, moves: seq<Move>, end: seq<Checkpoint>) {
    && Undisturbed(moves) && AfterMoves(s, moves).log == end
    && |s.log| < |end| && s.log <= end && Completes(local, end[|end| - 1].state, handler)
  }

  lemma JoinMoves(s: Solo, first: seq<Move>, middle: Solo, rest: seq<Move>, local: Job, handler: nat -> Output, end: seq<Checkpoint>)
    returns (moves: seq<Move>)
    requires Undisturbed(first) && AfterMoves(s, first) == middle && s.log <= middle.log
    requires RunsToCompletion(middle, local, handler, rest, end)
    ensures RunsToCompletion(s, local, handler, moves, end)
  {
    MovesConcat(s, first, rest);
    moves := first + rest;
    assert s.log <= end;
  }

  lemma SkipRuns(log: seq<Checkpoint>, local: Job, i: nat, act: Move)
    requires WorkInOrder(log) && !Ended(log) && local == log[|log| - 1].state && i < |local.completed|
    requires act.RunnerActs? && local.status == RUNNING
    ensures AfterMoves(Solo(log, Process(local, BeforePhase(i))), [act]) == Solo(log, Process(local, BeforePhase(i + 1)))
  {
    assert OrderedWork(local);
    OrderedGet(log);
    PhaseIsDone(local, i);
    FirstMove(Solo(log, Process(local, BeforePhase(i))), act);
  }

  ghost predicate ReadyToRun(log: seq<Checkpoint>, local: Job, i: nat) {
    && WorkInOrder(log) && !Ended(log) && local == log[|log| - 1].state && OrderedWork(local) && i <= |local.completed|
    && local.status == RUNNING && local.desired == TO_RUN
  }

  /**
   * A run that nothing disturbs completes its job: phases done before keep their outputs, and every other phase gets
   * what its handler returned.
   */
  lemma {:induction false} UndisturbedRunCompletes(log: seq<Checkpoint>, local: Job, i: nat, handler: nat -> Output)
    returns (moves: seq<Move>, end: seq<Checkpoint>)
    requires ReadyToRun(log, local, i)
    ensures RunsToCompletion(Solo(log, Process(local, BeforePhase(i))), local, handler, moves, end)
    decreases PHASES - i
  {
    var s := Solo(log, Process(local, BeforePhase(i)));
    if i == PHASES {
      moves, end := ConclusionRuns(log, local, handler);
    } else if i < |local.completed| {
      var act := RunnerActs(Env(false, Done(handler(0))));
      SkipRuns(log, local, i, act);
      moves, end := UndisturbedRunCompletes(log, local, i + 1, handler);
      moves := JoinMoves(s, [act], Solo(log, Process(local, BeforePhase(i + 1))), moves, local, handler, end);
    } else {
      moves, end := PhaseRunsThenCompletes(log, local, i, handler);
    }
  }

  lemma {:induction false} PhaseRunsThenCompletes(log: seq<Checkpoint>, local: Job, i: nat, handler: nat -> Output)
    returns (moves: seq<Move>, end: seq<Checkpoint>)
    requires ReadyToRun(log, local, i) && i == |local.completed| < PHASES
    ensures RunsToCompletion(Solo(log, Process(local, BeforePhase(i))), local, handler, moves, end)
    decreases PHASES - i, 0
  {
    var s := Solo(log, Process(local, BeforePhase(i)));
    var act := RunnerActs(Env(false, Done(handler(i))));
    var next, job, middle := ReadyPhaseRuns(log, local, i, handler(i), s, act);
    moves, end := UndisturbedRunCompletes(next, job, i + 1, handler);
    moves := JoinPhase(s, act, middle, local, i, handler, moves, end);
  }

  lemma ReadyPhaseRuns(log: seq<Checkpoint>, local: Job, i: nat, output: Output, s: Solo, act: Move)
    returns (next: seq<Checkpoint>, job: Job, middle: Solo)
    requires ReadyToRun(log, local, i) && i == |local.completed| < PHASES
    requires s == Solo(log, Process(local, BeforePhase(i))) && act == RunnerActs(Env(false, Done(output)))
    ensures job == AdvancedJob(local, i, output) && ReadyToRun(next, job, i + 1) && log <= next
    ensures middle == Solo(next, Process(job, BeforePhase(i + 1))) && AfterMoves(s, [act, act, act, act]) == middle
  {
    next := PhaseRuns(log, local, i, output);
    AdvanceIsReady(log, local, i, output, next);
    job := AdvancedJob(local, i, output);
    middle := Solo(next, Process(job, BeforePhase(i + 1)));
  }

  lemma JoinPhase(
      s: Solo, act: Move, middle: Solo, job: Job, i: nat, handler: nat -> Output, rest: seq<Move>, end: seq<Checkpoint>)
    returns (moves: seq<Move>)
    requires OrderedWork(job) && i == |job.completed| < PHASES && !IsTerminal(job.status)
    requires act.RunnerActs? && !act.env.aborted && act.env.outcome.Done?
    requires AfterMoves(s, [act, act, act, act]) == middle && s.log <= middle.log
    requires RunsToCompletion(middle, AdvancedJob(job, i, handler(i)), handler, rest, end)
    ensures RunsToCompletion(s, job, handler, moves, end)
  {
    PhaseThenCompletes(job, i, end[|end| - 1].state, handler);
    moves := JoinMoves(s, [act, act, act, act], middle, rest, job, handler, end);
  }

  lemma AdvanceIsReady(log: seq<Checkpoint>, local: Job, i: nat, output: Output, next: seq<Checkpoint>)
    requires ReadyToRun(log, local, i) && i == |local.completed| < PHASES && WorkInOrder(next) && !Ended(next)
    requires next == log + [Checkpoint(|log| + 1, AdvancedJob(local, i, output))]
    ensures ReadyToRun(next, AdvancedJob(local, i, output), i + 1)
  {
    assert next[|log|].state == AdvancedJob(local, i, output) && OrderedWork(next[|log|].state);
  }

  // ---------------------------------------------------------------- how a run gets out of step

  /** Starts of the run and its undisturbed sections. */
  ghost predicate RunsAlone(moves: seq<Move>, output: Output) {
    forall k :: 0 <= k < |moves| ==> moves[k] in {StartRun, RunnerActs(Env(false, Done(output)))}
  }

  lemma {:induction false} RunningAloneIsInStep(s: Solo, moves: seq<Move>, output: Output)
    requires RunsAlone(moves, output)
    ensures AllInStep(s, moves)
  {
    if moves != [] {
      RunningAloneIsInStep(s, moves[..|moves| - 1], output);
    }
  }

  lemma InitialIsReady(output: Output) returns (log: seq<Checkpoint>)
    ensures ReadyToRun(log, InitialJob(), 0) && AfterMoves(Initial(), [StartRun]) == Solo(log, Process(InitialJob(), BeforePhase(0)))
  {
    log := Initial().log;
    OrderedGet(log);
    FirstMove(Initial(), StartRun);
  }

  /** A started run that nothing disturbs gets to the start of every phase, with those before it done. */
  lemma {:induction false} EveryPhaseIsReached(i: nat, output: Output) returns (moves: seq<Move>, log: seq<Checkpoint>, job: Job)
    requires i <= PHASES
    ensures RunsAlone(moves, output) && ReadyToRun(log, job, i) && |job.completed| == i
    ensures AfterMoves(Initial(), moves) == Solo(log, Process(job, BeforePhase(i)))
  {
    if i == 0 {
      log := InitialIsReady(output);
      moves, job := [StartRun], InitialJob();
    } else {
      moves, log, job := EveryPhaseIsReached(i - 1, output);
      var act := RunnerActs(Env(false, Done(output)));
      var s := Solo(log, Process(job, BeforePhase(i - 1)));
      var next, advanced, middle := ReadyPhaseRuns(log, job, i - 1, output, s, act);
      MovesConcat(Initial(), moves, [act, act, act, act]);
      moves, log, job := moves + [act, act, act, act], next, advanced;
    }
  }

  /** So does it to the save of every phase, when it has listed the log and not yet appended to it. */
  lemma EverySaveIsReached(i: nat, output: Output) returns (moves: seq<Move>, s: Solo)
    requires i < PHASES
    ensures RunsAlone(moves, output) && s == AfterMoves(Initial(), moves) && !Ended(s.log)
    ensures IsSavingPhase(s.runner.pc) && s.runner.pc.next.i == i + 1
    ensures s.log != [] && s.log[|s.log| - 1].state.status == RUNNING
  {
    var log, job;
    moves, log, job := EveryPhaseIsReached(i, output);
    var act := RunnerActs(Env(false, Done(output)));
    PhaseIsDone(job, i);
    HandlerSections(log, job, i, output);
    ListThenAppend(log, AdvancedJob(job, i, output), AdvancedJob(job, i, output), NextPhase(i + 1), act.env);
    ThreeMoves(Solo(log, Process(job, BeforePhase(i))), act);
    MovesConcat(Initial(), moves, [act, act, act]);
    moves := moves + [act, act, act];
    s := AfterMoves(Initial(), moves);
  }

  /**
   A job whose run is disturbed only by one pause, while its last phase is being saved, is completed without that phase,
   whether or not the pause also aborts the run's signal.
   */
  lemma PauseLosesTheLastPhase(output: Output, aborted: bool) returns (moves: seq<Move>, rest: seq<Move>)
    ensures RunsAlone(moves, output) && AllInStep(Initial(), moves) && !InStep(AfterMoves(Initial(), moves).runner, PauseLatest)
    ensures forall k :: 0 <= k < |rest| ==> rest[k] == RunnerActs(Env(aborted, Done(output)))
    ensures var end := AfterMoves(Moved(AfterMoves(Initial(), moves), PauseLatest), rest).log;
      && end != [] && end[|end| - 1].state.status == COMPLETED
      && PhaseAt(PHASES - 1) !in end[|end| - 1].state.completed && !WorkInOrder(end)
  {
    var s;
    moves, s := EverySaveIsReached(PHASES - 1, output);
    RunningAloneIsInStep(Initial(), moves, output);
    WorkStaysInOrder(moves);
    SavingPhaseFacts(s.log[|s.log| - 1].state, |s.log|, s.runner);
    var log := ControlCallAppends(s, PauseLatest);
    var last, act := log[|log| - 1].state, RunnerActs(Env(aborted, Done(output)));
    RefusedSave(log, s.runner, act.env);
    AheadCompletes(log, last, act.env);
    MovesCompose(Solo(log, s.runner), act, [act, act, act]);
    assert OrderedWork(last);
    PhaseIsDone(last, PHASES - 1);
    rest := [act] + [act, act, act];
  }

  lemma PauseWhileSaving(i: nat, output: Output) returns (moves: seq<Move>, s: Solo)
    requires i < PHASES - 1
    ensures AllInStep(Initial(), moves) && s == AfterMoves(Initial(), moves)
    ensures SoloInStep(s) && !Ended(s.log) && IsSavingPhase(s.runner.pc) && s.runner.pc.next.i == i + 1
    ensures s.runner.pc.requested <= |s.log| && !IsTerminal(s.runner.pc.job.status)
    ensures s.log[|s.log| - 1].state.status == PAUSED
  {
    moves, s := EverySaveIsReached(i, output);
    RunningAloneIsInStep(Initial(), moves, output);
    WorkStaysInOrder(moves);
    SavingPhaseFacts(s.log[|s.log| - 1].state, |s.log|, s.runner);
    var log := ControlCallAppends(s, PauseLatest);
    assert (moves + [PauseLatest])[..|moves|] == moves;
    moves, s := moves + [PauseLatest], Solo(log, s.runner);
    WorkStaysInOrder(moves);
  }

  /**
   A job whose run is disturbed only by one pause, while any other phase is being saved, and one resumption comes out
   of order, whether the resumption falls before the refused append or right after it: the phase is skipped.
   */
  lemma ResumptionSkipsAPhase(i: nat, afterAppend: bool, output: Output) returns (moves: seq<Move>, rest: seq<Move>)
    requires i < PHASES - 1
    ensures AllInStep(Initial(), moves) && !InStep(AfterMoves(Initial(), moves).runner, ResumeLatest)
    ensures IsAhead(AfterMoves(Initial(), moves).runner) <==> afterAppend
    ensures RunsAlone(rest, output)
    ensures !WorkInOrder(AfterMoves(Moved(AfterMoves(Initial(), moves), ResumeLatest), rest).log)
  {
    var s;
    moves, s := PauseWhileSaving(i, output);
    if afterAppend {
      var act := RunnerActs(Env(false, Done(output)));
      SavingPhaseFacts(s.log[|s.log| - 1].state, |s.log|, s.runner);
      RefusedSave(s.log, s.runner, act.env);
      assert (moves + [act])[..|moves|] == moves;
      moves, s := moves + [act], Moved(s, act);
      WorkStaysInOrder(moves);
    }
    rest := OutOfStepBreaksTheOrder(s, ResumeLatest, output);
  }

  /**
   With its signal aborted, as the runtime's pause leaves it, a run skips nothing, even if it is ahead: before any phase
   that is not done it saves a pause with the work as it stands, and returns.
   */
  lemma AbortedRunSkipsNothing(log: seq<Checkpoint>, local: Job, i: nat, outcome: HandlerOutcome)
    requires WorkInOrder(log) && !Ended(log) && i < PHASES
    requires var last := log[|log| - 1].state;
      |last.completed| <= i && (local == last || last.version > local.version)
    ensures var act := RunnerActs(Env(true, outcome));
      var end := AfterMoves(Solo(log, Process(local, BeforePhase(i))), [act, act, act]);
      && end.log == log + [Checkpoint(|log| + 1, PausedJob(log[|log| - 1].state))] && WorkInOrder(end.log)
      && end.runner.pc == Returned(Some(PausedJob(log[|log| - 1].state)))
  {
    var act := RunnerActs(Env(true, outcome));
    var last := log[|log| - 1].state;
    OrderedGet(log);
    assert OrderedWork(last);
    PhaseIsDone(last, i);
    assert Moved(Solo(log, Process(local, BeforePhase(i))), act) == Solo(log, Process(last, Listing(PausedJob(last), Return)));
    ListThenAppend(log, last, PausedJob(last), Return, act.env);
    ThreeMoves(Solo(log, Process(local, BeforePhase(i))), act);
    ExtendedInOrder(log, PausedJob(last));
  }
}
