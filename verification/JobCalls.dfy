/**
 What each call of a workspace analysis job leaves in its log, whatever other calls do between its sections.
 */
module JobCalls {
  import opened AnalysisJobs
  import opened SingleRunner
  import opened Wrappers

  // ---------------------------------------------------------------- what is asked for

  ghost predicate KeepsAllBut(job: Job, c: Job) {
    && c.completed == job.completed && c.outputs == job.outputs && c.phase == job.phase
    && c.version == job.version + 1
  }

  /** What a call has asked to have saved: the job with its new status, one version on, and otherwise as it was. */
  ghost predicate IsAsked(call: Call, c: Job) {
    match call
    case Start(job) => c == job
    case Run(_) => false
    case Pause(job) => KeepsAllBut(job, c) && c.error == job.error && c.status == PAUSED && c.desired == TO_PAUSE
    case Resume(job) => KeepsAllBut(job, c) && c.error == job.error && c.status == RUNNING && c.desired == TO_RUN
    case Cancel(job) => KeepsAllBut(job, c) && c.error == job.error && c.status == CANCELLED && c.desired == TO_CANCEL
    case Fail(job, error) => KeepsAllBut(job, c) && c.error == Some(error) && c.status == FAILED && c.desired == job.desired
  }

  /** The states of a job in which a call is refused. */
  ghost predicate IsRefused(call: Call) {
    match call
    case Pause(job) => job.status != RUNNING
    case Resume(job) => job.status != PAUSED
    case Cancel(job) => job.status == CANCELLED || job.status == FAILED || job.status == COMPLETED
    case _ => false
  }

  lemma CallIsRefusedExactly(call: Call)
    ensures Begin(call).pc == Threw <==> IsRefused(call)
    ensures !IsRefused(call) && !call.Run? && !call.Fail? ==>
              Begin(call).pc.Listing? && Begin(call).pc.next == Return && IsAsked(call, Begin(call).pc.job)
    ensures call.Run? ==> Begin(call).pc == if call.job.status == PAUSED then Returned(Some(call.job)) else BeforePhase(0)
  {
  }

  // ---------------------------------------------------------------- other calls in between

  ghost predicate AreOthers(events: seq<Event>, p: nat) {
    forall k :: 0 <= k < |events| && events[k].Acts? ==> events[k].p != p
  }

  lemma {:induction false} OthersLeaveProcess(s: System, p: nat, events: seq<Event>)
    requires p < |s.processes| && AreOthers(events, p)
    ensures p < |After(s, events).processes| && After(s, events).processes[p] == s.processes[p]
  {
    if events != [] {
      OthersLeaveProcess(s, p, events[..|events| - 1]);
    }
  }

  /** What comes of the append of a save that listed the log `length` checkpoints long: what stands then, or the save. */
  ghost predicate IsSaved(before: seq<Checkpoint>, length: nat, job: Job, after: seq<Checkpoint>, p: Process) {
    if before != [] && IsTerminal(before[|before| - 1].state.status) then
      after == before && p.pc == Returned(Some(before[|before| - 1].state))
    else if |before| == length || job.status == CANCELLED then
      after == before + [Checkpoint(|before| + 1, job)] && p.pc == Returned(Some(job))
    else
      after == before && p.pc == Returned(if before == [] then None else Some(before[|before| - 1].state))
  }

  /** What becomes of a save, from the section in which it lists the log to the one in which it appends. */
  ghost predicate SaveEnds(length: nat, job: Job, middle: System, end: System, p: nat) {
    Ordered(middle.log) && p < |end.processes| && IsSaved(middle.log, length, job, end.log, end.processes[p])
  }

  lemma LogIsListed(s: System, p: nat, job: Job, env: Env)
    requires Ordered(s.log) && !Ended(s.log) && p < |s.processes| && s.processes[p].pc == Listing(job, Return)
    ensures var listed := Next(s, Acts(p, env));
      && listed.log == s.log && |listed.processes| == |s.processes|
      && listed.processes[p].pc == Appending(job, |s.log| + 1, Return)
  {
    OrderedGet(s.log);
  }

  lemma AppendIsDecided(middle: System, p: nat, job: Job, length: nat, env: Env)
    requires Ordered(middle.log) && p < |middle.processes| && middle.processes[p].pc == Appending(job, length + 1, Return)
    ensures SaveEnds(length, job, middle, Next(middle, Acts(p, env)), p)
  {
    AppendKeepsOrder(middle.log, job, length + 1);
  }

  lemma SaveIsDecided(s: System, p: nat, job: Job, between: seq<Event>, env: Env)
    requires Ordered(s.log) && !Ended(s.log) && p < |s.processes| && AreOthers(between, p)
    requires s.processes[p].pc == Listing(job, Return)
    ensures var middle := After(Next(s, Acts(p, env)), between);
      s.log <= middle.log && SaveEnds(|s.log|, job, middle, Next(middle, Acts(p, env)), p)
  {
    LogIsListed(s, p, job, env);
    FirstTerminalWins(Next(s, Acts(p, env)), between);
    OthersLeaveProcess(Next(s, Acts(p, env)), p, between);
    AppendIsDecided(After(Next(s, Acts(p, env)), between), p, job, |s.log|, env);
  }

  /**
   A call of `start`, `pause`, `resume` or `cancel` that is not refused, on a log that has not ended: it saves what it
   was asked for if nothing was appended between its listing of the log and its append; otherwise only a cancellation is
   saved. Once the log has ended nothing is.
   */
  lemma CallIsSaved(s: System, call: Call, between: seq<Event>, env: Env) returns (c: Job)
    requires Ordered(s.log) && !Ended(s.log) && !IsRefused(call) && !call.Run? && !call.Fail?
    requires AreOthers(between, |s.processes|)
    ensures IsAsked(call, c)
    ensures var p := |s.processes|;
      var middle := After(Next(Next(s, Begins(call)), Acts(p, env)), between);
      s.log <= middle.log && SaveEnds(|s.log|, c, middle, Next(middle, Acts(p, env)), p)
  {
    CallIsRefusedExactly(call);
    c := Begin(call).pc.job;
    SaveIsDecided(Next(s, Begins(call)), |s.processes|, c, between, env);
  }

  /** `c` is the last checkpoint, and it is what `get` answers, now and after the events. */
  ghost predicate StandsForGood(before: seq<Checkpoint>, c: Job, end: System, later: seq<Event>) {
    && end.log == before + [Checkpoint(|before| + 1, c)]
    && After(end, later).log == end.log && Get(After(end, later).log) == Some(c)
  }

  lemma SavedEndStands(middle: System, p: nat, c: Job, length: nat, env: Env, later: seq<Event>)
    requires Ordered(middle.log) && !Ended(middle.log) && IsTerminal(c.status)
    requires |middle.log| == length || c.status == CANCELLED
    requires SaveEnds(length, c, middle, Next(middle, Acts(p, env)), p)
    ensures StandsForGood(middle.log, c, Next(middle, Acts(p, env)), later)
  {
    StepKeepsOrder(middle, Acts(p, env));
    FirstTerminalWins(Next(middle, Acts(p, env)), later);
  }

  /**
   A cancellation is saved whatever was appended between its listing and its append, as long as the log has not ended by
   then; and it is what `get` answers from then on, after any further events.
   */
  lemma CancellationStays(s: System, job: Job, between: seq<Event>, env: Env, later: seq<Event>) returns (c: Job)
    requires Ordered(s.log) && !Ended(s.log) && AreOthers(between, |s.processes|)
    requires job.status != CANCELLED && job.status != FAILED && job.status != COMPLETED
    ensures c.status == CANCELLED && c.desired == TO_CANCEL && c.error == job.error && KeepsAllBut(job, c)
    ensures var p := |s.processes|;
      var middle := After(Next(Next(s, Begins(Cancel(job))), Acts(p, env)), between);
      if Ended(middle.log) then Next(middle, Acts(p, env)).log == middle.log
      else StandsForGood(middle.log, c, Next(middle, Acts(p, env)), later)
  {
    c := CallIsSaved(s, Cancel(job), between, env);
    var p := |s.processes|;
    var middle := After(Next(Next(s, Begins(Cancel(job))), Acts(p, env)), between);
    if !Ended(middle.log) {
      SavedEndStands(middle, p, c, |s.log|, env, later);
    }
  }

  // ---------------------------------------------------------------- failures

  /** The newer of the job that a failure was reported with and the latest checkpoint. */
  ghost function NewerOf(log: seq<Checkpoint>, job: Job): Job {
    if log != [] && log[|log| - 1].state.version > job.version then log[|log| - 1].state else job
  }

  /**
   The first section of a failure: a cancelled or completed job is left alone; otherwise the newer of the two jobs is to
   be saved as failed, with the error and with its work.
   */
  lemma FailureReads(s: System, job: Job, error: Error, env: Env)
    requires Ordered(s.log)
    ensures var p := |s.processes|;
      var read := Next(Next(s, Begins(Fail(job, error))), Acts(p, env));
      && read.log == s.log && |read.processes| == p + 1
      && if s.log != [] && (s.log[|s.log| - 1].state.status == CANCELLED || s.log[|s.log| - 1].state.status == COMPLETED) then
           read.processes[p].pc == Returned(Some(s.log[|s.log| - 1].state))
         else
           && read.processes[p].pc.Listing? && read.processes[p].pc.next == Return
           && IsAsked(Fail(NewerOf(s.log, job), error), read.processes[p].pc.job)
  {
    OrderedGet(s.log);
  }

  /**
   A failure that has been read is saved if nothing is appended between its listing and its append, and lost otherwise;
   once saved it is what `get` answers, after any further events.
   */
  lemma FailureIsSavedExactly(s: System, p: nat, c: Job, between: seq<Event>, env: Env, later: seq<Event>)
    requires Ordered(s.log) && !Ended(s.log) && p < |s.processes| && AreOthers(between, p)
    requires s.processes[p].pc == Listing(c, Return) && c.status == FAILED
    ensures var middle := After(Next(s, Acts(p, env)), between);
      if |middle.log| == |s.log| then StandsForGood(s.log, c, Next(middle, Acts(p, env)), later)
      else Next(middle, Acts(p, env)).log == middle.log
  {
    SaveIsDecided(s, p, c, between, env);
    var middle := After(Next(s, Acts(p, env)), between);
    if |middle.log| == |s.log| {
      assert middle.log == s.log;
      SavedEndStands(middle, p, c, |s.log|, env, later);
    }
  }

  lemma PauseIsAnother(job: Job, p: nat, env: Env)
    ensures AreOthers([Begins(Pause(job)), Acts(p + 1, env), Acts(p + 1, env)], p)
  {
  }

  lemma PauseOvertakesFailure(read: System, p: nat, c: Job, job: Job, env: Env) returns (between: seq<Event>)
    requires StandsAt(read.log, job) && job.status == RUNNING && |read.processes| == p + 1
    requires read.processes[p].pc == Listing(c, Return) && c.status == FAILED
    ensures AreOthers(between, p)
    ensures Next(After(Next(read, Acts(p, env)), between), Acts(p, env)).log
            == read.log + [Checkpoint(|read.log| + 1, PausedJob(job))]
  {
    LogIsListed(read, p, c, env);
    between := [Begins(Pause(job)), Acts(p + 1, env), Acts(p + 1, env)];
    PauseIsAnother(job, p, env);
    LatePauseIsSaved(Next(read, Acts(p, env)), job, env);
    FailureIsSavedExactly(read, p, c, between, env, []);
  }

  /** The input: a pause between the listing and the append of a failure. The job then stands paused, not failed. */
  lemma FailureIsLost(s: System, job: Job, error: Error, env: Env) returns (between: seq<Event>)
    requires StandsAt(s.log, job) && job.status == RUNNING
    ensures var p := |s.processes|;
      var read := Next(Next(s, Begins(Fail(job, error))), Acts(p, env));
      && AreOthers(between, p)
      && Next(After(Next(read, Acts(p, env)), between), Acts(p, env)).log == s.log + [Checkpoint(|s.log| + 1, PausedJob(job))]
  {
    var p := |s.processes|;
    FailureReads(s, job, error, env);
    var read := Next(Next(s, Begins(Fail(job, error))), Acts(p, env));
    between := PauseOvertakesFailure(read, p, read.processes[p].pc.job, job, env);
  }

  // ---------------------------------------------------------------- a run after the end

  /** A run that reads a newer terminal checkpoint returns it: no handler is started, and nothing is saved any more. */
  lemma RunStopsAtTheEnd(s: System, p: nat, env: Env)
    requires Ordered(s.log) && Ended(s.log) && p < |s.processes|
    requires s.log[|s.log| - 1].state.version > s.processes[p].state.version
    ensures var last, pc := s.log[|s.log| - 1].state, s.processes[p].pc;
      var end := Next(s, Acts(p, env));
      && end.log == s.log && |end.processes| == |s.processes|
      && (pc.BeforePhase? && pc.i < PHASES ==> end.processes[p].pc == Returned(Some(last)))
      && (pc.BeforePhase? && pc.i >= PHASES && last.status != COMPLETED ==> end.processes[p].pc == Returned(Some(last)))
      && (pc.Handling? && env.outcome.Done? && pc.i < PHASES && last.status != COMPLETED ==>
            end.processes[p].pc == Returned(Some(last)))
      && (pc.Handling? && env.outcome.Throws? ==> end.processes[p].pc == Threw)
  {
    OrderedGet(s.log);
    StepKeepsOrder(s, Acts(p, env));
  }

  /** The end of a run: a newer cancellation or failure is returned; otherwise the job is to be saved as completed. */
  lemma CompletionIsAskedFor(s: System, p: nat, env: Env)
    requires Ordered(s.log) && p < |s.processes| && s.processes[p].pc.BeforePhase? && s.processes[p].pc.i >= PHASES
    ensures var job, end := s.processes[p].state, Next(s, Acts(p, env));
      && end.log == s.log && |end.processes| == |s.processes|
      && if NewerOf(s.log, job) != job && NewerOf(s.log, job).status in {CANCELLED, FAILED} then
           end.processes[p].pc == Returned(Some(NewerOf(s.log, job)))
         else
           && end.processes[p].pc.Listing? && end.processes[p].pc.next == Return
           && var c := end.processes[p].pc.job;
              && c.status == COMPLETED && c.phase == COMPLETED_PHASE && c.version == job.version + 1
              && c.completed == job.completed && c.outputs == job.outputs && c.error == job.error && c.desired == job.desired
  {
    OrderedGet(s.log);
  }

  /** A completed job whose work is in order has done the seven phases, in this order. */
  lemma CompletedPhases(job: Job)
    requires OrderedWork(job) && job.status == COMPLETED
    ensures job.completed == [SOURCE_SCAN, FACT_COMMIT, ANALYSIS, RECONCILIATION, EVALUATION, PROJECTION, PUBLISHING]
    ensures job.phase == COMPLETED_PHASE
  {
  }

  // ---------------------------------------------------------------- reading any log

  /** Of two terminal checkpoints the one of lower sequence comes first; of one sequence, a cancellation, then a failure. */
  ghost predicate ComesFirst(c: Checkpoint, d: Checkpoint) {
    || c.sequence < d.sequence
    || (c.sequence == d.sequence
        && (c.state.status == CANCELLED || d.state.status == COMPLETED || (c.state.status == FAILED && d.state.status == FAILED)))
  }

  lemma {:induction false} FirstEndDecides(log: seq<Checkpoint>)
    ensures match Deciding(log)
            case None => forall c :: c in log ==> !IsTerminal(c.state.status)
            case Some(d) =>
              && d in log && IsTerminal(d.state.status)
              && forall c :: c in log && IsTerminal(c.state.status) ==> ComesFirst(d, c)
  {
    if log != [] {
      assert log == log[..|log| - 1] + [log[|log| - 1]];
      FirstEndDecides(log[..|log| - 1]);
    }
  }

  lemma {:induction false} NewestIsLatest(log: seq<Checkpoint>)
    ensures log != [] ==> Newest(log).Some? && Newest(log).value in log
    ensures forall c :: c in log ==> c.sequence <= Newest(log).value.sequence
  {
    if log != [] {
      assert log == log[..|log| - 1] + [log[|log| - 1]];
      NewestIsLatest(log[..|log| - 1]);
    }
  }

  /**
   In any log, ordered or not, `get` answers the state of a terminal checkpoint that comes before every other one; and if
   there is none, that of a checkpoint of the highest sequence.
   */
  lemma GetAnswers(log: seq<Checkpoint>) returns (c: Checkpoint)
    requires log != []
    ensures c in log && Get(log) == Some(c.state)
    ensures if exists d :: d in log && IsTerminal(d.state.status) then
              IsTerminal(c.state.status) && forall d :: d in log && IsTerminal(d.state.status) ==> ComesFirst(c, d)
            else forall d :: d in log ==> d.sequence <= c.sequence
  {
    FirstEndDecides(log);
    NewestIsLatest(log);
    c := if Deciding(log).Some? then Deciding(log).value else Newest(log).value;
  }
}
