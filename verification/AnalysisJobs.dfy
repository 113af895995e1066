/**
 Workspace analysis jobs over an append-only checkpoint log: the seven-phase runner and the pause, resume, cancel and
 fail calls beside it, cut into the atomic sections between their awaits.
 */
module AnalysisJobs {
  import opened Wrappers

  datatype Phase =
    | SOURCE_SCAN | FACT_COMMIT | ANALYSIS | RECONCILIATION | EVALUATION | PROJECTION | PUBLISHING | COMPLETED_PHASE

  const PHASES: nat := 7

  function PhaseAt(i: nat): Phase
    requires i <= PHASES
  {
    if i == 0 then SOURCE_SCAN else if i == 1 then FACT_COMMIT else if i == 2 then ANALYSIS
    else if i == 3 then RECONCILIATION else if i == 4 then EVALUATION else if i == 5 then PROJECTION
    else if i == 6 then PUBLISHING else COMPLETED_PHASE
  }

  datatype Status = RUNNING | PAUSED | CANCELLED | FAILED | COMPLETED

  datatype Desired = TO_RUN | TO_PAUSE | TO_CANCEL

  datatype Output = Output(text: string)

  datatype Error = Error(code: string, message: string, retryable: bool)

  datatype Job = Job(
    version: nat, phase: Phase, status: Status, desired: Desired,
    completed: seq<Phase>, outputs: map<Phase, Output>, error: Option<Error>)

  datatype Checkpoint = Checkpoint(sequence: nat, state: Job)

  function InitialJob(): Job {
    Job(1, SOURCE_SCAN, RUNNING, TO_RUN, [], map[], None)
  }

  predicate IsTerminal(status: Status) {
    status == CANCELLED || status == FAILED || status == COMPLETED
  }

  // ---------------------------------------------------------------- reading the log

  function Rank(status: Status): nat {
    match status
    case CANCELLED => 0
    case FAILED => 1
    case _ => 2
  }

  /** The terminal checkpoint that decides: the one of least sequence, then cancelled before failed before completed. */
  function Deciding(log: seq<Checkpoint>): Option<Checkpoint> {
    if log == [] then None
    else
      var best := Deciding(log[..|log| - 1]);
      var c := log[|log| - 1];
      if !IsTerminal(c.state.status) then best
      else if best == None || c.sequence < best.value.sequence
              || (c.sequence == best.value.sequence && Rank(c.state.status) < Rank(best.value.state.status)) then Some(c)
      else best
  }

  /** The checkpoint of greatest sequence, the first of them if there are several. */
  function Newest(log: seq<Checkpoint>): Option<Checkpoint> {
    if log == [] then None
    else
      var best := Newest(log[..|log| - 1]);
      var c := log[|log| - 1];
      if best == None || c.sequence > best.value.sequence then Some(c) else best
  }

  function Get(log: seq<Checkpoint>): Option<Job> {
    match Deciding(log)
    case Some(c) => Some(c.state)
    case None =>
      match Newest(log)
      case Some(c) => Some(c.state)
      case None => None
  }

  function MaxSequence(log: seq<Checkpoint>): nat {
    if log == [] then 0
    else
      var rest := MaxSequence(log[..|log| - 1]);
      if log[|log| - 1].sequence > rest then log[|log| - 1].sequence else rest
  }

  // ---------------------------------------------------------------- appending to the log

  /**
   * The store's append. It refuses everything after a terminal checkpoint, and anything but a cancellation that asks
   * for a sequence other than the next; it answers with the state that then stands.
   */
  function Append(log: seq<Checkpoint>, job: Job, requested: nat): (seq<Checkpoint>, Option<Job>) {
    match Deciding(log)
    case Some(c) => (log, Some(c.state))
    case None =>
      if requested != MaxSequence(log) + 1 && job.status != CANCELLED then (log, Get(log))
      else (log + [Checkpoint(MaxSequence(log) + 1, job)], Some(job))
  }

  // ---------------------------------------------------------------- calls and their atomic sections

  datatype Call =
    | Start(job: Job) | Run(job: Job) | Pause(job: Job) | Resume(job: Job) | Cancel(job: Job) | Fail(job: Job, error: Error)

  /** What follows the save of a checkpoint. */
  datatype Then = NextPhase(i: nat) | Return

  datatype Pc =
    | BeforePhase(i: nat)
    | Handling(i: nat)
    | Listing(job: Job, next: Then)
    | Appending(job: Job, requested: nat, next: Then)
    | FailReading(error: Error)
    | Returned(answer: Option<Job>)
    | Threw

  datatype Process = Process(state: Job, pc: Pc)

  datatype HandlerOutcome = Done(output: Output) | Throws

  /** What the outside decides during a section: whether the signal is aborted, and how the awaited handler ends. */
  datatype Env = Env(aborted: bool, outcome: HandlerOutcome)

  function PausedJob(job: Job): Job {
    job.(desired := TO_PAUSE, status := PAUSED, version := job.version + 1)
  }

  function ResumedJob(job: Job): Job {
    job.(desired := TO_RUN, status := RUNNING, version := job.version + 1)
  }

  function CancelledJob(job: Job): Job {
    job.(desired := TO_CANCEL, status := CANCELLED, version := job.version + 1)
  }

  function FailedJob(job: Job, error: Error): Job {
    job.(status := FAILED, version := job.version + 1, error := Some(error))
  }

  function CompletedJob(job: Job): Job {
    job.(phase := COMPLETED_PHASE, status := COMPLETED, version := job.version + 1)
  }

  function AdvancedJob(job: Job, i: nat, output: Output): Job
    requires i < PHASES
  {
    job.(phase := PhaseAt(i + 1), completed := job.completed + [PhaseAt(i)],
         outputs := job.outputs[PhaseAt(i) := output], version := job.version + 1)
  }

  function Begin(call: Call): Process {
    match call
    case Start(job) => Process(job, Listing(job, Return))
    case Run(job) => Process(job, if job.status == PAUSED then Returned(Some(job)) else BeforePhase(0))
    case Pause(job) => Process(job, if job.status != RUNNING then Threw else Listing(PausedJob(job), Return))
    case Resume(job) => Process(job, if job.status != PAUSED then Threw else Listing(ResumedJob(job), Return))
    case Cancel(job) => Process(job, if IsTerminal(job.status) then Threw else Listing(CancelledJob(job), Return))
    case Fail(job, error) => Process(job, FailReading(error))
  }

  predicate IsNewer(latest: Option<Job>, state: Job) {
    latest.Some? && latest.value.version > state.version
  }

  /** The start of phase `i`: read the log, then return, skip, pause or hand over to the phase's handler. */
  function EnterPhase(log: seq<Checkpoint>, local: Job, i: nat, aborted: bool): Process
    requires i < PHASES
  {
    var latest := Get(log);
    var state := if IsNewer(latest, local) then latest.value else local;
    Process(state,
            if IsTerminal(state.status) then Returned(Some(state))
            else if PhaseAt(i) in state.completed then BeforePhase(i + 1)
            else if aborted || state.desired == TO_PAUSE then Listing(PausedJob(state), Return)
            else Handling(i))
  }

  /** After the handler of phase `i`: read the log again, then return, pause or save the phase. */
  function LeavePhase(log: seq<Checkpoint>, local: Job, i: nat, output: Output): Process
    requires i < PHASES
  {
    var latest := Get(log);
    if IsNewer(latest, local) && (latest.value.status == CANCELLED || latest.value.status == FAILED) then
      Process(local, Returned(latest))
    else if IsNewer(latest, local) && latest.value.desired == TO_PAUSE then
      Process(local, Listing(latest.value.(status := PAUSED, version := latest.value.version + 1), Return))
    else
      var state := if IsNewer(latest, local) then latest.value else local;
      Process(AdvancedJob(state, i, output), Listing(AdvancedJob(state, i, output), NextPhase(i + 1)))
  }

  function Conclude(log: seq<Checkpoint>, local: Job): Process {
    var latest := Get(log);
    if IsNewer(latest, local) && (latest.value.status == CANCELLED || latest.value.status == FAILED) then
      Process(local, Returned(latest))
    else
      Process(local, Listing(CompletedJob(local), Return))
  }

  /** What a caller of the save goes on with, given its answer. */
  function AfterSave(local: Job, answer: Option<Job>, next: Then): Process {
    match next
    case Return => Process(local, Returned(answer))
    case NextPhase(i) =>
      if answer == None then Process(local, Threw)
      else if IsTerminal(answer.value.status) then Process(answer.value, Returned(answer))
      else Process(answer.value, BeforePhase(i))
  }

  function FailLatest(log: seq<Checkpoint>, local: Job, error: Error): Process {
    var latest := Get(log);
    if latest.Some? && (latest.value.status == CANCELLED || latest.value.status == COMPLETED) then
      Process(local, Returned(latest))
    else
      var job := if IsNewer(latest, local) then latest.value else local;
      Process(job, Listing(FailedJob(job, error), Return))
  }

  /** One atomic section of a process, from one await to the next. */
  function Act(log: seq<Checkpoint>, p: Process, env: Env): (seq<Checkpoint>, Process) {
    match p.pc
    case BeforePhase(i) =>
      (log, if i < PHASES then EnterPhase(log, p.state, i, env.aborted) else Conclude(log, p.state))
    case Handling(i) =>
      (log, if env.outcome.Done? && i < PHASES then LeavePhase(log, p.state, i, env.outcome.output) else p.(pc := Threw))
    case Listing(job, next) =>
      (match Deciding(log)
       case Some(c) => (log, AfterSave(p.state, Some(c.state), next))
       case None => (log, p.(pc := Appending(job, MaxSequence(log) + 1, next))))
    case Appending(job, requested, next) =>
      var (appended, answer) := Append(log, job, requested);
      (appended, AfterSave(p.state, answer, next))
    case FailReading(error) => (log, FailLatest(log, p.state, error))
    case _ => (log, p)
  }

  // ---------------------------------------------------------------- any number of processes, in any interleaving

  datatype System = System(log: seq<Checkpoint>, processes: seq<Process>)

  datatype Event = Begins(call: Call) | Acts(p: nat, env: Env)

  function Next(s: System, e: Event): System {
    match e
    case Begins(call) => s.(processes := s.processes + [Begin(call)])
    case Acts(p, env) =>
      if p >= |s.processes| then s
      else
        var (log, process) := Act(s.log, s.processes[p], env);
        System(log, s.processes[p := process])
  }

  function After(s: System, events: seq<Event>): System {
    if events == [] then s else Next(After(s, events[..|events| - 1]), events[|events| - 1])
  }

  /** Sequences count up from one, and nothing follows a terminal checkpoint. */
  ghost predicate Ordered(log: seq<Checkpoint>) {
    && (forall k :: 0 <= k < |log| ==> log[k].sequence == k + 1)
    && forall k :: 0 <= k < |log| - 1 ==> !IsTerminal(log[k].state.status)
  }

  predicate Ended(log: seq<Checkpoint>) {
    log != [] && IsTerminal(log[|log| - 1].state.status)
  }

  lemma {:induction false} OrderedReads(log: seq<Checkpoint>)
    requires Ordered(log)
    ensures MaxSequence(log) == |log|
    ensures Newest(log) == if log == [] then None else Some(log[|log| - 1])
    ensures Deciding(log) == if Ended(log) then Some(log[|log| - 1]) else None
  {
    if log != [] {
      OrderedReads(log[..|log| - 1]);
    }
  }

  /** On an ordered log the last checkpoint is the one that counts, for reading as for the next sequence. */
  lemma OrderedGet(log: seq<Checkpoint>)
    requires Ordered(log)
    ensures Get(log) == if log == [] then None else Some(log[|log| - 1].state)
    ensures MaxSequence(log) == |log|
    ensures Deciding(log) == if Ended(log) then Some(log[|log| - 1]) else None
  {
    OrderedReads(log);
  }

  lemma AppendKeepsOrder(log: seq<Checkpoint>, job: Job, requested: nat)
    requires Ordered(log)
    ensures var (appended, answer) := Append(log, job, requested);
      && Ordered(appended) && log <= appended
      && (Ended(log) ==> appended == log && answer == Some(log[|log| - 1].state))
      && (!Ended(log) && (requested == |log| + 1 || job.status == CANCELLED) ==>
            appended == log + [Checkpoint(|log| + 1, job)] && answer == Some(job))
      && (!Ended(log) && requested != |log| + 1 && job.status != CANCELLED ==>
            appended == log && answer == if log == [] then None else Some(log[|log| - 1].state))
  {
    OrderedGet(log);
  }

  lemma StepKeepsOrder(s: System, e: Event)
    requires Ordered(s.log)
    ensures Ordered(Next(s, e).log) && s.log <= Next(s, e).log
    ensures Ended(s.log) ==> Next(s, e).log == s.log
  {
    if e.Acts? && e.p < |s.processes| {
      var p := s.processes[e.p];
      if p.pc.Appending? {
        AppendKeepsOrder(s.log, p.pc.job, p.pc.requested);
      }
    }
  }

  /**
   * The first terminal checkpoint wins: whatever calls are made and however their sections interleave, sequences keep
   * counting up and once a terminal checkpoint is in the log, the log and what `get` answers never change again.
   */
  lemma {:induction false} FirstTerminalWins(s: System, events: seq<Event>)
    requires Ordered(s.log)
    ensures Ordered(After(s, events).log) && s.log <= After(s, events).log
    ensures Ended(s.log) ==> After(s, events).log == s.log && Get(After(s, events).log) == Some(s.log[|s.log| - 1].state)
  {
    if events == [] {
      OrderedGet(s.log);
    } else {
      var before := After(s, events[..|events| - 1]);
      FirstTerminalWins(s, events[..|events| - 1]);
      StepKeepsOrder(before, events[|events| - 1]);
      OrderedGet(s.log);
    }
  }

  /** A save attempted after the end appends nothing and answers with the state that decided. */
  lemma SavesAfterTheEndAnswerIt(s: System, p: nat, env: Env)
    requires Ordered(s.log) && Ended(s.log) && p < |s.processes|
    requires s.processes[p].pc.Listing? || s.processes[p].pc.Appending?
    ensures Next(s, Acts(p, env)).log == s.log
    ensures Next(s, Acts(p, env)).processes[p].pc == Returned(Some(s.log[|s.log| - 1].state))
  {
    OrderedGet(s.log);
    if s.processes[p].pc.Appending? {
      AppendKeepsOrder(s.log, s.processes[p].pc.job, s.processes[p].pc.requested);
    }
  }

  // ---------------------------------------------------------------- what interleavings can do

  lemma {:induction false} AfterConcat(s: System, first: seq<Event>, second: seq<Event>)
    ensures After(s, first + second) == After(After(s, first), second)
  {
    if second == [] {
      assert first + second == first;
    } else {
      AfterConcat(s, first, second[..|second| - 1]);
      assert (first + second)[..|first + second| - 1] == first + second[..|second| - 1];
    }
  }

  lemma AfterOne(s: System, e: Event)
    ensures After(s, [e]) == Next(s, e)
  {
    assert [e][..0] == [];
  }

  lemma AfterTwo(s: System, a: Event, b: Event)
    ensures After(s, [a, b]) == Next(Next(s, a), b)
  {
    AfterOne(s, a);
    assert [a, b][..1] == [a];
  }

  lemma AfterThree(s: System, a: Event, b: Event, c: Event)
    ensures After(s, [a, b, c]) == Next(Next(Next(s, a), b), c)
  {
    AfterTwo(s, a, b);
    assert [a, b, c][..2] == [a, b];
  }

  /** A process that alone takes the listing and the append of a save, on a log that has not ended. */
  lemma SavesAlone(s: System, p: nat, env: Env)
    requires Ordered(s.log) && !Ended(s.log) && p < |s.processes| && s.processes[p].pc.Listing?
    ensures var process := s.processes[p];
      && Next(Next(s, Acts(p, env)), Acts(p, env))
         == System(s.log + [Checkpoint(|s.log| + 1, process.pc.job)],
                   s.processes[p := AfterSave(process.state, Some(process.pc.job), process.pc.next)])
  {
    var process := s.processes[p];
    OrderedGet(s.log);
    AppendKeepsOrder(s.log, process.pc.job, |s.log| + 1);
    assert Next(s, Acts(p, env)).processes[p].pc == Appending(process.pc.job, |s.log| + 1, process.pc.next);
    assert s.processes[p := process.(pc := Appending(process.pc.job, |s.log| + 1, process.pc.next))]
        [p := AfterSave(process.state, Some(process.pc.job), process.pc.next)]
        == s.processes[p := AfterSave(process.state, Some(process.pc.job), process.pc.next)];
  }

  ghost predicate StandsAt(log: seq<Checkpoint>, job: Job) {
    Ordered(log) && log != [] && log[|log| - 1].state == job
  }

  /** `job` is running, and phase `i` is the first one in the order that it has not done. */
  ghost predicate HasToDo(job: Job, i: nat) {
    && job.status == RUNNING && job.desired == TO_RUN && i < PHASES && PhaseAt(i) !in job.completed
    && forall k :: 0 <= k < i ==> PhaseAt(k) in job.completed
  }

  function Times(e: Event, n: nat): seq<Event> {
    if n == 0 then [] else Times(e, n - 1) + [e]
  }

  lemma PhaseIsEntered(log: seq<Checkpoint>, job: Job, i: nat, k: nat)
    requires StandsAt(log, job) && HasToDo(job, i) && k <= i
    ensures EnterPhase(log, job, k, false) == Process(job, if k < i then BeforePhase(k + 1) else Handling(i))
  {
    OrderedGet(log);
  }

  lemma PhaseIsLeft(log: seq<Checkpoint>, job: Job, latest: Job, i: nat, output: Output)
    requires StandsAt(log, latest) && !Ended(log) && latest.desired != TO_PAUSE && i < PHASES
    requires job == latest || job.version < latest.version
    ensures var saved := AdvancedJob(latest, i, output);
      LeavePhase(log, job, i, output) == Process(saved, Listing(saved, NextPhase(i + 1)))
  {
    OrderedGet(log);
  }

  lemma SectionIsTaken(s: System, p: nat, env: Env, process: Process)
    requires p < |s.processes| && Act(s.log, s.processes[p], env) == (s.log, process)
    ensures Next(s, Acts(p, env)) == System(s.log, s.processes[p := process])
  {
  }

  lemma {:induction false} TimesOnce(s: System, e: Event, n: nat)
    ensures After(s, Times(e, n + 1)) == Next(After(s, Times(e, n)), e)
  {
    assert Times(e, n + 1)[..|Times(e, n)|] == Times(e, n);
  }

  lemma ReplacedTwice<T>(a: seq<T>, p: nat, x: T, y: T)
    requires p < |a|
    ensures a[p := x][p := y] == a[p := y]
  {
  }

  /** A run that was called with the latest state goes past the phases that are done, to the handler of the next one. */
  lemma {:induction false} RunPassesDonePhases(s: System, p: nat, job: Job, i: nat, k: nat, env: Env)
    requires StandsAt(s.log, job) && HasToDo(job, i) && k <= i + 1 && !env.aborted
    requires p < |s.processes| && s.processes[p] == Process(job, BeforePhase(0))
    ensures After(s, Times(Acts(p, env), k))
            == System(s.log, s.processes[p := Process(job, if k <= i then BeforePhase(k) else Handling(i))])
  {
    if k == 0 {
      assert s.processes[p := Process(job, BeforePhase(0))] == s.processes;
    } else {
      RunPassesDonePhases(s, p, job, i, k - 1, env);
      TimesOnce(s, Acts(p, env), k - 1);
      PhaseIsEntered(s.log, job, i, k - 1);
      var before := System(s.log, s.processes[p := Process(job, BeforePhase(k - 1))]);
      var next := Process(job, if k <= i then BeforePhase(k) else Handling(i));
      SectionIsTaken(before, p, env, next);
      ReplacedTwice(s.processes, p, Process(job, BeforePhase(k - 1)), next);
    }
  }

  lemma RunComesToItsPhase(s: System, p: nat, job: Job, i: nat, env: Env)
    requires StandsAt(s.log, job) && HasToDo(job, i) && !env.aborted
    requires p < |s.processes| && s.processes[p] == Begin(Run(job))
    ensures After(s, Times(Acts(p, env), i + 1)) == System(s.log, s.processes[p := Process(job, Handling(i))])
  {
    RunPassesDonePhases(s, p, job, i, i + 1, env);
  }

  /** The handler returns and the phase is saved, before anything else happens. */
  lemma PhaseIsSaved(s: System, p: nat, job: Job, latest: Job, i: nat, output: Output)
    requires StandsAt(s.log, latest) && !Ended(s.log) && latest.desired != TO_PAUSE && i < PHASES
    requires !IsTerminal(latest.status) && (job == latest || job.version < latest.version)
    requires p < |s.processes| && s.processes[p] == Process(job, Handling(i))
    ensures var act, saved := Acts(p, Env(false, Done(output))), AdvancedJob(latest, i, output);
      After(s, [act, act, act]) == System(s.log + [Checkpoint(|s.log| + 1, saved)],
                                          s.processes[p := Process(saved, BeforePhase(i + 1))])
  {
    var env := Env(false, Done(output));
    var saved := AdvancedJob(latest, i, output);
    PhaseIsLeft(s.log, job, latest, i, output);
    SectionIsTaken(s, p, env, Process(saved, Listing(saved, NextPhase(i + 1))));
    AfterThree(s, Acts(p, env), Acts(p, env), Acts(p, env));
    SavesAlone(Next(s, Acts(p, env)), p, env);
    ReplacedTwice(s.processes, p, Process(saved, Listing(saved, NextPhase(i + 1))), Process(saved, BeforePhase(i + 1)));
  }

  /** The events are calls of `run` with the job as given, and sections of these calls. */
  ghost predicate AreSectionsOf(events: seq<Event>, calls: set<Call>, first: nat, env: Env) {
    forall k :: 0 <= k < |events| ==>
      (events[k].Begins? && events[k].call in calls) || (events[k].Acts? && events[k].p >= first && events[k].env == env)
  }

  lemma {:induction false} TimesAreSections(p: nat, n: nat, calls: set<Call>, first: nat, env: Env)
    requires first <= p
    ensures AreSectionsOf(Times(Acts(p, env), n), calls, first, env)
  {
    if n > 0 {
      TimesAreSections(p, n - 1, calls, first, env);
    }
  }

  ghost predicate RecordsTwice(log: seq<Checkpoint>, end: seq<Checkpoint>, job: Job, i: nat)
    requires i < PHASES
  {
    && |end| == |log| + 2 && log <= end
    && end[|log| + 1].state.completed == job.completed + [PhaseAt(i), PhaseAt(i)]
  }

  /** Two runs of one job that are both in the handler of a phase record that phase twice. */
  lemma BothRunsRecordThePhase(s: System, p: nat, q: nat, job: Job, i: nat, output: Output, calls: set<Call>, n: nat)
    returns (save: seq<Event>, saveToo: seq<Event>)
    requires StandsAt(s.log, job) && HasToDo(job, i) && p < |s.processes| && q < |s.processes| && p != q
    requires s.processes[p] == Process(job, Handling(i)) && s.processes[q] == Process(job, Handling(i))
    requires n <= p && n <= q
    ensures AreSectionsOf(save, calls, n, Env(false, Done(output))) && AreSectionsOf(saveToo, calls, n, Env(false, Done(output)))
    ensures RecordsTwice(s.log, After(After(s, save), saveToo).log, job, i)
  {
    var first, second := Acts(p, Env(false, Done(output))), Acts(q, Env(false, Done(output)));
    save, saveToo := [first, first, first], [second, second, second];
    PhaseIsSaved(s, p, job, job, i, output);
    PhaseIsSaved(After(s, save), q, job, AdvancedJob(job, i, output), i, output);
  }

  /** One more stretch of a run of the system. */
  lemma Continues(s: System, events: seq<Event>, more: seq<Event>, next: System, calls: set<Call>, first: nat, env: Env)
    returns (all: seq<Event>)
    requires AreSectionsOf(events, calls, first, env) && AreSectionsOf(more, calls, first, env)
    requires After(After(s, events), more) == next
    ensures AreSectionsOf(all, calls, first, env) && After(s, all) == next
  {
    AfterConcat(s, events, more);
    all := events + more;
  }

  /** A call of `run` with the latest state brings the run to the handler of the first phase to do. */
  lemma RunIsCalled(s: System, job: Job, i: nat, calls: set<Call>, first: nat, env: Env) returns (events: seq<Event>)
    requires StandsAt(s.log, job) && HasToDo(job, i) && !env.aborted && Run(job) in calls && first <= |s.processes|
    ensures AreSectionsOf(events, calls, first, env)
    ensures After(s, events) == System(s.log, s.processes + [Process(job, Handling(i))])
  {
    var n, begin := |s.processes|, [Begins(Run(job))];
    AfterOne(s, Begins(Run(job)));
    var begun := After(s, begin);
    RunComesToItsPhase(begun, n, job, i, env);
    TimesAreSections(n, i + 1, calls, first, env);
    assert begun.processes[n := Process(job, Handling(i))] == s.processes + [Process(job, Handling(i))];
    events := Continues(s, begin, Times(Acts(n, env), i + 1), System(s.log, s.processes + [Process(job, Handling(i))]),
                        calls, first, env);
  }

  /** Two calls of `run` with the latest state get there: whatever has been done, the next phase to do is done twice. */
  lemma TwoRunsRecordAPhaseTwice(s: System, job: Job, i: nat, output: Output) returns (events: seq<Event>)
    requires StandsAt(s.log, job) && HasToDo(job, i)
    ensures AreSectionsOf(events, {Run(job)}, |s.processes|, Env(false, Done(output)))
    ensures RecordsTwice(s.log, After(s, events).log, job, i)
  {
    var env, n := Env(false, Done(output)), |s.processes|;
    events := RunIsCalled(s, job, i, {Run(job)}, n, env);
    var one := After(s, events);
    var more := RunIsCalled(one, job, i, {Run(job)}, n, env);
    var two := After(one, more);
    var save, saveToo := BothRunsRecordThePhase(two, n, n + 1, job, i, output, {Run(job)}, n);
    events := Continues(s, events, more, two, {Run(job)}, n, env);
    var three := After(two, save);
    events := Continues(s, events, save, three, {Run(job)}, n, env);
    events := Continues(s, events, saveToo, After(three, saveToo), {Run(job)}, n, env);
  }

  lemma LatePauseIsSaved(s: System, job: Job, env: Env)
    requires Ordered(s.log) && !Ended(s.log) && job.status == RUNNING
    ensures var p := Acts(|s.processes|, env);
      After(s, [Begins(Pause(job)), p, p]).log == s.log + [Checkpoint(|s.log| + 1, PausedJob(job))]
  {
    var p := Acts(|s.processes|, env);
    AfterThree(s, Begins(Pause(job)), p, p);
    SavesAlone(Next(s, Begins(Pause(job))), |s.processes|, env);
  }

  /** The log has got one more checkpoint with phase `i` done, and after it the pause of the job without it. */
  ghost predicate TakesBack(log: seq<Checkpoint>, end: seq<Checkpoint>, job: Job, i: nat)
    requires i < PHASES
  {
    && |end| == |log| + 2 && log <= end
    && end[|log|].state.completed == job.completed + [PhaseAt(i)]
    && end[|log| + 1].state == PausedJob(job)
  }

  lemma LatePauseTakesBack(s: System, p: nat, job: Job, i: nat, output: Output, calls: set<Call>, n: nat)
    returns (save: seq<Event>, late: seq<Event>)
    requires StandsAt(s.log, job) && HasToDo(job, i) && p < |s.processes| && s.processes[p] == Process(job, Handling(i))
    requires n <= p && Pause(job) in calls
    ensures AreSectionsOf(save, calls, n, Env(false, Done(output))) && AreSectionsOf(late, calls, n, Env(false, Done(output)))
    ensures TakesBack(s.log, After(After(s, save), late).log, job, i)
  {
    var env := Env(false, Done(output));
    var run, pause := Acts(p, env), Acts(|s.processes|, env);
    save, late := [run, run, run], [Begins(Pause(job)), pause, pause];
    PhaseIsSaved(s, p, job, job, i, output);
    LatePauseIsSaved(After(s, save), job, env);
  }

  /**
   A pause asked for with the job as it stood before its next phase was saved takes that phase back: the run saves the
   phase, and the pause after it has the job without it.
   */
  lemma StalePauseTakesAPhaseBack(s: System, job: Job, i: nat, output: Output) returns (events: seq<Event>)
    requires StandsAt(s.log, job) && HasToDo(job, i)
    ensures AreSectionsOf(events, {Run(job), Pause(job)}, |s.processes|, Env(false, Done(output)))
    ensures TakesBack(s.log, After(s, events).log, job, i)
  {
    var env, n, calls := Env(false, Done(output)), |s.processes|, {Run(job), Pause(job)};
    events := RunIsCalled(s, job, i, calls, n, env);
    var one := After(s, events);
    var save, late := LatePauseTakesBack(one, n, job, i, output, calls, n);
    var two := After(one, save);
    events := Continues(s, events, save, two, calls, n, env);
    events := Continues(s, events, late, After(two, late), calls, n, env);
  }

  /** The start of a job leads to a log that stands at it, with its first phase to do. */
  lemma StartStandsAt(env: Env)
    ensures var s := After(System([], []), [Begins(Start(InitialJob())), Acts(0, env), Acts(0, env)]);
      StandsAt(s.log, InitialJob()) && HasToDo(InitialJob(), 0) && |s.processes| == 1
  {
    var begun := Next(System([], []), Begins(Start(InitialJob())));
    AfterThree(System([], []), Begins(Start(InitialJob())), Acts(0, env), Acts(0, env));
    SavesAlone(begun, 0, env);
  }
}
