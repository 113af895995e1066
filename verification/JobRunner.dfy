/**
 The store of checkpoints and the job runner as objects: each method is what happens between two awaits, and changes the
 log and the processes exactly as the step system says.
 */
module JobRunner {
  import opened AnalysisJobs
  import opened Wrappers

  class JobStore {
    var log: seq<Checkpoint>

    constructor ()
      ensures log == []
    {
      log := [];
    }

    /** The terminal checkpoint that decides, if there is one. */
    method FindDeciding() returns (deciding: Option<Checkpoint>)
      ensures deciding == Deciding(log)
    {
      deciding := None;
      for i := 0 to |log|
        invariant deciding == Deciding(log[..i])
      {
        assert log[..i + 1][..i] == log[..i];
        var c := log[i];
        if IsTerminal(c.state.status)
           && (deciding == None || c.sequence < deciding.value.sequence
               || (c.sequence == deciding.value.sequence && Rank(c.state.status) < Rank(deciding.value.state.status))) {
          deciding := Some(c);
        }
      }
      assert log[..|log|] == log;
    }

    method FindNewest() returns (newest: Option<Checkpoint>)
      ensures newest == Newest(log)
    {
      newest := None;
      for i := 0 to |log|
        invariant newest == Newest(log[..i])
      {
        assert log[..i + 1][..i] == log[..i];
        if newest == None || log[i].sequence > newest.value.sequence {
          newest := Some(log[i]);
        }
      }
      assert log[..|log|] == log;
    }

    method CurrentSequence() returns (sequence: nat)
      ensures sequence == MaxSequence(log)
    {
      sequence := 0;
      for i := 0 to |log|
        invariant sequence == MaxSequence(log[..i])
      {
        assert log[..i + 1][..i] == log[..i];
        if log[i].sequence > sequence {
          sequence := log[i].sequence;
        }
      }
      assert log[..|log|] == log;
    }

    method AppendCheckpoint(job: Job, requested: nat) returns (answer: Option<Job>)
      modifies this
      ensures (log, answer) == Append(old(log), job, requested)
    {
      var terminal := FindDeciding();
      if terminal.Some? {
        return Some(terminal.value.state);
      }
      var current := CurrentSequence();
      if requested != current + 1 && job.status != CANCELLED {
        var newest := FindNewest();
        return if newest.Some? then Some(newest.value.state) else None;
      }
      log := log + [Checkpoint(current + 1, job)];
      answer := Some(job);
    }

    method GetJob() returns (job: Option<Job>)
      ensures job == Get(log)
    {
      var terminal := FindDeciding();
      if terminal.Some? {
        return Some(terminal.value.state);
      }
      var newest := FindNewest();
      return if newest.Some? then Some(newest.value.state) else None;
    }
  }

  class Runner {
    const store: JobStore
    var processes: seq<Process>

    ghost function State(): System
      reads this, store
    {
      System(store.log, processes)
    }

    constructor (store: JobStore)
      ensures this.store == store && processes == []
    {
      this.store := store;
      processes := [];
    }

    method StartCall(call: Call)
      modifies this
      ensures State() == Next(old(State()), Begins(call))
    {
      processes := processes + [Begin(call)];
    }

    /** The next section of process `p`. */
    method Section(p: nat, env: Env)
      requires p < |processes|
      modifies this, store
      ensures State() == Next(old(State()), Acts(p, env))
    {
      var process := processes[p];
      match process.pc {
        case BeforePhase(i) =>
          if i < PHASES {
            process := EnterPhaseSection(process.state, i, env.aborted);
          } else {
            process := ConcludeSection(process.state);
          }
        case Handling(i) =>
          if env.outcome.Throws? || i >= PHASES {
            process := process.(pc := Threw);
          } else {
            process := LeavePhaseSection(process.state, i, env.outcome.output);
          }
        case Listing(job, next) =>
          var terminal := store.FindDeciding();
          if terminal.Some? {
            process := AfterSave(process.state, Some(terminal.value.state), next);
          } else {
            var current := store.CurrentSequence();
            process := process.(pc := Appending(job, current + 1, next));
          }
        case Appending(job, requested, next) =>
          var answer := store.AppendCheckpoint(job, requested);
          process := AfterSave(process.state, answer, next);
        case FailReading(error) =>
          process := FailSection(process.state, error);
        case _ =>
      }
      processes := processes[p := process];
    }

    method EnterPhaseSection(local: Job, i: nat, aborted: bool) returns (p: Process)
      requires i < PHASES
      ensures p == EnterPhase(store.log, local, i, aborted)
    {
      var state := local;
      var latest := store.GetJob();
      if IsNewer(latest, state) {
        state := latest.value;
      }
      if IsTerminal(state.status) {
        return Process(state, Returned(Some(state)));
      }
      if PhaseAt(i) in state.completed {
        return Process(state, BeforePhase(i + 1));
      }
      if aborted || state.desired == TO_PAUSE {
        return Process(state, Listing(PausedJob(state), Return));
      }
      p := Process(state, Handling(i));
    }

    method LeavePhaseSection(local: Job, i: nat, output: Output) returns (p: Process)
      requires i < PHASES
      ensures p == LeavePhase(store.log, local, i, output)
    {
      var state := local;
      var latest := store.GetJob();
      if IsNewer(latest, state) {
        if latest.value.status == CANCELLED || latest.value.status == FAILED {
          return Process(state, Returned(latest));
        }
        if latest.value.desired == TO_PAUSE {
          var paused := latest.value.(status := PAUSED, version := latest.value.version + 1);
          return Process(state, Listing(paused, Return));
        }
        state := latest.value;
      }
      state := AdvancedJob(state, i, output);
      p := Process(state, Listing(state, NextPhase(i + 1)));
    }

    method ConcludeSection(local: Job) returns (p: Process)
      ensures p == Conclude(store.log, local)
    {
      var latest := store.GetJob();
      if IsNewer(latest, local) && (latest.value.status == CANCELLED || latest.value.status == FAILED) {
        return Process(local, Returned(latest));
      }
      p := Process(local, Listing(CompletedJob(local), Return));
    }

    method FailSection(local: Job, error: Error) returns (p: Process)
      ensures p == FailLatest(store.log, local, error)
    {
      var job := local;
      var latest := store.GetJob();
      if latest.Some? && (latest.value.status == CANCELLED || latest.value.status == COMPLETED) {
        return Process(local, Returned(latest));
      }
      if IsNewer(latest, job) {
        job := latest.value;
      }
      p := Process(job, Listing(FailedJob(job, error), Return));
    }

    /** Any script of calls and sections keeps the first terminal state. */
    method Script(events: seq<Event>)
      requires Ordered(store.log)
      modifies this, store
      ensures State() == After(old(State()), events)
      ensures Ordered(store.log) && old(store.log) <= store.log && (Ended(old(store.log)) ==> store.log == old(store.log))
    {
      for k := 0 to |events|
        invariant State() == After(old(State()), events[..k])
      {
        assert events[..k + 1][..k] == events[..k];
        match events[k]
        case Begins(call) => StartCall(call);
        case Acts(p, env) =>
          if p < |processes| {
            Section(p, env);
          }
      }
      assert events[..|events|] == events;
      FirstTerminalWins(old(State()), events);
    }
  }
}
