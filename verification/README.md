# Traqen evidence pipeline: a verified model

This project models the parts of Traqen that decide what work is done, what of it is reused, and what is shown: the
checkpointed job protocol, incremental analysis, planning, candidate merging, graph projection, the scanners over text
and bytes, accounts and sessions, and the two bounded-concurrency helpers. Properties are stated over all inputs and,
for the protocols, over every run and every interleaving of the sections between awaits.

| module | models |
|---|---|
| `Graphs`, `Distances`, `Sorting`, `Wrappers` | shared notions: walks, reachability, shortest distances, stable sorting, optional values |
| `AnalysisJobs`, `JobCalls`, `SingleRunner`, `JobPauses`, `JobRunner` | the seven-phase workspace analysis job over its checkpoint log |
| `AnalysisExecution`, `AnalysisRuns` | resumable execution of an analysis run with retries, limits, aborts, crashes and refused results |
| `FactGraphs`, `FactNeighborhood`, `IncrementalSelection` | budgeted neighbourhoods, fingerprints, selective re-analysis |
| `CandidateMerge` | merging candidates by key, per work unit and across units |
| `UnderstandingPlans`, `UnderstandingPlanner`, `IncrementalUnderstanding`, `UnderstandingIncrements` | partitions, work units and the closure over their dependencies |
| `MergeComponents`, `MergeAdmission` | review of the main producer's output, merge components, admission with evidence |
| `GraphArtifacts`, `LegacyProjection`, `ImpactAssessment`, `FeatureLineage` | projection by distance, impact of a publication, acyclic lineage |
| `JsonFragment` | the first JSON value in free text |
| `Utf8`, `SourceSlices` | windows of whole characters and the byte budget of source slices |
| `Accounts`, `AccountCalls`, `AccountServices`, `LoginLimiter` | accounts, sessions, credentials, and the login rate limit |
| `PasswordPermits`, `WorkerPool` | permits of password derivation, mapping with a bounded number of workers |

Conventions. Identifiers built by content hashing are either opaque values or the result of an injective naming function.
Sorted arrays without duplicates are sets where only membership matters. Comparisons by locale are parameters. What the
outside decides (handler results, abort signals, whether a password matches, clock readings, random tokens, redaction,
JSON parsing) is a parameter or part of an event.

Findings about the code, each stated as a lemma with the exact condition under which the code does meet the property:

- A pause between a job run's listing of the log and its append makes the store refuse the append, and the phase is
  lost. In the last phase the job is then completed without that phase's output, whether or not the pause also aborts
  the run's signal (`SingleRunner.PauseLosesTheLastPhase`). In an earlier one, a resumption before the run's next read
  makes it skip the phase (`SingleRunner.ResumptionSkipsAPhase`). The second variant is one of the runner class: the
  runtime in `legacy-understanding-runtime.js` aborts the signal on a pause, so that its run saves a pause instead
  (`SingleRunner.AbortedRunSkipsNothing`), and starts a second run on a resumption. `SingleRunner.InStep` is the condition
  under which neither can happen, and `SingleRunner.OutOfStepBreaksTheOrder` shows that nothing weaker would do.
- A pause that lands after the second read of a phase and before the listing of the log for its save is overwritten: the
  phase is saved and the run goes on as if it had not been paused. `JobPauses.KeepsPause` names the sections in which a
  pause is kept, and `JobPauses.PauseIsKeptExactly` shows that it is kept in these only. (With its signal aborted, as the
  runtime leaves it, the run pauses before the next phase all the same.)
- A failure that is reported while another call appends to the log is lost: the store refuses its checkpoint, and the job
  stays as the other call left it. A failure is saved exactly if nothing is appended between its listing of the log and
  its append (`JobCalls.FailureIsSavedExactly`, `JobCalls.FailureIsLost`); a cancellation is saved all the same.
- Two simultaneous runs record a phase twice, and a pause asked for with an older state of the job takes a phase back;
  both from any state of a running job, by calls alone.
- An aborted attempt leaves a work unit queued, and the run may still end. A call that ends the run leaves no unit queued
  exactly if no attempt of that call itself was aborted, whatever was aborted before.
- A call that appends the result of a run, and crashes or fails to save the checkpoint after it, leaves a run that never
  ends if the clock reads differently from then on: the result of each later call is refused as another one. With
  producers that never abort and enough undisturbed calls a run has ended exactly if this has not happened, or a later
  call with the same readings got through (`AnalysisRuns.RunEnds`); `AnalysisRuns.LaterCallsAreRefused` gives the input.
- The fingerprint of a fact graph sees every change of an edge's content exactly if no two edges share subject, predicate
  and object.
- The design details of merged candidates depend on how candidates are grouped; everything else of a merge does not. They
  agree exactly if for each detail the last later unit that speaks of it does so through a model's candidate, or has for
  it what the flat merge of the units before shows; so they do where the candidates of each later unit begin with a
  model's.
- The login limiter lets at most 19 password checks per login name through in any span of 900000 ms, not 20, and 19 is
  reached.
- A slice request whose range ends beyond its artifact is reported as truncated although nothing is withheld
  (`SourceSlices.FlaggedThoughComplete`).
- Two overlapping requests to record a lineage can make a cycle, as neither the service between its read and its append
  nor the store checks again. The history stays acyclic exactly if no append finds its predecessor reachable from its
  successor by then, and so whenever nothing is recorded between a request's read and its append.
- Entering a recovery initializes an instance that was never initialized, and leaves nobody in it. There is an
  administrator exactly if one was made by an initialization or trusted in a recovery, and always outside recovery.
- A reused unit need not have existed in the previous plan: a partition's unit did exactly if its group had the same
  artifacts in the same places.
- A mapper that rejects with a value that counts as false makes the bounded mapping succeed with a hole in its results,
  even if another value failed before with an error that does not.

## Model

| member | source | states |
|---|---|---|
| AnalysisJobs.AppendKeepsOrder | src/storage/memory-traceability-store.js:1709-1742 | The store's append keeps sequences counting up from one and nothing after a terminal checkpoint; it appends exactly the next sequence or a cancellation, and otherwise answers with what stands |
| AnalysisJobs.OrderedGet | src/application/workspace-analysis-job-runner.js:130-140 | On every such log, `get` answers the last checkpoint's state, and the deciding terminal checkpoint is the last one if it is terminal |
| AnalysisJobs.FirstTerminalWins | src/application/workspace-analysis-job-runner.js:96-140 | Over every interleaving of any number of start, run, pause, resume, cancel and fail calls: the log only grows, sequences increase, and once a terminal checkpoint is in it neither the log nor what `get` answers changes again |
| AnalysisJobs.SavesAfterTheEndAnswerIt | src/application/workspace-analysis-job-runner.js:96-105 | A save attempted after the end appends nothing and its caller gets the terminal state |
| JobCalls.CallIsRefusedExactly | src/application/workspace-analysis-job-runner.js:153-271 | A pause is refused unless the job is running, a resumption unless it is paused, a cancellation exactly if it has ended; otherwise what is asked for is the job with its new status, one version on, and its work as it was |
| JobCalls.CallIsSaved | src/application/workspace-analysis-job-runner.js:96-128 | Whatever other calls append between its listing of the log and its append: a start, pause or resumption is saved exactly if nothing was appended and the log has not ended, a cancellation exactly if it has not ended; what is not saved is answered with what stands |
| JobCalls.CancellationStays | src/application/workspace-analysis-job-runner.js:258-271 | A cancellation that is not refused appends the job as cancelled, with its work and error as they were, unless the log has ended by then; `get` answers it after any further events |
| JobCalls.FailureReads | src/application/workspace-analysis-job-runner.js:240-256 | A failure leaves a cancelled or completed job alone; otherwise the newer of the two jobs is to be saved as failed, with the error and its work |
| JobCalls.FailureIsSavedExactly | src/application/workspace-analysis-job-runner.js:240-256 | It is saved exactly if nothing is appended between its listing and its append, and is then answered for good |
| JobCalls.FailureIsLost | src/application/workspace-analysis-job-runner.js:96-128 | The input: a pause between the listing and the append of a failure leaves the job paused |
| JobCalls.RunStopsAtTheEnd | src/application/workspace-analysis-job-runner.js:153-205 | A run that reads a newer end of the job returns it: it starts no handler and saves nothing |
| JobCalls.CompletionIsAskedFor | src/application/workspace-analysis-job-runner.js:199-213 | After the last phase a run returns a newer cancellation or failure, and otherwise asks to save its job as completed, with its work as it is |
| JobCalls.GetAnswers | src/application/workspace-analysis-job-runner.js:130-140 | In any log, ordered or not, a terminal checkpoint that comes before every other one decides, and without one a checkpoint of the highest sequence |
| AnalysisJobs.StartStandsAt | src/application/workspace-analysis-job-runner.js:60-95 | Starting a job leads to a state in which its first phase is to do |
| AnalysisJobs.TwoRunsRecordAPhaseTwice | src/application/workspace-analysis-job-runner.js:171-198 | From any state of a running job and whatever other calls there are, two calls of `run` and sections of theirs record the next phase to do twice |
| AnalysisJobs.StalePauseTakesAPhaseBack | src/application/workspace-analysis-job-runner.js:216-226 | From any such state, a run that saves the next phase and a pause asked for with the job as it stood before leave that phase undone in the latest state |
| SingleRunner.WorkStaysInOrder | src/application/workspace-analysis-job-runner.js:153-256 | With one run at a time and in-step control calls on the latest checkpoint: completed phases are always the first ones of the order, outputs are exactly theirs, `phase` is the next one, work never shrinks, and a completed job has all seven |
| SingleRunner.MoveKeepsStep | src/application/workspace-analysis-job-runner.js:153-271 | Each section of the run and each start, pause, resume, cancel and failure keeps the run in step with its log |
| SingleRunner.OutOfStepBreaksTheOrder | src/application/workspace-analysis-job-runner.js:96-128 | Conversely, after any pause or resumption that is out of step and not refused, the undisturbed run saves a checkpoint whose work is out of order |
| SingleRunner.PauseLosesTheLastPhase | src/application/workspace-analysis-job-runner.js:188-214 | From the start of a job: one pause while the last phase is being saved completes the job without it |
| SingleRunner.ResumptionSkipsAPhase | src/application/workspace-analysis-job-runner.js:171-198 | From the start of a job: one pause while any other phase is being saved, and one resumption before the run's next read, put its work out of order |
| SingleRunner.AbortedRunSkipsNothing | src/application/workspace-analysis-job-runner.js:171-185 | With its signal aborted, a run stores a pause with the work as it stands before any phase that is not done, and returns, even if it has lost a save |
| JobPauses.PauseIsKeptExactly | src/application/workspace-analysis-job-runner.js:171-214 | An in-step pause of a running job is kept exactly unless the run is about to list the log for a phase or its completion, or no phase is left to do; in the other sections the run, going on undisturbed, completes the job |
| JobPauses.PauseBeforeListing | src/application/workspace-analysis-job-runner.js:175-198 | A pause between the second read and the listing is overwritten by the next checkpoint, the running job with one more phase |
| JobPauses.RunsAgree | src/application/workspace-analysis-job-runner.js:153-271 | In every run in step, status and desired state of all checkpoints and of what is about to be saved agree |
| SingleRunner.PauseDuringHandlerIsHonoured | src/application/workspace-analysis-job-runner.js:173-186 | A pause while a handler is at work is kept: the run records no phase, saves a pause and returns |
| SingleRunner.UndisturbedRunCompletes | src/application/workspace-analysis-job-runner.js:153-214 | A run that nothing disturbs completes the job, keeps the outputs there were, and records for every other phase what its handler returned |
| SingleRunner.CallLatestIsItsSections | src/application/workspace-analysis-job-runner.js:216-271 | A control call of the runner in one step is its own sections with nothing in between, in the general system |
| JobRunner.JobStore.AppendCheckpoint | src/storage/memory-traceability-store.js:1709-1742 | The append as loops over the records: new log and answer as specified |
| JobRunner.JobStore.GetJob | src/application/workspace-analysis-job-runner.js:130-140 | The least terminal checkpoint if there is one, else the newest, found by loops |
| JobRunner.Runner.Section | src/application/workspace-analysis-job-runner.js:153-271 | What happens between two awaits of a call changes log and call exactly as the step system says |
| JobRunner.Runner.Script | src/application/workspace-analysis-job-runner.js:153-271 | Any script of calls and sections keeps the first terminal state |
| AnalysisExecution.SettledIsFinal | src/analysis/analysis-agent.js:748-818 | A settled work unit is what the first successful attempt, or the last allowed failure, makes of it |
| AnalysisExecution.AttemptHolds | src/analysis/analysis-agent.js:749-818 | One attempt with its two saves, possibly cut off by a crash, keeps the checkpoint sound and counted |
| AnalysisExecution.AttemptIsRecorded | src/analysis/analysis-agent.js:749-818 | An attempt leaves a unit queued exactly if it was aborted or errored after the signal, failed exactly if it errored without the signal, and completed, with what was produced, exactly if it produced; no other unit changes |
| AnalysisRuns.CallKeeps | src/analysis/analysis-agent.js:689-867 | Whatever a call finds, it keeps completed + failed + queued = planned at the end, completes at most its limit of units, makes progress if nothing disturbs it and it neither ends nor is refused, appends one result at most, and saves none but the one appended; it pauses before the first unit at which its signal is aborted or its limit is reached, or where a unit can be retried, and otherwise passes over every unit |
| AnalysisRuns.AnalysisRun.RunUnit | src/analysis/analysis-agent.js:749-818 | The two saves of an attempt, as specified |
| AnalysisRuns.AnalysisRun.AppendResult | src/analysis/analysis-agent.js:650-656 | A result is appended once; another one under the same run is refused |
| AnalysisRuns.AnalysisRun.Execute | src/analysis/analysis-agent.js:689-867 | The loops make of the repository what the specified call does, and keep what it keeps: an undisturbed unlimited call ends exactly if nothing is left to retry and no other result was appended; one that ends has attempted each unsettled unit once, and completed + failed = planned exactly if none of these attempts aborted, or errored after the signal |
| AnalysisRuns.RunEnds | src/analysis/analysis-agent.js:742-867 | However a run is split over calls, paused and crashed: with producers that never abort and more undisturbed calls than attempts it has ended exactly if no call stopped between appending the result and saving the checkpoint, or a later call with the same clock readings got through |
| AnalysisRuns.EndedRunIsFinal | src/analysis/analysis-agent.js:742-867 | A run that has ended has the units, and the result of the units, that an uninterrupted run would have, with completed + failed = planned |
| AnalysisRuns.LostSaveStays | src/analysis/analysis-agent.js:832-866 | After a save that was lost the units and the appended result stay as they are, and the run ends exactly if a later call with the same readings gets through |
| AnalysisRuns.LaterCallsAreRefused | src/analysis/analysis-agent.js:839-865 | The input: one unit, a crash between append and save, and undisturbed calls at other times; each of them is refused, and the run never ends |
| AnalysisRuns.RunSchedule | src/analysis/analysis-agent.js:689-867 | The calls of a schedule, made one after the other, do what is said of them |
| AnalysisExecution.QueuedExactlyIfAborted | src/analysis/analysis-agent.js:742-828 | After a pass over every unit, one is left queued exactly if an attempt of that pass was aborted |
| AnalysisRuns.AbortedRunStillEnds | src/analysis/analysis-agent.js:809-828 | An instance: if every attempt aborts, one unlimited call ends the run as completed with all units queued |
| Graphs.BallIsWalks | src/analysis/analysis-agent.js:120-145 | A node is in the ball of radius n, by which neighbourhoods, projections and reachability are stated, exactly if a walk of at most n edges leads to it |
| FactGraphs.GraphIndexes | src/analysis/analysis-agent.js:106-118 | The node map and the adjacency lists: for every node the ends of edges that are its own, in the edges' order |
| FactGraphs.HopsAreEnds | src/analysis/analysis-agent.js:106-118 | These lists lead over exactly the edges at the node to their other ends |
| FactGraphs.HopsCost | src/analysis/analysis-agent.js:106-118 | Together they cost each edge once for every end of it at the node |
| FactNeighborhood.BoundedNeighborhood | src/analysis/analysis-agent.js:120-145 | Terminates; reports at most the budget or the root's cost and at least the cost of what it chose; chooses only nodes joined to the root by at most the depth's number of chosen edges; refuses nothing exactly if the whole neighbourhood, each edge counted from every nearer end, fits the budget or is the root alone; and then is exactly the ball of that radius with the edges that touch it, at exactly that cost |
| IncrementalSelection.CounterpartEdge | src/analysis/analysis-agent.js:171-200 | Where no identifier at an edge has changed, the other graph has an edge with the same key, and with the same content if keys are distinct |
| IncrementalSelection.PlanWorkUnits | src/analysis/analysis-agent.js:202-254 | One unit per root, of which the plan keeps the selected ones and counts the others; the mode is full exactly if it was asked for, or left to the agent without a baseline |
| IncrementalSelection.PlannedExactly | src/analysis/analysis-agent.js:195-254 | Since a baseline with the fingerprint of another graph, the planned units are, in the order of the roots, exactly those with a node or edge whose identifier stands for an entry that differs, and all of them in full mode; the others are counted |
| IncrementalSelection.UnchangedExactly | src/analysis/analysis-agent.js:171-200 | With distinct keys no entry at some nodes differs exactly if the two graphs agree about each of these nodes and about the edges at it |
| IncrementalSelection.EverythingIsPlanned | src/analysis/analysis-agent.js:244-246 | In full mode, and without the fingerprint of a baseline in any mode, every unit is planned |
| IncrementalSelection.SkippedUnitIsUnchanged | src/analysis/analysis-agent.js:202-254 | A skipped unit has in the baseline graph, from the same root, the same nodes with the same content and the same relations, and the same edge content where edge keys are distinct |
| IncrementalSelection.UnplannedRootIsUnchanged | src/analysis/analysis-agent.js:202-254 | A root whose unit a plan leaves out has in the baseline graph the same nodes, relations and content, if its whole neighbourhood fits the budget in both graphs |
| IncrementalSelection.FingerprintSeesEveryEdge | src/analysis/analysis-agent.js:171-179 | The fingerprint sees every change of an edge's content exactly if no two edges share a key |
| CandidateMerge.FoldClosedForm | src/analysis/analysis-agent.js:387-409 | Merged candidates of a key have their lowest cap, their highest confidence below it, and all their evidence |
| CandidateMerge.FoldTexts | src/analysis/analysis-agent.js:402-405 | Name and description are those of the last model's candidate after the first one, and without one the first candidate's |
| CandidateMerge.FoldDetail | src/analysis/analysis-agent.js:402-406 | Each detail of the design is what the last candidate of a model that speaks of it says, and failing that the first candidate |
| CandidateMerge.FoldLists | src/analysis/analysis-agent.js:395-398 | Producers are listed one after the other, and uncertainties each once |
| CandidateMerge.UniqIsFirstOccurrences | src/analysis/analysis-agent.js:398 | What is listed once is listed where it first occurs |
| CandidateMerge.ConfidenceIsCappedMaximum | src/analysis/analysis-agent.js:398-404 | The confidence is the capped maximum exactly unless a lone candidate exceeds its own cap |
| CandidateMerge.FoldIsOrderFree | src/analysis/analysis-agent.js:387-409 | Cap, confidence and evidence do not depend on the order of the candidates |
| CandidateMerge.MergeIsAssociative | src/analysis/analysis-agent.js:387-409 | Merging is associative on everything but the design, and on the design exactly if the middle candidate has a model, the last has none, or what only the middle one says stands in the first |
| CandidateMerge.MergeCandidates | src/analysis/analysis-agent.js:387-409 | One candidate per key, the fold of its candidates, sorted by mode and name |
| CandidateMerge.MergeOfMergesIsFlat | src/analysis/analysis-agent.js:805-830 | Merging the merged outputs of the units has for each key the candidate of one flat merge of all candidates, apart from the design; with the same design exactly if the units agree on every detail |
| CandidateMerge.DesignsAgree | src/analysis/analysis-agent.js:398-406 | For the candidates of one key, grouped in any way: the fold of the folds is the flat fold exactly if no detail leaks that the groups before do not show |
| CandidateMerge.ModelsFirstIsFlat | src/analysis/analysis-agent.js:805-830 | Where the candidates of each later unit begin with a model's, or none is a model's, the two merges hold the same candidates, design included |
| CandidateMerge.DesignDependsOnGrouping | src/analysis/analysis-agent.js:398-406 | Three candidates for which the designs of the two merges differ |
| UnderstandingPlans.PartitionArtifacts | src/analysis/understanding-planner.js:42-74 | The partitions of each lane and module are exactly the chunks of `max` of its artifacts in the order of the inventory, numbered in order; all partitions together hold the inventory |
| UnderstandingPlans.FirstKindDecides | src/analysis/understanding-planner.js:11-14 | The lane is that of the first kind that has one, and that of sources exactly if none has |
| UnderstandingPlans.ModuleIsPrefix | src/analysis/understanding-planner.js:16-23 | The module of a path is what comes before its first slash, or before the second one exactly if there is one and the first directory holds many modules; that of a path without a slash is a dot |
| UnderstandingPlans.ModuleForIsEmpty | src/analysis/understanding-planner.js:16-23 | A module name is empty only for a path that begins with a slash |
| UnderstandingPlanner.ArtifactHasOnePartition | src/analysis/understanding-planner.js:53-74 | With distinct identifiers every artifact is in exactly one partition, of its own lane and module |
| UnderstandingPlanner.GuardIsDistinctness | src/analysis/understanding-planner.js:110-114 | The final guard fires exactly if two artifacts of the inventory share an identifier |
| UnderstandingPlanner.CreateUnderstandingPlan | src/analysis/understanding-planner.js:25-133 | Planned exactly for an allowed partition size and distinct identifiers; the units are the leaves, one synthesis per module with sources over exactly its leaves, and the project over exactly the modules; identifiers are distinct and dependencies come first |
| UnderstandingPlanner.PlannedDependenciesComeFirst | src/analysis/understanding-planner.js:75-109 | Every dependency of a planned unit is an earlier unit |
| UnderstandingPlanner.DependenciesAreAcyclic | src/analysis/understanding-planner.js:75-109 | No unit is reached again from a unit that depends on it |
| UnderstandingPlanner.FollowUpKeepsTheOrder | src/analysis/understanding-planner.js:134-150 | A follow-up is appended exactly within depth and budget and under an existing parent, and keeps the order of work |
| IncrementalUnderstanding.CompareSnapshots | src/application/incremental-understanding.js:3-17 | Each added, removed or modified path is reported once, and nothing else, in the order of the paths |
| IncrementalUnderstanding.SpreadOverDependents | src/application/incremental-understanding.js:73-95 | The worklist over dependents yields a closed set within every closed set that holds the seeds |
| IncrementalUnderstanding.PlanIncrementalUnderstanding | src/application/incremental-understanding.js:19-120 | Affected are exactly the units that depend, directly or not, on a holder of a change, a revalidated unit or a removal's module or project; reused is the exact complement; refusals exactly for a missing head and for wrong revalidation identifiers |
| UnderstandingIncrements.AffectedExactly | src/application/incremental-understanding.js:32-95 | Between two plans of the planner a unit is affected, and not reused, exactly if it was named or everything is to be redone; or it is that of a partition with a changed artifact; or the synthesis of a module that something was removed from or that has such a partition with sources; or the project's, and some module's is, or something was removed from a module without sources now |
| UnderstandingIncrements.RetiredExactly | src/application/incremental-understanding.js:45-63 | Retired are exactly, for each removal, the previous unit of the partition that held the artifact, and the previous synthesis of its module if the artifact was included |
| IncrementalUnderstanding.ReusedDependOnReused | src/application/incremental-understanding.js:73-95 | No reused unit depends on an affected one |
| IncrementalUnderstanding.LeafExistedBefore | src/analysis/understanding-planner.js:53-82 | Between two plans of the same planner, the unit of a partition existed before exactly if its group had the same artifacts in the same places |
| IncrementalUnderstanding.ReusedNeedNotHaveExisted | src/application/incremental-understanding.js:34-95 | The input: after the removal of a group's first artifact none of its units existed before, and those that hold no changed artifact are reused |
| IncrementalUnderstanding.ChangeReachesProject | src/application/incremental-understanding.js:42-95 | Between planner's plans, every removal, and every addition or modification of an artifact now included, has the project synthesis done again |
| MergeComponents.MergeComponentsByRef | src/application/legacy-understanding-runtime.js:302-330 | On decisions whose MERGEs relate only to MERGEs, each MERGE reference gets its class of the reflexive, symmetric and transitive closure of the related references |
| MergeComponents.ClassesAreDisjoint | src/application/legacy-understanding-runtime.js:302-330 | Two components with a member in common are equal |
| MergeAdmission.ValidateMainOutput | src/application/legacy-understanding-runtime.js:332-396 | Passes exactly the outputs that decide every sibling once, relate only known siblings, merge only with merges, propose only for merges, and propose the same throughout each component |
| MergeAdmission.AdmitCandidates | src/application/legacy-understanding-runtime.js:1442-1499 | Every reference that is not rejected is in exactly one candidate, one per component or single reference, with exactly the union of its members' evidence and the content they agreed on |
| MergeAdmission.EvidenceIsConserved | src/application/legacy-understanding-runtime.js:1458-1463 | A fact or slice is evidence of an admitted candidate exactly if it is evidence of a reference that was not rejected |
| LegacyProjection.FeatureOwnership | src/application/traceability-application.js:158-191 | A node is owned by its explicit owners, or else by the features it is reachable from without passing another feature |
| LegacyProjection.ShortestDistances | src/application/traceability-application.js:349-365 | The search finds exactly the nodes within `depth` with their true shortest distances |
| LegacyProjection.TruncationKeepsShortestWalks | src/application/traceability-application.js:366-368 | After truncation every selected node keeps a shortest walk from the root through selected nodes only |
| LegacyProjection.SelectionShowsNearest | src/application/traceability-application.js:366-368 | Of the nodes within the depth the selection is the nearest, at most `limit`, nearest first and, as near, in the order of identifiers; the same order puts every selected node before every other one |
| LegacyProjection.AvailableExpansions | src/application/traceability-application.js:389-401 | One entry per relation of the edges that lead out of the selection and kind of their hidden end, with their exact number; the counts sum to the edges that the selection cuts |
| LegacyProjection.ProjectLegacyArtifactGraph | src/application/traceability-application.js:298-413 | The whole projection: refusals, ownership, the kinds of each view, the edges and nodes that the request draws on, nearest nodes with their walks, visible edges in their order, truncation flag and expansions |
| ImpactAssessment.AssessImpact | src/application/legacy-understanding-runtime.js:2286-2356 | Changed are exactly the nodes whose content differs, affected exactly those connected to one in either graph |
| ImpactAssessment.UnaffectedRegionIsUnchanged | src/application/legacy-understanding-runtime.js:2286-2312 | What is connected to an unaffected node is unaffected and has the same content in both graphs |
| FeatureLineage.IntroducesCycle | src/application/traceability-application.js:466-483 | Terminates and answers true exactly if the predecessor is reachable from the successor |
| FeatureLineage.EdgeKeepsAcyclic | src/application/traceability-application.js:466-483 | An edge keeps an acyclic graph acyclic exactly if its source is not reachable from its target |
| FeatureLineage.InterleavingIsAcyclic | src/application/traceability-application.js:1395-1411 | In every interleaving of requests between their read and their append, the history is acyclic exactly if no append records a lineage whose predecessor is reachable from its successor by then |
| FeatureLineage.StepIsExact | src/storage/memory-traceability-store.js:521-538 | An append on an acyclic history keeps it acyclic exactly if it is not such a one |
| FeatureLineage.HistoryIsConsistent | src/storage/memory-traceability-store.js:521-538 | In every interleaving the history relates known features only, none to itself, and records no identifier and no relation twice |
| FeatureLineage.StoreAcceptsExactly | src/storage/memory-traceability-store.js:521-538 | The store accepts exactly what stands in the history already or keeps it so, and only the latter is added |
| FeatureLineage.UndisturbedRequestsStayAcyclic | src/application/traceability-application.js:1395-1411 | The history stays acyclic in every interleaving in which nothing is recorded between a request's read and its append |
| FeatureLineage.OverlappingRequestsMakeACycle | src/application/traceability-application.js:1395-1411 | The input: two overlapping requests that point at each other are both accepted, and make a cycle |
| FeatureLineage.RequestIsItsSections | src/application/traceability-application.js:1395-1411 | A request with nothing between its sections is decided as a whole |
| FeatureLineage.EveryHistoryIsAcyclic | src/application/traceability-application.js:1395-1411 | After every sequence of requests made one at a time the recorded lineage is acyclic |
| FeatureLineage.CycleRefusalIsExact | src/application/traceability-application.js:1405-1410 | A new record between known features is refused as cyclic exactly if it would make a cycle |
| FeatureLineage.LineageService.Store | src/storage/memory-traceability-store.js:521-538 | The store records a lineage between known features once, and refuses an unknown endpoint, a rewritten identifier and a repeated relation |
| FeatureLineage.LineageService.Admit | src/application/traceability-application.js:1395-1410 | The section up to the append: what is refused by what was read |
| FeatureLineage.LineageService.Append | src/application/traceability-application.js:1395-1411 | For a request with nothing in between: which refusal wins, that only a new acyclic record changes the history, and that it stays acyclic |
| JsonFragment.ScanValue | src/analysis/model-adapters.js:643-678 | Scanning the text of any value leaves the open brackets as they were, or closes the last of them exactly at its end |
| JsonFragment.CutsOutTheValue | src/analysis/model-adapters.js:643-678 | After any text without an opening bracket and whatever follows, exactly the text of the object or array is cut out and its parse returned |
| JsonFragment.OpenBracketHidesTheValue | src/analysis/model-adapters.js:647-675 | With only plain text between, an opening bracket before a value hides it: nothing is found if what follows the value leaves the bracket open, and otherwise the text in the brackets if it parses |
| JsonFragment.ValueBehindSpoiledBrackets | src/analysis/model-adapters.js:643-678 | A value is found behind any number of brackets before it that close without parsing, or have a closing bracket that does not match, with any text that opens no bracket between them |
| JsonFragment.BracketsAreSpoiled | src/analysis/model-adapters.js:661-672 | Two brackets around a text without brackets and quotation marks are such exactly if they do not match or the whole does not parse |
| JsonFragment.NothingBehindSpoiledBrackets | src/analysis/model-adapters.js:643-678 | Behind them nothing is found where nothing opens |
| JsonFragment.FirstBracketDecides | src/analysis/model-adapters.js:643-678 | In any text the first bracket whose fragment closes and parses, or that leaves brackets open, decides what is found |
| JsonFragment.FirstJsonFragment | src/analysis/model-adapters.js:643-678 | The two loops return the first fragment that closes and parses, or nothing once a scan stops inside open brackets |
| Utf8.DecodeEncode | src/application/source-slice-broker.js:63-73 | What is encoded by section 3 of RFC 3629 decodes to itself |
| Utf8.EncodingIsShortest | src/application/source-slice-broker.js:63-73 | Lengths and first bytes are those of the table in section 3 of RFC 3629 |
| Utf8.CompleteWindow | src/application/source-slice-broker.js:7-12 | Both ends are rounded inward over continuation bytes |
| Utf8.WindowIsLargestRun | src/application/source-slice-broker.js:7-12 | The window is the encoding of exactly the characters that lie whole in the range, and loses at most three bytes at each end |
| SourceSlices.ReadRange | src/application/source-slice-broker.js:63-95 | A slice shows the redacted whole characters of its capped range, cut only if they exceed what is left of the budget and then by at most three bytes short of it; it is flagged truncated exactly if it withholds something or its range ends beyond the artifact |
| SourceSlices.FlaggedThoughComplete | src/application/source-slice-broker.js:63-95 | The input: a range to one byte beyond the artifact shows all of it, and is flagged as truncated |
| SourceSlices.ReadSelector | src/application/source-slice-broker.js:49-70 | A selector is omitted exactly if its artifact is not there, is not readable, or nothing of its range can be shown: no budget left, or an empty range within the artifact |
| SourceSlices.ReadSelectors | src/application/source-slice-broker.js:49-96 | Over any selectors and any redaction the shown bytes total at most the budget; each selector, in order, is shown or omitted for its reason within what those before it left, and what is redacted in the shown ranges is counted |
| SourceSlices.Read | src/application/source-slice-broker.js:32-114 | Status and rejections, the first reason that applies; only allowed artifacts are shown, as the selectors' outcomes have it; a complete reading withholds nothing of what it shows |
| Accounts.DeadStaysDead | src/auth/core.js:18-52 | In every run with a clock that does not go back and epochs that do not decrease, a session revoked, of a past epoch, or expired absolutely or from idleness is never accepted again |
| Accounts.AlwaysAnAdmin | src/auth/accounts.js:261-270 | In every run from the empty state, recoveries included, there is an active human administrator once the instance is initialized and not in recovery; and at any time exactly if an initialization or the terminal has made one; logins are distinct |
| Accounts.RecoveryOfNobody | src/auth/operations.js:315-323 | The input: a recovery of an instance that was never initialized leaves it initialized without any account |
| Accounts.RecoveryCutsOffEveryone | src/auth/operations.js:315-323 | Entering a recovery ends every session and spends every credential |
| Accounts.OnlyTheTrustedGetIn | src/auth/accounts.js:98-114 | In a recovery a login makes a session only for an account that the terminal has trusted since it was entered |
| Accounts.LastAdminStays | src/auth/accounts.js:261-270 | The last effective administrator can be neither disabled nor demoted |
| Accounts.ChangePasswordRevokesTheOthers | src/auth/accounts.js:185-194 | After a change of password the new session is the only one of the account that is not revoked |
| Accounts.VerifiedSessionTakesPlace | src/auth/accounts.js:169-184 | A password verified again ends the old session and has a new one of the same account accepted |
| Accounts.DurationsAreKept | src/auth/core.js:50-75 | In every run each session has the times of one of the two kinds, remembered or not, however often it was rotated |
| Accounts.AccountIsCutOff | src/auth/accounts.js:221-309 | A password set by credential, a recovery, a disabling and a change of the administrator grant leave no session of the account usable |
| Accounts.LoginIsAccepted | src/auth/accounts.js:98-114 | A login that passes every check has made a session that is accepted |
| Accounts.SpentStaysSpent | src/auth/accounts.js:221-240 | A credential that was used, replaced or has expired is never accepted again |
| Accounts.SetPasswordSpends | src/auth/accounts.js:221-240 | Setting a password activates the account and spends all its credentials |
| AccountCalls.AcceptedExactly | src/auth/core.js:18-52 | A session is accepted exactly if it counts and meets what is demanded: a proof of identity within 600000 ms, and an administrator's account; what is said of a session that does not count never depends on the demands |
| AccountCalls.RefusedCallChangesNothing | src/auth/accounts.js:129-309 | A call whose session does not meet what the call demands leaves everything as it was |
| AccountCalls.LoginIsExact | src/auth/accounts.js:98-118 | A login makes a session exactly if the limiter lets it through, the password is right and the account active, no program's and, in a recovery, trusted; it lasts and may be idle as long as was asked for, a requested administrator becomes one, and nothing else changes |
| AccountCalls.RevocationIsExact | src/auth/accounts.js:159-168 | Exactly the sessions of the caller's account that are meant are revoked |
| AccountCalls.VerificationIsExact | src/auth/accounts.js:169-184 | Each try is counted, the eleventh ends the session, a right one replaces it by a new one of the same duration, and nothing else changes |
| AccountCalls.NewPasswordIsExact | src/auth/accounts.js:185-194 | The record, the sessions of the account and the new session, and nothing else |
| AccountCalls.CreationIsExact | src/auth/accounts.js:195-220 | A pending account of no grants with a credential for a day, exactly for an administrator with a fresh proof of identity and a login that nobody has |
| AccountCalls.RedemptionIsExact | src/auth/accounts.js:221-241 | Exactly a credential that is unspent, unexpired and of an account that is not disabled sets the record, activates the account, and ends its sessions and credentials |
| AccountCalls.AccountRecoveryIsExact | src/auth/accounts.js:242-260 | Exactly for an administrator and a human account: its sessions and credentials end, and one credential is issued for a quarter of an hour |
| AccountCalls.ChangeIsExact | src/auth/accounts.js:261-309 | Exactly the fields of the patch change, and the sessions end with a disabling or a change of the grant; exactly unless refused, or the last administrator would be lost |
| AccountCalls.TrustIsExact | src/auth/operations.js:326-360 | Only in a recovery, and only an account that is no program's or a new login: it becomes a trusted administrator with the new record, and its sessions end |
| AccountCalls.EndOfRecoveryIsExact | src/auth/operations.js:361-385 | A recovery ends exactly once confirmed, with its sources ready and a trusted administrator who can get in; nobody is trusted after it |
| Accounts.TriesAreBounded | src/auth/accounts.js:169-184 | One session has at most ten passwords checked to verify its holder again, in any run |
| AccountServices.AccountService.InitializeInstance | src/auth/accounts.js:39-64 | Only once, and then with an administrator |
| AccountServices.AccountService.LogIn | src/auth/accounts.js:98-114 | The login's transaction after the limiter: state as the step says, and the new session is accepted |
| AccountServices.AccountService.LogOut | src/auth/accounts.js:129-136 | Accepted exactly for an accepted session, which is dead afterwards |
| AccountServices.AccountService.MarkActive | src/auth/accounts.js:137-143 | Moves the last activity of an accepted session, and nothing else: it is accepted until it ends or has been idle for its time from then on |
| AccountServices.AccountService.RevokeSessions | src/auth/accounts.js:159-168 | Ends, by a loop, exactly the selected sessions of the caller's account; the caller's own stays accepted if the others were selected |
| AccountServices.AccountService.VerifyIdentity | src/auth/accounts.js:169-184 | Counts the try, revokes beyond ten; on the right password the old session is dead and the new one accepted |
| AccountServices.AccountService.SetNewPassword | src/auth/accounts.js:185-194 | New record; the new session is accepted and the only one of the account that is not revoked |
| AccountServices.AccountService.AddAccount | src/auth/accounts.js:195-220 | A pending account, not usable before its one-day credential is, for an unused login only |
| AccountServices.AccountService.RedeemCredential | src/auth/accounts.js:221-241 | Accepts exactly an unspent credential of an account that is not disabled; it is spent then, the account active, and its sessions are revoked |
| AccountServices.AccountService.IssueRecovery | src/auth/accounts.js:242-260 | Revokes the target's sessions, spends its credentials, and issues one for fifteen minutes that is good unless the account is disabled |
| AccountServices.AccountService.ChangeAccount | src/auth/accounts.js:261-309 | Goes through exactly for an administrator, a human target, an allowed status and unless it would lose the last administrator; a disabling and a change of the grant end all sessions of the target |
| AccountServices.AccountService.RevokeAccountSessions | src/auth/core.js:76-78 | The loop revokes every session of the account and no other |
| AccountServices.AccountService.RotateSession | src/auth/core.js:72-75 | The old session is revoked, the new one keeps account and device, and the duration of a session that is remembered or of one that is not |
| LoginLimiter.ChecksAreBounded | src/auth/accounts.js:82-97 | At most 10 checks per login name (50 per source) are counted in the current window, and at most 19 (99) happen in any span of 900000 ms of any run |
| LoginLimiter.NineteenInASpan | src/auth/accounts.js:82-97 | The bound of 19 is reached |
| LoginLimiter.LetThroughExactly | src/auth/accounts.js:82-97 | A request is let through exactly if its login name has fewer than 10 attempts in its window, and its source, if it has one, fewer than 50 |
| LoginLimiter.CountedExactly | src/auth/accounts.js:82-97 | What then stands for each key: one attempt more in its window of 900000 ms, or the first one of a new window; a source is counted only where the login name had room, and a request that finds no permit nowhere |
| LoginLimiter.Limiter.TryLogin | src/auth/accounts.js:82-97 | The loops drop expired entries and count the login name, then the source |
| PasswordPermits.PermitsAreBounded | src/auth/crypto.js:18-32 | Over every interleaving at most two callers hold a permit and sixteen wait, nobody waits while a permit is free, every counted permit is held, and handoff is first come, first served |
| PasswordPermits.RefusedWhenFull | src/auth/crypto.js:21-24 | A caller is refused exactly with two holders and sixteen waiting |
| PasswordPermits.NoPermitLeaks | src/auth/crypto.js:25-31 | Once nobody holds a permit, all are free and nobody waits |
| PasswordPermits.Permits.Acquire | src/auth/crypto.js:20-24 | The entry to a derivation changes the module's variables as the step system says |
| PasswordPermits.Permits.Release | src/auth/crypto.js:27-31 | The end of a derivation hands its permit to the first waiting caller or frees it |
| WorkerPool.AtMostLimitInFlight | src/application/local-source-snapshot.js:34-56 | At most `limit` values are being mapped at any time, in every interleaving |
| WorkerPool.ClaimedOnce | src/application/local-source-snapshot.js:38-48 | Each index is claimed once, in order, and none while a failure stands |
| WorkerPool.SuccessFillsEveryResult | src/application/local-source-snapshot.js:50-56 | With at least one worker or no values, an end without a failure that stands has every result in its place, and holes exactly at the values whose mapper failed |
| WorkerPool.FailsExactlyIfSomeValueFails | src/application/local-source-snapshot.js:44-56 | What it fails with is an error of the mapper; and where errors count as true it fails exactly if the mapper fails on some value |
| WorkerPool.FalsyErrorIsLost | src/application/local-source-snapshot.js:37-56 | The input: one value whose mapper rejects with a falsy value; the mapping succeeds with a hole |
| WorkerPool.LaterFalsyErrorHidesAFailure | src/application/local-source-snapshot.js:37-56 | The input: a falsy rejection after a true one, of two workers; the mapping succeeds with both results missing |
| WorkerPool.NoWorkersNoResults | src/application/local-source-snapshot.js:50-53 | With a limit of zero it ends at once with its results missing |
| WorkerPool.EveryStepIsProgress | src/application/local-source-snapshot.js:38-48 | Every section of a worker that has not returned brings the mapping closer to its end |
| WorkerPool.Mapping.RunWorker | src/application/local-source-snapshot.js:38-48 | A worker's section changes the closure's variables as the step system says |

## Left out

- HTTP routing, shutdown, web configuration, model transports, SQL, file system access and cryptography: plumbing and
  foreign code around the modelled decisions.
- Timestamps, but for those that go into the result of an analysis run, and audit and notification records: no modelled
  decision reads them.
- AnalysisJobs.FirstTerminalWins: one job's log; records of other jobs are filtered out by every operation that reads them.
- AnalysisJobs.FirstTerminalWins: `start` without its input checks and mode resolution, which do not touch the log.
- SingleRunner.WorkStaysInOrder: starts from one `start` of the job; a second `start` under the same identifier is not part
  of it.
- SingleRunner.CallLatestIsItsSections: that the runtime's pause aborts the run's signal and its resumption starts another
  run beside one that has not returned; two runs at once are covered by the general system only.
- AnalysisRuns.AnalysisRun.Execute: what a result is computed from, besides the units, is one function fixed at
  planning; matching candidates against the baseline's is not part of this model.
- IncrementalSelection.PlanWorkUnits: the choice of roots by patterns and the digest of a unit's input are not modelled;
  roots are a parameter.
- IncrementalSelection.SkippedUnitIsUnchanged: for units whose budget refused nothing, which is the case exactly if their
  neighbourhood fits; with a refusal the neighbourhoods of the two graphs may differ in what they refuse.
- FactGraphs.GraphIndexes: token estimates are given by the length of a record's JSON, which is a parameter.
- UnderstandingPlanner.CreateUnderstandingPlan: the checks of seal, versions and truth-set material are single branches;
  group keys are pairs, so names with a NUL character are not modelled.
- IncrementalUnderstanding.PlanIncrementalUnderstanding: the digest of the change set.
- MergeAdmission.ValidateMainOutput: the JSON shapes of fields and gaps; which of several faults is reported.
- MergeAdmission.AdmitCandidates: identifiers by content, fallbacks of proposal fields, the producer taken from the first
  option, conflicts and relations; candidates are told apart by their position.
- LegacyProjection.ProjectLegacyArtifactGraph: the rendered fields of nodes and edges, default options, and the
  descriptors of historical availability.
- ImpactAssessment.AssessImpact: the review actions and the split of affected nodes by type.
- FeatureLineage.LineageService.Append: features are not removed between the sections; the relational store's checks differ in
  which conflicts they find.
- JsonFragment.CutsOutTheValue: characters instead of UTF-16 code units; scalars of any number characters, which includes
  the numbers of RFC 8259.
- `visibleAgentMessage` and the stream decoders around it: a cut inside an escape does not give a prefix.
- SourceSlices.Read: lone surrogates in an artifact's text, which the encoder replaces, are excluded; the artifacts behind
  selectors do not change during a reading.
- Accounts.DeadStaysDead: restoring an archive, which replaces the tables before it enters a recovery.
- Accounts.AlwaysAnAdmin: making and revoking accounts of programs, and spaces and grants.
- AccountServices.AccountService.LogIn: checks of login and text formats; whether the password matches is a parameter.
- LoginLimiter.Limiter.TryLogin: the bound of 18 pending logins in front of it.
- WorkerPool.Mapping.RunWorker: the cache of verification receipts that uses the mapping is not modelled.
