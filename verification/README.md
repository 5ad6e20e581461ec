# PaddleFlow: verified models of the pipeline scheduler and the file-system client

This project models, in Dafny, the parts of PaddleFlow whose correctness spans whole runs: the workflow
scheduler, the analysis and solving of workflow descriptions, the block cache of the file-system client,
the client's inode tree and handle table, and the encrypted list cursors. Each part has a description of
what the code does to its state and theorems about every input, every run or every history.
`dafny verify dfyconfig.toml` checks all of it.

## The parts

**Scheduler** (`pkg/pipeline/run.go`, `step.go`, `job.go`, retry in
`pkg/apiserver/controller/run/run.go`). `Scheduler.dfy` is a transition system: one record per step
goroutine, the occupancy of the slot channel, the number of unprocessed events, the cancelled context and
the run's status. Its actions are one call of `Stop`, one iteration of `Listen`, one watch or stop error,
and one segment of `Execute` from one blocking point to the next. `WorkflowRuntime.dfy` holds the classes
`Step` and `Runtime` with the fields of the source; every method is proved to change the state exactly as
the transition system says, and `Drive` extends that to whole runs. The theorems are about the transition
system:

- `SchedulerSafety.dfy`: dependency safety along whole dependency paths, slot conservation, at most one
  token and one job per step, final statuses that never change, the exact meaning of the verdict.
- `SchedulerProgress.dfy`: a run that has not completed can go on unless it is doomed, a doomed run hangs
  for good, runs are bounded, and the verdict of a run that was never stopped is sound.
- `SchedulerWidth.dfy`: a failing `job.Start` keeps its slot, so runs can hang; this is possible if and
  only if the workflow has more mutually independent steps than slots.
- `SchedulerStop.dfy`: a stopped run may end as Succeeded although steps were cancelled; the exact condition.
- `SchedulerRetry.dfy`: the view persisted at the end of a failed run, reset and restored, gives a clean
  run again, any number of times, and finished work is never repeated; resuming after a crash is safe, what
  it makes of each step, and which steps it strands.
- `SchedulerReports.dfy`: the persisted view holds what the actions of the run have said of each step.

**Workflow descriptions** (`pkg/pipeline/workflow.go`, `common.go`, `pkg/common/schema/workflow.go`).
`Dependencies.dfy` reads the text of a `deps` field in the two ways the source does, and says exactly when
they agree. `Dag.dfy` is `topologicalSort` and `recursiveGetRunSteps`, with the iteration order of Go maps
left open. `WorkflowBuild.dfy` joins them to the scheduler, with the nil dereference of a missing
dependency. `Templates.dfy` is the regular expression and `strings.Replace` of `resolveRefParam` on
character strings; `ParamSolver.dfy`, `ParamSolving.dfy` and `ParamValidation.dfy` are `StepParamSolver`,
with the exact condition under which a step is solved; `ParamMeaning.dfy` is what templates are meant to
say, `ParamWorkflow.dfy` has `checkSteps` and the solving of the sorted steps in place, and
`ParamCreation.dfy` puts the two together: when what was accepted is created, and that it then holds the
meanings of the original texts. `ParamValues.dfy` says it of the records alone: each reference has given way
to the value of the run, of its own step or of the step it names. Text may hold any braces; the theorems ask
only that no two opening braces arise side by side in what later steps may read again. The recursion through
upstream steps terminates because each function carries the rank of its step in the sorted order, and every
call lowers it.

**Block cache** (`pkg/fs/client/cache`, `vfs/reader.go`, `vfs/writer.go`). `BlockCache.dfy` has the memory
and disk levels and the store, `CachedFiles.dfy` the reads and writes through it and the proof that any
history of reads, writes, flushes, evictions, expiries and background deletions gives what plain files give,
up to a crash of a read past the end of a file. `Options.dfy` is the option type that several parts share.

**Inodes, links and handles** (`pkg/fs/client/meta`, `vfs/handle.go`). `InodeTree.dfy` and
`InodeHandles.dfy` are the tree on values and on linked nodes, `MetaOperations.dfy` its operations and
their histories, `LinkRouting.dfy` the choice of the backing file system for a path, `HandleTable.dfy` the
table of open handles with its swap-delete.

**Cursors** (`pkg/apiserver/common/encrypt.go`). `CursorCodec.dfy`: decimal printing and parsing, padding
as in section 6.3 of RFC 5652, chaining as in section 6.2 of NIST SP 800-38A, and hexadecimal undo one
another, for every invertible block cipher.

## Where the code does not do what its text suggests

- The comment above `Stop` says that it does not call `ctxCancel`; the code calls it
  (`pkg/pipeline/run.go:106-119`), and the model follows the code.
- `isDepsReady` trims spaces only, `GetDeps` all white space. The two name the same steps exactly when
  `CleanText` holds (`Dependencies.ReadingsAgreeIff`); `TabsConfuse` is an input on which they differ.
- A stopped run can be reported as Succeeded (`SchedulerStop.StopHollowIff`).
- Failed starts can use up all slots and hang the run (`SchedulerWidth.CanHangIffWide`).
- A crash between the start of a job and its first status leaves a step that is never run again
  (`SchedulerRetry.StrandedIff`; `SchedulerRetry.StrandingRun` is such a run of any workflow).
- A dependency that names no step passes validation, and `isDepsReady` then dereferences nil
  (`WorkflowBuild.CreateAndStart` says exactly when, `WorkflowBuild.MissingStepIsLookedUp` is an input).
- A value that is a reference is rewritten by later replacements (`Templates.ValuesWithBracesAreRewritten`).
- A default that only `checkDictParam` accepts passes validation and fails afterwards, exactly when it would
  not pass as a parameter (`ParamWorkflow.CheckedStepIsSolvedIff`, input `ParamWorkflow.BadDefaultFailsLater`).
- A reference between braces, `{{{{ PF_USER_NAME }}}}`, is accepted as a parameter and solved to a text that
  is itself a reference, so that the steps that read it fail (`ParamCreation.BracedParameterFailsLater`).
  Where no doubled braces arise, what was accepted is created unless it has such a default
  (`ParamCreation.ValidateAndCreate`).
- On a cache miss past the end of a file and inside a block the count is negative, and `Read` then slices its
  buffer from a negative index (`CachedFiles.MissCountIsNegativeIff`, `CachedFiles.Read`).
- `PathToInode` passes over missing components (`InodeTree.MissingNamesArePassedOver`).
- Nested links make the route depend on map order (`LinkRouting.OneAnswerIffNotNested`).
- Decoding a cursor of the wrong length panics (`CursorCodec.DecryptPanicsIff`).

## Assumptions about steps that are taken as one

- `pkg/pipeline/job.go:211-213` sends an event and then writes the status; the model takes the two as one
  step. So it does for the test and the write in `Stop` (`pkg/pipeline/run.go:108-119`), for one iteration
  of `Listen`, for `Start` and `Restart`, and for each segment of `Execute`.
- Events are a bag, so the capacity of the event channel is not modelled; watch and stop errors are one
  action that only adds an event.
- The status a job reports is one of those a cluster job can have: not empty, not Cached, not Cancelled.
  A job that starts without an error has an identifier.
- A block that was missed is stored before the next operation. Uuids are never issued twice.
- The backing store is a map from names to bytes whose `ReadAt` is short at the end of a file only.

## Model

| member | source | states |
|---|---|---|
| `SchedulerSafety.InvKept` | pkg/pipeline/run.go:55-253 | every action keeps the invariant on flags, slots, dependencies and status |
| `SchedulerSafety.InvAlways` | pkg/pipeline/run.go:125-138 | the invariant holds after every run from a state that has it |
| `SchedulerSafety.StartEstablishesInv` | pkg/pipeline/run.go:55-104 | Start and Restart establish the invariant when the given steps respect it |
| `SchedulerSafety.FreeingNeverBlocks` | pkg/pipeline/run.go:151-156 | a step that gives back a slot finds an entry in the channel, so DecConcurrentJobs never blocks |
| `SchedulerSafety.AncestorsOk` | pkg/pipeline/run.go:240-253 | in a state with the invariant, a step that was readied or had a job has every step at the end of a dependency path Succeeded or Cached |
| `SchedulerSafety.DependencySafety` | pkg/pipeline/run.go:183-253 | the same in every state of every run: direct and indirect dependencies of an engaged step are Succeeded or Cached |
| `SchedulerSafety.SlotConservation` | pkg/pipeline/step.go:268-345 | occupancy of the slot channel equals busy steps plus failed starts and never exceeds the parallelism |
| `SchedulerSafety.SendingNeverBlocks` | pkg/pipeline/run.go:209-213 | a token is only sent to a step with an empty channel that was not submitted |
| `SchedulerSafety.TokenSentAtMostOnce` | pkg/pipeline/run.go:67-71 | the tokens sent over a run are counted exactly by the change of submitted, so at most one |
| `SchedulerSafety.JobStartedAtMostOnce` | pkg/pipeline/step.go:282-351 | job.Start is called at most once per step, and only by a step that had not reached its job |
| `SchedulerSafety.FinalIsAbsorbing` | pkg/pipeline/run.go:158-181 | after a final status nothing but the count of events ever changes |
| `SchedulerSafety.VerdictMeans` | pkg/pipeline/run.go:216-231 | a completed run has all steps done, and its verdict is fixed by failed steps, terminated steps and Stop, in both directions |
| `SchedulerProgress.CleanAlways` | pkg/pipeline/run.go:125-238 | a clean run stays clean: bad steps, cancellations and done steps are explained and announced |
| `SchedulerProgress.StartIsClean` | pkg/pipeline/run.go:55-104 | Start and Restart over fresh or finished steps begin a clean run |
| `SchedulerProgress.FreshRunIsClean` | pkg/pipeline/run.go:55-76 | a first Start begins a clean run |
| `SchedulerProgress.VerdictSound` | pkg/pipeline/run.go:183-238 | without Stop a run ends Succeeded iff every step is Succeeded or Cached, Failed iff some step is Failed or Terminated, never Terminated |
| `SchedulerProgress.NeverStuck` | pkg/pipeline/step.go:262-354 | while not complete and not doomed, a step or the event loop can move |
| `SchedulerProgress.DoomedForever` | pkg/pipeline/step.go:333-345 | once failed starts hold every slot and a waiting step needs one, the run never completes |
| `SchedulerProgress.RankSteps` | pkg/pipeline/step.go:262-448 | each progress action lowers the rank of the phases and events, each disturbance raises it by at most one |
| `SchedulerProgress.RunsAreBounded` | pkg/pipeline/run.go:125-138 | the progress actions of any run are bounded by the rank at its start and the disturbances |
| `SchedulerProgress.MaximalRunsEnd` | pkg/pipeline/run.go:183-238 | a run that can make no more progress has completed or is doomed, within five actions per step and one per disturbance |
| `SchedulerWidth.HungNeedsWidth` | pkg/pipeline/step.go:333-345 | a doomed state shows more mutually independent steps than slots |
| `SchedulerWidth.WidthHangs` | pkg/pipeline/step.go:333-345 | any set of more independent steps than slots gives a run from Start that is doomed |
| `SchedulerWidth.CanHangIffWide` | pkg/pipeline/step.go:282-345 | a started run can hang if and only if the workflow has more independent steps than slots |
| `SchedulerWidth.NarrowRunsComplete` | pkg/pipeline/run.go:183-238 | where it has not, every maximal run gives its verdict, whatever starts fail |
| `SchedulerStop.FateOfRun` | pkg/pipeline/run.go:202-206 | over any run a bad step stays bad, and a cancelled step was cancelled or not at its job before |
| `SchedulerStop.WaitingCanEndHollow` | pkg/pipeline/run.go:108-119 | from a state with nothing bad and a step before its job, a stopped run can end Succeeded with cancelled steps |
| `SchedulerStop.StopHollowIff` | pkg/pipeline/run.go:108-119 | the exact condition, in both directions |
| `SchedulerStop.StopAtOnceEndsHollow` | pkg/pipeline/run.go:202-227 | a run stopped right after Start can end Succeeded with no step run |
| `SchedulerRetry.ResetSucceeds` | pkg/apiserver/controller/run/run.go:542-560 | resetting the view of a completed run never fails, keeps Succeeded and Cached steps and clears the others |
| `SchedulerRetry.RetryRestores` | pkg/pipeline/workflow.go:345-376 | restoring it gives exactly the finished steps done and all others fresh, with dependency safety |
| `SchedulerRetry.RetryIsGood` | pkg/apiserver/controller/run/run.go:352-387 | a retried failed or terminated run is a clean run again |
| `SchedulerRetry.RetryReadiesSomeStep` | pkg/pipeline/run.go:90-99 | Restart of a retried run readies at least one unfinished step |
| `SchedulerRetry.EveryRetryIsGood` | pkg/apiserver/controller/run/run.go:352-387 | after any number of runs and retries the run is still clean |
| `SchedulerRetry.OkStandsAlways` | pkg/pipeline/step.go:262-271 | a Succeeded or Cached step is not touched by any later action of the run |
| `SchedulerRetry.NoRework` | pkg/apiserver/controller/run/run.go:542-560 | through all runs and retries a finished step keeps its status and never starts a job again |
| `SchedulerRetry.ResumeIsSafe` | pkg/pipeline/workflow.go:345-376 | resuming from the view of any reachable state establishes the invariant |
| `SchedulerRetry.RestartFromView` | pkg/pipeline/workflow.go:345-376 | what Restart makes of each step of a view: a job under way waits to be watched again, no step that has had a job gets a token, and the others get theirs iff the view has all their dependencies Succeeded or Cached |
| `SchedulerRetry.StrandedIff` | pkg/pipeline/workflow.go:369-373 | a resumed step is stranded iff its view has a job id and an empty status |
| `SchedulerRetry.StrandingRun` | pkg/pipeline/run.go:169-181 | every workflow has a run from Start after which the persisted view has such a step, and resuming from it strands the step |
| `SchedulerRetry.StrandedForever` | pkg/pipeline/step.go:271-282 | a stranded step never starts a job; it can only be cancelled |
| `SchedulerReports.ViewIsReported` | pkg/pipeline/run.go:255-274 | after any run the view of each step is what the actions of the run have said of it: the id its job was started under and the last status |
| `SchedulerReports.StartedIdIsPersisted` | pkg/pipeline/job.go:120-140 | a job that was started, or failed to be, is persisted under the id that job.Start gave it, for the rest of the run |
| `WorkflowRuntime.Step.constructor` | pkg/pipeline/step.go:42-52 | a new step is not done, not submitted and has an empty channel |
| `WorkflowRuntime.Step.GoExecute` | pkg/pipeline/step.go:262-272 | the goroutine of an undone step blocks at the select, waits for a slot to go on watching, or returns, by the status of its job |
| `WorkflowRuntime.Step.JobStart` | pkg/pipeline/step.go:333-351 | job.Start sets the id that it returns; with an error the step is Failed and done and keeps its slot |
| `WorkflowRuntime.Step.TakeOver` | pkg/pipeline/workflow.go:351-373 | id and status are those of the view; done iff the status is final, submitted iff there is an id |
| `WorkflowRuntime.Step.SendToken` | pkg/pipeline/run.go:69-70 | submitted is set and the channel filled |
| `WorkflowRuntime.Runtime.constructor` | pkg/pipeline/workflow.go:333-341 | one fresh step under each sorted name, and empty channels |
| `WorkflowRuntime.Runtime.IsDepsReady` | pkg/pipeline/run.go:240-253 | true iff every dependency is Succeeded or Cached |
| `WorkflowRuntime.Runtime.Start` | pkg/pipeline/run.go:55-76 | the state becomes that of StartRun, in any iteration order |
| `WorkflowRuntime.Runtime.Restart` | pkg/pipeline/run.go:79-104 | two loops, recovered jobs first, with the same result as Start |
| `WorkflowRuntime.Runtime.SetWorkflowRuntime` | pkg/pipeline/workflow.go:345-376 | on the fields of every step: id, status, done and submitted come from the view, also for a job that is still running; the others stay fresh |
| `WorkflowRuntime.Runtime.UpdateStep` | pkg/pipeline/run.go:188-213 | what one step adds to the counters, and whether it is readied |
| `WorkflowRuntime.Runtime.UpdateLoop` | pkg/pipeline/run.go:184-214 | the three counters say whether all steps are counted, some failed, some terminated; exactly the ready steps are marked |
| `WorkflowRuntime.Runtime.ConcludeUpdate` | pkg/pipeline/run.go:216-237 | the verdict, or the cancellation |
| `WorkflowRuntime.Runtime.UpdateStatus` | pkg/pipeline/run.go:183-238 | the whole of updateStatus on the whole state |
| `WorkflowRuntime.Runtime.Callback` | pkg/pipeline/run.go:255-274 | the persisted view holds the id and status of every step |
| `WorkflowRuntime.Runtime.ListenOnce` | pkg/pipeline/run.go:125-181 | one iteration of Listen is the Listen action, and persists the view of the new state |
| `WorkflowRuntime.Runtime.StopWorkflow` | pkg/pipeline/run.go:108-119 | the Stop action; nothing on a completed run |
| `WorkflowRuntime.Runtime.SelectReady` | pkg/pipeline/step.go:282-286 | taking the token |
| `WorkflowRuntime.Runtime.SelectDone` | pkg/pipeline/step.go:273-281 | cancelled before its token: Cancelled, done, one event |
| `WorkflowRuntime.Runtime.AcquireSlotFor` | pkg/pipeline/run.go:141-148 | one more entry in the slot channel for a new job |
| `WorkflowRuntime.Runtime.RecoverSlotFor` | pkg/pipeline/step.go:264-270 | one more entry for a recovered job, which is watched next |
| `WorkflowRuntime.Runtime.RunJob` | pkg/pipeline/step.go:288-351 | from holding a slot: context, cache check, cache hit, or job.Start with the id it returns, and the slot given back in all but the last |
| `WorkflowRuntime.Runtime.ReceiveJobUpdate` | pkg/pipeline/step.go:392-447 | a final status ends the step and frees its slot, any other is passed on |
| `WorkflowRuntime.Runtime.ReceiveNoise` | pkg/pipeline/step.go:394-403 | a watch or stop error adds an event and nothing else |
| `WorkflowRuntime.Runtime.Perform` | pkg/pipeline/run.go:55-253 | every action of the transition system is what some method does |
| `WorkflowRuntime.Runtime.Drive` | pkg/pipeline/run.go:125-138 | a whole run of the object is the run of the transition system |
| `WorkflowRuntime.RunRecord.ResetRunSteps` | pkg/apiserver/controller/run/run.go:542-560 | the loop over the persisted view: fails iff a step is Running or Terminating, else clears exactly the Cancelled, Failed and Terminated views; after a failure each view is as before or cleared |
| `Dependencies.SplitIs` | pkg/common/schema/workflow.go:44 | strings.Split loses nothing, and no piece holds the separator |
| `Dependencies.SplitIsUnique` | pkg/common/schema/workflow.go:44 | it gives back any pieces without separators that were joined by one |
| `Dependencies.TrimIs` | pkg/common/schema/workflow.go:46 | trimming takes away all of what is cut at both ends and nothing in between |
| `Dependencies.GetDeps` | pkg/common/schema/workflow.go:42-52 | GetDeps returns the nonempty trimmed pieces in order |
| `Dependencies.ListedNamesAreRead` | pkg/common/schema/workflow.go:42-52 | a written list of names is read back, by GetDeps and by isDepsReady |
| `Dependencies.ReadingsAgreeIff` | pkg/pipeline/run.go:242-247 | isDepsReady and GetDeps read the same names iff trimming spaces leaves no other white space at the ends |
| `Dependencies.TabsConfuse` | pkg/pipeline/run.go:244 | a text with a tab on which they differ |
| `Dag.OrderedIsAcyclic` | pkg/pipeline/workflow.go:143-190 | a topological order rules out cycles |
| `Dag.StuckIsCyclic` | pkg/pipeline/workflow.go:180-187 | a pass that removes nothing proves a cycle |
| `Dag.ListedStepWaits` | pkg/pipeline/workflow.go:151-163 | a step that lists dependencies waits for just these |
| `Dag.BlankStepIsLeftOut` | pkg/pipeline/workflow.go:151-163 | a step whose text is not empty but names nothing is left out of the sort |
| `Dag.BuildUnsorted` | pkg/pipeline/workflow.go:151-163 | the graph built from the texts: no parents for an empty text, no entry for a text without names |
| `Dag.Pass` | pkg/pipeline/workflow.go:165-179 | one pass, in any order and with deletion on the way, keeps the sorted part sorted and stops only when every remaining step waits for another |
| `Dag.TopologicalSort` | pkg/pipeline/workflow.go:143-190 | succeeds iff there is no cycle, and then returns every key once, after its dependencies |
| `Dag.RunSteps.RecursiveGetRunSteps` | pkg/pipeline/workflow.go:264-276 | adds the least set that holds the entry and is closed under known dependencies; terminates on cycles |
| `Dag.GetRunSteps` | pkg/pipeline/workflow.go:253-262 | all entry points without an entry, else the least closed set with the entry |
| `WorkflowBuild.ClampParallelism` | pkg/pipeline/workflow.go:317-322 | 10 where none is given, 20 at most, otherwise unchanged |
| `WorkflowBuild.SortedIsValid` | pkg/pipeline/workflow.go:326-341 | any order the sort returns makes a configuration in which every looked-up dependency is an earlier step |
| `WorkflowBuild.NewWorkflowRuntime` | pkg/pipeline/workflow.go:315-342 | for every text of dependencies: fails iff cyclic, else one fresh step under each sorted name, the cache switch as asked, and ten slots where none are asked for, the number asked for up to twenty |
| `WorkflowBuild.LooksUpNil` | pkg/pipeline/run.go:242-251 | the look-ups for one step dereference nil iff some name read by isDepsReady is no step |
| `WorkflowBuild.LooksUpOnlyStepsIff` | pkg/pipeline/run.go:242-251 | with no white space but blanks around names, no look-up dereferences nil iff every dependency is a step that the sort keeps |
| `WorkflowBuild.MissingStepIsLookedUp` | pkg/pipeline/run.go:242-251 | a missing dependency does not disturb the sort and is then looked up, for all names |
| `WorkflowBuild.CreateAndStart` | pkg/pipeline/workflow.go:296-384 | for every workflow: cyclic iff it has a cycle, a nil dereference iff a look-up is for no step, else the state that the theorems about fresh runs begin with, with the slots and the cache switch asked for, over a valid configuration if names have only blanks around them |
| `Templates.MatchHasShape` | pkg/pipeline/common.go:199 | a match consists of braces, a gap, a name, a gap and braces, as the expression says |
| `Templates.ShapeMatches` | pkg/pipeline/common.go:199 | and every such prefix is matched |
| `Templates.RenderParse` | pkg/pipeline/common.go:201 | cutting a text into matches and other characters loses nothing |
| `Templates.ReplaceIsSubst` | pkg/pipeline/common.go:243-245 | on every text one strings.Replace of a match replaces the equal references and nothing else |
| `Templates.ReplacingInTurn` | pkg/pipeline/common.go:202-246 | replacing the matches one after the other equals replacing all at once unless that has two opening braces side by side |
| `Templates.ValuesWithBracesAreRewritten` | pkg/pipeline/common.go:243-245 | with a value that is itself a reference: both results for all pairs of references, different iff the values are |
| `Templates.BracedReference` | pkg/pipeline/common.go:243-245 | a reference between braces: the only match is the inner one, and replacing it leaves its value between braces |
| `ParamSolver.CheckDict` | pkg/pipeline/common.go:293-338 | a dictionary is accepted iff its default is of the declared type, and then gives that default |
| `ParamSolver.LookupIffResolves` | pkg/pipeline/common.go:202-291 | in both modes and on any records a lookup succeeds iff the reference and, for the same field, all it leads to name what that field may refer to |
| `ParamSolver.RowsIffResolve` | pkg/pipeline/common.go:202-246 | the same for all references of a text |
| `ParamSolver.OkResolves` | pkg/pipeline/common.go:259-291 | where parameters and output artifacts below are in order, it is enough that the reference itself is |
| `ParamSolver.OutputsOkForInputs` | pkg/pipeline/common.go:270-279 | what an output artifact may refer to, an input artifact that leads to it may |
| `ParamMeaning.SystemValues` | pkg/pipeline/step.go:91-97 | each of the five system names stands for its value of the run; the steps of a run differ in PF_STEP_NAME alone |
| `ParamMeaning.LookupGivesMeaning` | pkg/pipeline/common.go:202-242 | with the upstream solved, a lookup gives the meaning of the reference in the step that owns it |
| `ParamMeaning.ResolveGivesMeaning` | pkg/pipeline/common.go:197-248 | resolving a text gives its meaning, if no doubled braces arise in that |
| `ParamSolving.ResolveRefParam` | pkg/pipeline/common.go:197-248 | the loop over the matches, equal to the recursive reading |
| `ParamSolving.CheckParamValue` | pkg/pipeline/common.go:176-191 | numbers pass, strings are resolved, dictionaries checked, the rest refused |
| `ParamSolving.StepParamSolver.SolveParameters` | pkg/pipeline/common.go:111-120 | the parameters are replaced in place, in any order, iff all of them can be |
| `ParamSolving.StepParamSolver.SolveTexts` | pkg/pipeline/common.go:123-153 | the same for input artifacts, output artifacts and environment |
| `ParamSolving.StepParamSolver.Solve` | pkg/pipeline/common.go:107-163 | the fields in turn, up to the first error; other steps are not touched |
| `ParamValues.ResolvedAround` | pkg/pipeline/common.go:197-248 | a text around one reference is resolved to that text around the value, iff the look-up succeeds |
| `ParamValues.SolvedHolds` | pkg/pipeline/common.go:107-163 | in a solved step each reference has given way to the value it stands for: of the run, then its own solved parameters, for the command its input and then output artifacts, or of the step it names |
| `ParamValues.SystemValuesArePutIn` | pkg/pipeline/step.go:91-97 | for instance a text around the run id, for all five system values |
| `ParamValidation.StepIffResolves` | pkg/pipeline/common.go:107-163 | in both modes and on any records a step is solved iff all its references resolve |
| `ParamValidation.StepOkResolves` | pkg/pipeline/common.go:107-163 | a step that resolves is well referenced; the converse, where what it may read below is in order |
| `ParamValidation.StepIffOk` | pkg/pipeline/common.go:107-163 | so in both modes a step is solved only if, and given what it may read below is in order exactly if, it is well referenced |
| `ParamValidation.CheckingDefaults` | pkg/pipeline/common.go:111-163 | checking replaces dictionaries by their defaults and changes nothing else |
| `ParamValidation.StepGivesMeaning` | pkg/pipeline/step.go:84-101 | a well-referenced step is solved, its parameters and output artifacts get their meanings, and so does every other text in which no doubled braces arise |
| `ParamWorkflow.SortedSteps` | pkg/pipeline/workflow.go:326 | the sorted order ranks every step above its dependencies |
| `ParamWorkflow.OrderRanks` | pkg/pipeline/workflow.go:143-190 | so the recursion between the resolving functions lowers a rank at every step up |
| `ParamWorkflow.CheckSteps` | pkg/pipeline/workflow.go:234-251 | accepts, in any iteration order, only workflows whose references are all in order, and all of those whose defaults would pass as parameters |
| `ParamWorkflow.NewSteps` | pkg/pipeline/workflow.go:326-341 | solving the sorted steps in place succeeds iff the references of each step resolve in what was made of the steps before it; then every reference holds its value among the solved records, and where no doubled braces arise in parameters and output artifacts, well-referenced steps get their meanings |
| `ParamCreation.ValidateAndCreate` | pkg/pipeline/workflow.go:66-90 | an accepted workflow is created iff each step resolves in its turn, and then every reference holds its value; where no doubled braces arise in parameters and output artifacts, iff its defaults would pass as parameters, and then with the meanings of the original texts |
| `ParamCreation.AllDefaultedOkIff` | pkg/pipeline/common.go:293-338 | with the defaults in place all steps are in order iff each default would pass as a parameter |
| `ParamCreation.BraceFreeIsSettled` | pkg/pipeline/common.go:197-248 | no opening brace outside references in parameters and output artifacts is enough; inputs, environment and commands may hold any |
| `ParamCreation.BracedParameterFailsLater` | pkg/pipeline/common.go:197-248 | a reference between braces as a parameter is accepted and solved, and then makes the step that reads it fail, for all names |
| `ParamWorkflow.DefaultsStayOkIff` | pkg/pipeline/common.go:293-338 | after checking, a step is still in order iff each default would pass as a parameter itself |
| `ParamWorkflow.CheckedStepIsSolvedIff` | pkg/pipeline/common.go:176-191 | a step in order passes the check and is solved afterwards iff each of its defaults would pass as a parameter |
| `ParamWorkflow.BadDefaultFailsLater` | pkg/pipeline/common.go:293-311 | a default with a bad reference: the check passes, and solving fails |
| `BlockCache.Span` | pkg/fs/client/cache/cache.go:138-142 | a backing read is short at the end of the file only, and has the bytes of the file |
| `BlockCache.MemCache.Save` | pkg/fs/client/cache/memory.go:53-55 | the item is set, any others may go |
| `BlockCache.MemCache.Load` | pkg/fs/client/cache/memory.go:46-51 | the item under the key, if it is still there |
| `BlockCache.DiskCache.Load` | pkg/fs/client/cache/disk.go:83-109 | hits iff the item is registered, not expired, and its file can be opened |
| `BlockCache.DiskCache.Save` | pkg/fs/client/cache/disk.go:111-161 | saved iff there is room after a possible sweep and the disk does not fail; all other items stay, but for those that a sweep of a full disk finds expired |
| `BlockCache.DiskCache.Delete` | pkg/fs/client/cache/disk.go:163-173 | the item is forgotten at once |
| `BlockCache.DiskCache.Clean` | pkg/fs/client/cache/disk.go:175-205 | exactly the unexpired items remain; files without items go up to the first that cannot be removed, and only such a one leaves any behind |
| `BlockCache.NewCacheStore` | pkg/fs/client/cache/cache.go:56-72 | nil iff no level is configured or the block size is zero, else an empty coherent store with the levels that can be made |
| `BlockCache.Store.KeyOf` | pkg/fs/client/cache/cache.go:164-175 | the key has the generation from before the call, the empty one on the first call, and the file has a generation afterwards |
| `BlockCache.Store.LoadBlock` | pkg/fs/client/cache/cache.go:177-206 | memory first, then disk; a hit under a current key is the block of the file; the empty id never hits |
| `BlockCache.Store.SetCache` | pkg/fs/client/cache/cache.go:208-235 | coherence is kept; every block of the read-ahead is in memory afterwards unless a later round pushed it out, and on the disk if its round had room and no later sweep found it expired |
| `BlockCache.PieceIsBlock` | pkg/fs/client/cache/cache.go:222-234 | each piece that is cut is the whole block of the file with that number |
| `BlockCache.Store.InvalidateCache` | pkg/fs/client/cache/cache.go:82-95 | the generation of the file is dropped, all others stay |
| `BlockCache.Store.DeleteBlocks` | pkg/fs/client/cache/cache.go:96-108 | the background deletion ends, leaves no block up to the length in either level, and keeps coherence whenever it runs |
| `CachedFiles.ReadAt` | pkg/fs/client/cache/cache.go:117-154 | a read within one block, at any offset: the bytes of the file from a held block, else the count of a miss with the bytes of the file if it is not negative |
| `CachedFiles.MissCountIsNegativeIff` | pkg/fs/client/cache/cache.go:153 | the count of a miss is that of a direct read, or negative: iff the offset is past the end and not aligned |
| `CachedFiles.Read` | pkg/fs/client/vfs/reader.go:129-154 | the loop ends, and returns exactly what a direct read of the file would; it panics iff the read starts past the end inside a block that is neither held nor fails, and does not fail if all blocks are held |
| `CachedFiles.ReadServedAgain` | pkg/fs/client/cache/cache.go:144-206 | a block that was missed and saved to the disk is served to later reads, although the backing store fails |
| `CachedFiles.TwoBlocksAreStored` | pkg/fs/client/cache/cache.go:138-144 | a miss stores two blocks, if the file has that many |
| `CachedFiles.Write` | pkg/fs/client/vfs/writer.go:71-89 | the generation goes before the bytes change, so the store stays coherent |
| `CachedFiles.WrittenIsRead` | pkg/fs/client/vfs/writer.go:84 | what is written is read back, the rest of the file is as before, a gap is zero |
| `CachedFiles.Do` | pkg/fs/client/cache/cache.go:82-235 | one operation or disturbance acts as on plain files, but for a crash of a read past the end; writes and flushes drop the generation of the file |
| `CachedFiles.Run` | pkg/fs/client/cache/cache.go:82-235 | every history of them gives the results of plain files, up to a crash |
| `CachedFiles.WithinFilesNeverCrash` | pkg/fs/client/vfs/reader.go:129-154 | and without a crash if no read starts past the end of its file inside a block |
| `InodeTree.AddedIsOk` | pkg/fs/client/meta/inode.go:142-154 | adding a child keeps the tree: entries and parent pointers agree, numbers grow downwards |
| `InodeTree.RemovedIsOk` | pkg/fs/client/meta/inode.go:156-166 | so does removing one |
| `InodeTree.AddedIsLinked` | pkg/fs/client/meta/inode.go:142-154 | just one node and one entry are new |
| `InodeTree.RemovedIsUnlinked` | pkg/fs/client/meta/inode.go:156-166 | just one entry is gone, and its node has no parent any more |
| `InodeTree.LeadsIsSegments` | pkg/fs/client/meta/inode.go:91-109 | the names that lead to an inode are the names up its parent chain |
| `InodeTree.PathTextSplits` | pkg/fs/client/meta/inode.go:120-127 | the written path splits into the names it was made of |
| `InodeTree.PathIsClean` | pkg/fs/client/meta/inode.go:91-109 | the path of a reachable inode begins with a slash, has no two side by side, and ends in none unless it is that of the root |
| `InodeTree.PathLeadsBack` | pkg/fs/client/meta/inode.go:91-140 | the path of a reachable inode leads back to it |
| `InodeTree.PathsAreUnique` | pkg/fs/client/meta/inode.go:91-109 | two reachable inodes with one path are one |
| `InodeTree.MissingNamesArePassedOver` | pkg/fs/client/meta/inode.go:124-136 | a missing name is skipped: the answer is that of the path without it |
| `InodeTree.RemovedIsLost` | pkg/fs/client/meta/inode.go:156-166 | a node that was taken out is not reachable and has the path of the root |
| `InodeHandles.InodeHandle.constructor` | pkg/fs/client/meta/inode.go:44-67 | a root without parent and children, and the next number 2 |
| `InodeHandles.InodeHandle.NewInode` | pkg/fs/client/meta/inode.go:69-82 | the next number, filed, and never used before |
| `InodeHandles.InodeHandle.NewChild` | pkg/fs/client/meta/inode.go:142-147 | a new node linked both ways, everything else unchanged |
| `InodeHandles.InodeHandle.AddChild` | pkg/fs/client/meta/inode.go:149-154 | entry and parent pointer |
| `InodeHandles.InodeHandle.RmChild` | pkg/fs/client/meta/inode.go:156-166 | the entry goes, the node forgets its parent and stays filed |
| `InodeHandles.InodeHandle.InodeToPath` | pkg/fs/client/meta/inode.go:91-109 | walks up the parents, terminates, and writes the names out from the root |
| `InodeHandles.InodeHandle.PathToInode` | pkg/fs/client/meta/inode.go:120-140 | walks down from the root over the nonempty pieces |
| `MetaOperations.StepKeeps` | pkg/fs/client/meta/default.go:148-363 | every tree operation keeps the tree, all nodes with name and kind, and gives new nodes new numbers |
| `MetaOperations.StepMakes` | pkg/fs/client/meta/default.go:148-437 | what each operation makes: kind, entry and number of the new node, and which entry goes |
| `MetaOperations.AfterKeeps` | pkg/fs/client/meta/default.go:148-363 | so does every sequence of them: no number is ever used for a second node |
| `MetaOperations.PathsAlwaysLeadBack` | pkg/fs/client/meta/default.go:148-437 | after any sequence, paths of reachable inodes lead back to them and are unique |
| `MetaOperations.MissingPartIsIgnored` | pkg/fs/client/meta/inode.go:124-136 | a path with a missing part that is answered with another inode |
| `MetaOperations.DefaultMeta.DoLookup` | pkg/fs/client/meta/default.go:148-176 | nothing for a file or a failing GetAttr, the known child if there is one, else a new child |
| `MetaOperations.DefaultMeta.DoMake` | pkg/fs/client/meta/default.go:274-306 | Mknod, Mkdir and Create add a new node iff the backing store made the entry, and return an error if it did not or if it gives no attributes |
| `MetaOperations.DefaultMeta.DoRemove` | pkg/fs/client/meta/default.go:310-331 | Unlink and Rmdir remove the entry iff the backing store did |
| `MetaOperations.DefaultMeta.DoRename` | pkg/fs/client/meta/default.go:335-363 | the source entry goes and a node with a new number and no children appears under the new name, or nothing changes |
| `MetaOperations.DefaultMeta.Run` | pkg/fs/client/meta/default.go:148-437 | a sequence of calls on the object is the sequence on the tree |
| `MetaOperations.DefaultMeta.RoundTrip` | pkg/fs/client/meta/inode.go:91-140 | PathToInode undoes InodeToPath on every reachable inode |
| `LinkRouting.GetUFS` | pkg/fs/client/meta/default.go:69-106 | a path at or below a link other than the root is never routed to the default; a link serves the path iff one matches, and link and rest make up the path |
| `LinkRouting.OneAnswerIffNotNested` | pkg/fs/client/meta/default.go:79-94 | the route is the same for every map order iff no link lies below another |
| `HandleTable.SwapDeletes` | pkg/fs/client/vfs/handle.go:70-76 | moving the last handle into the gap removes exactly the one handle |
| `HandleTable.VFS.NewHandle` | pkg/fs/client/vfs/handle.go:36-44 | a new number, and one more open handle |
| `HandleTable.VFS.FindHandle` | pkg/fs/client/vfs/handle.go:52-61 | finds a handle iff it is open under that inode |
| `HandleTable.VFS.ReleaseHandle` | pkg/fs/client/vfs/handle.go:63-83 | the open handles lose exactly that one |
| `HandleTable.VFS.Run` | pkg/fs/client/vfs/handle.go:36-83 | after any sequence the table holds the opened handles minus the released ones |
| `HandleTable.OpenIffNotReleased` | pkg/fs/client/vfs/handle.go:36-83 | a handle is open in the end iff it was opened and not released since |
| `CursorCodec.PrintedIsParsed` | pkg/apiserver/common/encrypt.go:36 | parsing undoes decimal printing on all 64-bit numbers |
| `CursorCodec.FormatIsDecimal` | pkg/apiserver/common/encrypt.go:36 | the digits of the size in decimal, none too many, after a minus sign iff the number is negative |
| `CursorCodec.ParsedIsDecimal` | pkg/apiserver/common/encrypt.go:49 | nothing but digits after at most one sign is parsed |
| `CursorCodec.HexRoundTrip` | pkg/apiserver/common/encrypt.go:70 | decoding undoes hexadecimal encoding |
| `CursorCodec.HexIsLowerCase` | pkg/apiserver/common/encrypt.go:70 | each byte is written as its two digits, high one first, in lower case |
| `CursorCodec.HexIsReadIff` | pkg/apiserver/common/encrypt.go:74 | an even number of digits of either case is read, and nothing else |
| `CursorCodec.HexIsRead` | pkg/apiserver/common/encrypt.go:74 | two of them give their byte |
| `CursorCodec.PaddedIsUnpadded` | pkg/apiserver/common/encrypt.go:93-106 | unpadding undoes padding |
| `CursorCodec.PaddingSaysItsLength` | pkg/apiserver/common/encrypt.go:93-97 | between one and sixteen bytes are added, each of which says how many |
| `CursorCodec.LastByteIsTrusted` | pkg/apiserver/common/encrypt.go:99-106 | unpadding looks at the last byte only |
| `CursorCodec.XorBlockTwice` | pkg/apiserver/common/encrypt.go:66 | mixing a block in twice gives the block back |
| `CursorCodec.XorSetsBits` | pkg/apiserver/common/encrypt.go:66 | a bit is set exactly if it is set in one of the two |
| `CursorCodec.ChainingUndone` | pkg/apiserver/common/encrypt.go:66-68 | decrypting the chained blocks undoes encrypting them, for any invertible cipher |
| `CursorCodec.EachBlockIsChained` | pkg/apiserver/common/encrypt.go:66-68 | each block is mixed with the encrypted block before it, or the initialization vector, and encrypted |
| `CursorCodec.EachBlockIsUnchained` | pkg/apiserver/common/encrypt.go:83-85 | each block is decrypted and mixed with the one before it |
| `CursorCodec.EncryptBlocks` | pkg/apiserver/common/encrypt.go:66-68 | the loop over the blocks computes the chaining |
| `CursorCodec.DecryptBlocks` | pkg/apiserver/common/encrypt.go:83-85 | so does the decrypting loop |
| `CursorCodec.AesEncrypt` | pkg/apiserver/common/encrypt.go:57-71 | pad, chain, write in hexadecimal; an error on the empty text |
| `CursorCodec.EncryptedIsChained` | pkg/apiserver/common/encrypt.go:57-71 | the text stands for the padded text, chained from the initialization vector |
| `CursorCodec.AesDecrypt` | pkg/apiserver/common/encrypt.go:73-91 | read hexadecimal, unchain, unpad, with the errors and panics of each |
| `CursorCodec.AesRoundTrip` | pkg/apiserver/common/encrypt.go:57-91 | encrypting fails iff the text is empty, and decrypting undoes it |
| `CursorCodec.DecryptPanicsIff` | pkg/apiserver/common/encrypt.go:73-101 | decrypting panics iff the text is hexadecimal for no whole number of blocks, or empty |
| `CursorCodec.EncryptPk` | pkg/apiserver/common/encrypt.go:35-37 | the cursor of a key |
| `CursorCodec.DecryptPk` | pkg/apiserver/common/encrypt.go:39-55 | an error on an empty cursor or on anything but a 64-bit number |
| `CursorCodec.PkRoundTrip` | pkg/apiserver/common/encrypt.go:35-55 | every 64-bit key comes back from its cursor |
| `CursorCodec.CursorsAreUnique` | pkg/apiserver/common/encrypt.go:35-37 | different keys have different cursors |

## Left out

- Finer interleavings: an event that is processed before the status it announces is written, a `Stop` between the test and the write, and the races on `done` and `submitted` between `Execute` and the event loop.
- The capacity of the event channel, the contents of events, the retry loops around `stopJob` and the callbacks, and artifact logging.
- Progress after a plain crash resume: a restored view with a failed step and waiting dependants, or with everything done, gives no event; only safety is claimed there.
- The step cache: whether `checkCached` finds an entry is an input (`pkg/pipeline/step.go:194-259`); fingerprints are not modelled.
- The fields of a job view other than its id and status, and the database around `RetryRun`.
- `replaceRunParam`, `checkCache` and `NewBaseWorkflow`: parameters are taken as they stand after them.
- Decoding of dictionary parameters: a parameter is given as a string, a number, a dictionary with type and default, or something else; `%v` of a number or a dictionary is a given text.
- WorkflowRuntime.Step.constructor: `NewStep` also solves the templates and validates the job, and can fail; the solving is ParamWorkflow.NewSteps, the validation of a job is not modelled.
- WorkflowRuntime.Runtime.constructor: cannot fail, for the same reason.
- WorkflowRuntime.Step.TakeOver: of the view only the id and the status are carried over.
- WorkflowRuntime.Runtime.Callback: the view has only ids and statuses; messages, times and the retries of the callback are absent.
- WorkflowBuild.NewWorkflowRuntime: does not call `updateJob`, which ParamWorkflow.NewSteps models.
- WorkflowBuild.CreateAndStart: does not claim a valid configuration where names have white space other than blanks around them; there the sort and the event loop may read different names.
- ParamCreation.ValidateAndCreate: a step whose dependency text holds no name is left out by the sort and not covered; where doubled braces arise, creation is characterised by the records as they stand at each step, not by the original texts.
- ParamMeaning.ResolveGivesMeaning: says nothing of a text in whose meaning doubled braces arise; `Templates.ValuesWithBracesAreRewritten` shows that it can be rewritten there.
- ParamValues.SolvedHolds: speaks of texts around one reference; ParamMeaning.ResolveGivesMeaning has those with several.
- CachedFiles.ReadServedAgain: speaks of reads within one block; CachedFiles.Read says of any read that it does not fail where all its blocks are held.
- CachedFiles.Run: covers sequential histories of reads and writes through `fileWriter`; a truncation, a rename with open handles, a read between the invalidation and the write of one `Write`, or a fill that is overtaken by an invalidation is not covered, and the code does not keep coherence there.
- BlockCache.NewCacheStore: a negative block size, which the source accepts, is not modelled.
- The block cache with memory expiry, disk expiry, eviction order and file-system errors as arbitrary choices; asynchronous fills are taken as done at once.
- Path cleaning and the text of cache keys: a key is the pair of generation and block number, a routed path is its list of components.
- `Readdir`, attributes, permissions and extended attributes; what the backing store answers is an input of the tree operations.
- Locks of the inode tree and the handle table: operations are sequential; the readers and writers inside a handle are not modelled.
- AES itself: any block cipher whose decryption undoes its encryption; the buffer that `CryptBlocks` fills is a sequence. MD5, logging, HTTP, database and cluster code.
- `pkg/apiserver/handler/image_handler.go`, the mount code, and the superseded `old_vfs.go`, `old_fs.go` and `old_file.go`.
