/** The run scheduler of pkg/pipeline as a transition system: one record per step goroutine, the
    slot channel, the bag of unprocessed events, the cancellation context and the run's status.
    Every function here is what one method of WorkflowRuntime or Step does to that state. */
module Scheduler {
  type StepName = string

  /** The statuses of pkg/common/schema/job.go; NotStarted is the empty string. */
  datatype JobStatus =
    | NotStarted | Pending | Running | Terminating
    | Succeeded | Failed | Terminated | Cancelled | Cached
  {
    predicate NotEnded() { NotStarted? || Terminating? || Running? || Pending? }
    predicate Started() { !NotStarted? }
    /** What isDepsReady asks of a dependency. */
    predicate Ok() { Succeeded? || Cached? }
    predicate Bad() { Failed? || Terminated? }
  }

  datatype RunStatus = Created | RunRunning | RunTerminating | RunSucceeded | RunFailed | RunTerminated
  {
    predicate Completed() { RunSucceeded? || RunFailed? || RunTerminated? }
  }

  /** Where the goroutine of a step is. ReturnedWithSlot is a goroutine that left through the
      failing branch of job.Start, which does not give its slot back. */
  datatype Pc =
    | NotSpawned | AtSelect | AwaitSlot | HoldingSlot | AwaitRecoverSlot | Watching
    | Returned | ReturnedWithSlot

  datatype StepState = StepState(
    pc: Pc, done: bool, submitted: bool, token: bool, status: JobStatus, jobId: string)
  {
    predicate Left() { pc.NotSpawned? || pc.Returned? || pc.ReturnedWithSlot? }
    predicate HoldsSlot() { pc.HoldingSlot? || pc.Watching? || pc.ReturnedWithSlot? }
    /** The step has been given its token or has had a job: from here on it relies on its dependencies. */
    predicate Engaged() { submitted || jobId != "" || (status.Started() && !status.Cancelled?) }
    /** updateStatus adds the step to stepDone. */
    predicate Counted() { status.Succeeded? || status.Bad() || done }
  }

  datatype Config = Config(
    deps: map<StepName, set<StepName>>, order: seq<StepName>, parallelism: nat, cacheEnabled: bool)
  {
    /** `order` is the sorted list from which newWorkflowRuntime builds the steps. */
    ghost predicate Valid() {
      && 1 <= parallelism
      && order != []
      && (forall i, j :: 0 <= i < j < |order| ==> order[i] != order[j])
      && (forall n :: n in deps <==> n in order)
      && (forall i, d :: 0 <= i < |order| && d in deps[order[i]] ==> d in order[..i])
    }
  }

  /** `events` counts the unprocessed events: their contents only choose the callback's message.
      `stopped` records whether Stop has ever reached an incomplete run. */
  datatype RunState = RunState(
    steps: map<StepName, StepState>, slots: nat, events: nat,
    cancelled: bool, stopped: bool, status: RunStatus)

  /** One step of a run: a call of Stop, an iteration of Listen, a watch or stop error of some job,
      or one segment of Execute, stretching from one blocking point to the next. */
  datatype Action = Stop | Listen | WatchNoise | Act(name: StepName, move: Move)

  datatype Move =
    | CancelAtSelect | TakeToken | AcquireSlot | CancelHoldingSlot
    | CacheCheckFails | CacheHit | StartFails(id: string) | StartSucceeds(id: string)
    | RecoverSlot | JobUpdates(update: JobStatus) | JobEnds(verdict: JobStatus)

  // ---- readiness and the verdict ----

  predicate DepsReady(c: Config, steps: map<StepName, StepState>, n: StepName)
    requires n in c.deps
  {
    forall d | d in c.deps[n] :: d in steps && steps[d].status.Ok()
  }

  predicate AllCounted(steps: map<StepName, StepState>) {
    forall n | n in steps :: steps[n].Counted()
  }

  predicate AnyFailed(steps: map<StepName, StepState>) {
    exists n | n in steps :: steps[n].status.Failed?
  }

  predicate AnyTerminated(steps: map<StepName, StepState>) {
    exists n | n in steps :: steps[n].status.Terminated?
  }

  function VerdictOf(anyFailed: bool, anyTerminated: bool, terminating: bool): RunStatus {
    if anyFailed then RunFailed
    else if anyTerminated then (if terminating then RunTerminated else RunFailed)
    else RunSucceeded
  }

  function Verdict(steps: map<StepName, StepState>, terminating: bool): RunStatus {
    VerdictOf(AnyFailed(steps), AnyTerminated(steps), terminating)
  }

  /** Sends the ready token: submitted is set and the one-place channel filled. */
  function Ready(st: StepState): StepState { st.(submitted := true, token := true) }

  function MarkStep(c: Config, steps: map<StepName, StepState>, n: StepName): StepState
    requires n in steps && n in c.deps
  {
    if !steps[n].Counted() && !steps[n].submitted && DepsReady(c, steps, n) then Ready(steps[n]) else steps[n]
  }

  function MarkReady(c: Config, steps: map<StepName, StepState>): map<StepName, StepState>
    requires steps.Keys <= c.deps.Keys
  {
    map n | n in steps :: MarkStep(c, steps, n)
  }

  /** What updateStatus does after its loop. */
  function Conclude(s: RunState, allDone: bool, anyFailed: bool, anyTerminated: bool): RunState {
    if allDone then s.(status := VerdictOf(anyFailed, anyTerminated, s.status.RunTerminating?))
    else if anyFailed || anyTerminated then s.(cancelled := true)
    else s
  }

  function UpdateStatus(c: Config, s: RunState): RunState
    requires s.steps.Keys <= c.deps.Keys
  {
    Conclude(s.(steps := MarkReady(c, s.steps)), AllCounted(s.steps), AnyFailed(s.steps), AnyTerminated(s.steps))
  }

  // ---- starting and stopping ----

  function NewStep(): StepState { StepState(NotSpawned, false, false, false, NotStarted, "") }

  /** `go st.Execute()` up to its first blocking point. */
  function Spawn(st: StepState): StepState {
    if st.done then st
    else if st.status.NotStarted? then st.(pc := AtSelect)
    else if st.status.NotEnded() then st.(pc := AwaitRecoverSlot)
    else st.(pc := Returned)
  }

  function StartStep(c: Config, steps: map<StepName, StepState>, n: StepName): StepState
    requires n in steps && n in c.deps
  {
    if !steps[n].done && !steps[n].submitted && DepsReady(c, steps, n) then Ready(Spawn(steps[n]))
    else Spawn(steps[n])
  }

  /** Start, and Restart over restored steps: spawn whatever is not done, then send the tokens. */
  function StartRun(c: Config, steps: map<StepName, StepState>): RunState
    requires steps.Keys <= c.deps.Keys
  {
    RunState(map n | n in steps :: StartStep(c, steps, n), 0, 0, false, false, RunRunning)
  }

  function FreshSteps(c: Config): map<StepName, StepState> { map n | n in c.deps :: NewStep() }

  function StopRun(s: RunState): RunState {
    if s.status.Completed() then s
    else s.(cancelled := true, stopped := true, status := RunTerminating)
  }

  // ---- the segments of Execute and Watch ----

  predicate MoveEnabled(c: Config, s: RunState, st: StepState, m: Move) {
    match m
    case CancelAtSelect => st.pc.AtSelect? && s.cancelled
    case TakeToken => st.pc.AtSelect? && st.token
    case AcquireSlot => st.pc.AwaitSlot? && s.slots < c.parallelism
    case CancelHoldingSlot => st.pc.HoldingSlot? && s.cancelled
    case CacheCheckFails => st.pc.HoldingSlot? && !s.cancelled && c.cacheEnabled
    case CacheHit => st.pc.HoldingSlot? && !s.cancelled && c.cacheEnabled
    case StartFails(_) => st.pc.HoldingSlot? && !s.cancelled
    case StartSucceeds(id) => st.pc.HoldingSlot? && !s.cancelled && id != ""
    case RecoverSlot => st.pc.AwaitRecoverSlot? && s.slots < c.parallelism
    case JobUpdates(u) => st.pc.Watching? && u.NotEnded() && u.Started()
    case JobEnds(v) => st.pc.Watching? && (v.Succeeded? || v.Bad())
  }

  function MoveStep(st: StepState, m: Move): StepState {
    match m
    case CancelAtSelect => st.(status := Cancelled, done := true, pc := Returned)
    case TakeToken => st.(token := false, pc := AwaitSlot)
    case AcquireSlot => st.(pc := HoldingSlot)
    case CancelHoldingSlot => st.(status := Cancelled, done := true, pc := Returned)
    case CacheCheckFails => st.(status := Failed, done := true, pc := Returned)
    case CacheHit => st.(status := Cached, done := true, pc := Returned)
    case StartFails(id) => st.(jobId := id, status := Failed, done := true, pc := ReturnedWithSlot)
    case StartSucceeds(id) => st.(jobId := id, pc := Watching)
    case RecoverSlot => st.(pc := Watching)
    case JobUpdates(u) => st.(status := u)
    case JobEnds(v) => st.(status := v, done := true, pc := Returned)
  }

  predicate TakesSlot(m: Move) { m.AcquireSlot? || m.RecoverSlot? }

  predicate FreesSlot(m: Move) { m.CancelHoldingSlot? || m.CacheCheckFails? || m.CacheHit? || m.JobEnds? }

  predicate SendsEvent(m: Move) { !(m.TakeToken? || TakesSlot(m) || m.StartSucceeds?) }

  predicate Enabled(c: Config, s: RunState, a: Action) {
    match a
    case Stop => true
    case Listen => s.events > 0 && !s.status.Completed()
    case WatchNoise => true
    case Act(n, m) => n in s.steps && MoveEnabled(c, s, s.steps[n], m) && (FreesSlot(m) ==> s.slots > 0)
  }

  function Apply(c: Config, s: RunState, a: Action): RunState
    requires s.steps.Keys <= c.deps.Keys
    requires Enabled(c, s, a)
  {
    match a
    case Stop => StopRun(s)
    case Listen => UpdateStatus(c, s.(events := s.events - 1))
    case WatchNoise => s.(events := s.events + 1)
    case Act(n, m) =>
      s.(steps := s.steps[n := MoveStep(s.steps[n], m)],
         slots := if TakesSlot(m) then s.slots + 1 else if FreesSlot(m) then s.slots - 1 else s.slots,
         events := if SendsEvent(m) then s.events + 1 else s.events)
  }

  // ---- whole runs ----

  predicate Runs(c: Config, s: RunState, acts: seq<Action>)
    requires s.steps.Keys <= c.deps.Keys
    decreases |acts|
  {
    acts == [] || (Enabled(c, s, acts[0]) && Runs(c, Apply(c, s, acts[0]), acts[1..]))
  }

  function After(c: Config, s: RunState, acts: seq<Action>): (t: RunState)
    requires s.steps.Keys <= c.deps.Keys
    requires Runs(c, s, acts)
    ensures t.steps.Keys == s.steps.Keys
    decreases |acts|
  {
    if acts == [] then s else After(c, Apply(c, s, acts[0]), acts[1..])
  }
}
