/** Persisting a run, retrying it and resuming it after a crash. */
module SchedulerRetry {
  import opened Scheduler
  import opened SchedulerSafety
  import opened SchedulerProgress
  import opened SchedulerWidth

  /** What callback stores for a step, as far as scheduling goes. */
  datatype JobView = JobView(jobId: string, status: JobStatus)

  datatype ResetResult = ResetOk(view: map<StepName, JobView>) | ResetError

  function View(steps: map<StepName, StepState>): map<StepName, JobView> {
    map n | n in steps :: JobView(steps[n].jobId, steps[n].status)
  }

  function ResetJob(v: JobView): JobView {
    if v.status.Cancelled? || v.status.Bad() then JobView("", NotStarted) else v
  }

  predicate Unfinished(v: JobView) { v.status.Running? || v.status.Terminating? }

  function ResetView(view: map<StepName, JobView>): ResetResult {
    if exists n | n in view :: Unfinished(view[n]) then ResetError
    else ResetOk(map n | n in view :: ResetJob(view[n]))
  }

  function RestoreStep(v: JobView): StepState {
    StepState(NotSpawned, !v.status.NotEnded(), v.jobId != "", false, v.status, v.jobId)
  }

  /** newWorkflowRuntime followed by SetWorkflowRuntime. */
  function Restore(c: Config, view: map<StepName, JobView>): map<StepName, StepState> {
    map n | n in c.deps :: if n in view then RestoreStep(view[n]) else NewStep()
  }

  predicate Retryable(s: RunState) { s.status.RunFailed? || s.status.RunTerminated? }

  function Retry(c: Config, s: RunState): RunState
    requires ResetView(View(s.steps)).ResetOk?
  {
    StartRun(c, Restore(c, ResetView(View(s.steps)).view))
  }

  // ---- the retry round trip ----

  lemma ResetSucceeds(c: Config, s: RunState)
    requires Inv(c, s) && s.status.Completed()
    ensures var r := ResetView(View(s.steps));
            && r.ResetOk? && r.view.Keys == s.steps.Keys
            && forall n | n in s.steps ::
                 r.view[n] == if s.steps[n].status.Ok() then JobView(s.steps[n].jobId, s.steps[n].status)
                              else JobView("", NotStarted)
  {
    var view := View(s.steps);
    forall n | n in view
      ensures !Unfinished(view[n])
      ensures view[n].status.Ok() || view[n].status.Cancelled? || view[n].status.Bad()
    {
      assert StepOk(s.steps[n]) && s.steps[n].done;
    }
  }

  /** Exactly the Succeeded and Cached steps are done again, under their old job ids; every other step
      is as new. */
  ghost predicate Retried(c: Config, was: map<StepName, StepState>, r: map<StepName, StepState>) {
    && r.Keys == was.Keys == c.deps.Keys
    && forall n | n in r ::
         if was[n].status.Ok()
         then r[n].done && Startable(r[n]) && r[n].status == was[n].status && r[n].jobId == was[n].jobId
         else r[n] == NewStep()
  }

  lemma RetryRestores(c: Config, s: RunState) returns (r: map<StepName, StepState>)
    requires Inv(c, s) && s.status.Completed()
    ensures ResetView(View(s.steps)).ResetOk?
    ensures r == Restore(c, ResetView(View(s.steps)).view) && Retried(c, s.steps, r)
  {
    ResetSucceeds(c, s);
    r := Restore(c, ResetView(View(s.steps)).view);
  }

  lemma RestoredDepsSafe(c: Config, was: map<StepName, StepState>, r: map<StepName, StepState>)
    requires was.Keys == r.Keys == c.deps.Keys && DepsSafe(c, was)
    requires forall n | n in r :: was[n].status.Ok() ==> r[n].status == was[n].status
    requires forall n | n in r && r[n].Engaged() :: was[n].Engaged()
    ensures DepsSafe(c, r)
  {
    forall n | n in r && r[n].Engaged()
      ensures DepsReady(c, r, n)
    {
      assert DepsReady(c, was, n);
      forall d | d in c.deps[n]
        ensures d in r && r[d].status.Ok()
      {
        assert d in was && was[d].status.Ok();
      }
    }
  }

  lemma RetriedStarts(c: Config, was: map<StepName, StepState>, r: map<StepName, StepState>)
    requires c.Valid() && Retried(c, was, r) && DepsSafe(c, was) && AnyBad(was)
    ensures Good(c, StartRun(c, r)) && !AllDone(r)
    ensures forall n | n in r :: FreshOrOk(r[n])
  {
    forall n | n in r
      ensures FreshOrOk(r[n]) && (r[n].Engaged() ==> was[n].Engaged())
    {
      assert was[n].status.Ok() || r[n] == NewStep();
    }
    RestoredDepsSafe(c, was, r);
    var b :| b in was && was[b].status.Bad();
    assert !r[b].done;
    StartIsClean(c, r);
  }

  /** Retrying any failed or terminated run yields a clean run again. */
  lemma RetryIsGood(c: Config, s: RunState)
    requires Inv(c, s) && Retryable(s)
    ensures ResetView(View(s.steps)).ResetOk? && Good(c, Retry(c, s))
  {
    var r := RetryRestores(c, s);
    BadIsFailedOrTerminated(s.steps);
    RetriedStarts(c, s.steps, r);
  }

  lemma FirstUndoneIsReadied(c: Config, r: map<StepName, StepState>) returns (n: StepName)
    requires c.Valid() && r.Keys == c.deps.Keys && !AllDone(r)
    requires forall n | n in r :: FreshOrOk(r[n])
    ensures n in r && !r[n].done && Enabled(c, StartRun(c, r), Act(n, TakeToken))
  {
    var k := FirstUndone(c, r);
    n := c.order[k];
    assert DepsReady(c, r, n) by {
      forall d | d in c.deps[n]
        ensures d in r && r[d].status.Ok()
      {
        assert d in c.order[..k];
        assert r[d].done && FreshOrOk(r[d]);
      }
    }
    assert FreshOrOk(r[n]);
    StartSendsTokens(c, r, n);
  }

  /** And at least one step is made ready at once, so the retried run moves. */
  lemma RetryReadiesSomeStep(c: Config, s: RunState) returns (n: StepName)
    requires Inv(c, s) && Retryable(s)
    ensures ResetView(View(s.steps)).ResetOk?
    ensures n in s.steps && !s.steps[n].status.Ok() && Enabled(c, Retry(c, s), Act(n, TakeToken))
  {
    var r := RetryRestores(c, s);
    BadIsFailedOrTerminated(s.steps);
    RetriedStarts(c, s.steps, r);
    n := FirstUndoneIsReadied(c, r);
  }

  // ---- a life of several runs ----

  function RunThenRetry(c: Config, s: RunState, leg: seq<Action>): RunState
    requires s.steps.Keys <= c.deps.Keys && Runs(c, s, leg)
    requires ResetView(View(After(c, s, leg).steps)).ResetOk?
  {
    Retry(c, After(c, s, leg))
  }

  /** Each leg is run to a failed or terminated end and then retried. */
  predicate Lives(c: Config, s: RunState, legs: seq<seq<Action>>)
    requires s.steps.Keys <= c.deps.Keys
    decreases |legs|
  {
    legs == [] ||
    (&& Runs(c, s, legs[0]) && Retryable(After(c, s, legs[0]))
     && ResetView(View(After(c, s, legs[0]).steps)).ResetOk?
     && Lives(c, RunThenRetry(c, s, legs[0]), legs[1..]))
  }

  function AfterLegs(c: Config, s: RunState, legs: seq<seq<Action>>): RunState
    requires s.steps.Keys <= c.deps.Keys && Lives(c, s, legs)
    decreases |legs|
  {
    if legs == [] then s else AfterLegs(c, RunThenRetry(c, s, legs[0]), legs[1..])
  }

  lemma LegIsGood(c: Config, s: RunState, leg: seq<Action>)
    requires Good(c, s) && Runs(c, s, leg) && Retryable(After(c, s, leg))
    ensures ResetView(View(After(c, s, leg).steps)).ResetOk? && Good(c, RunThenRetry(c, s, leg))
  {
    CleanAlways(c, s, leg);
    RetryIsGood(c, After(c, s, leg));
  }

  /** However often a run is retried, what Start established still holds. */
  lemma {:induction false} EveryRetryIsGood(c: Config, s: RunState, legs: seq<seq<Action>>)
    requires Good(c, s) && Lives(c, s, legs)
    ensures Good(c, AfterLegs(c, s, legs))
    decreases |legs|
  {
    if legs != [] {
      LegIsGood(c, s, legs[0]);
      EveryRetryIsGood(c, RunThenRetry(c, s, legs[0]), legs[1..]);
    }
  }

  lemma OkStands(c: Config, s: RunState, a: Action, n: StepName)
    requires StepsOk(c, s.steps) && Enabled(c, s, a) && n in s.steps && s.steps[n].status.Ok()
    ensures Apply(c, s, a).steps[n] == s.steps[n] && !StartsJob(a, n)
  {
    assert StepOk(s.steps[n]);
    if a.Listen? {
      assert Apply(c, s, a).steps[n] == MarkReady(c, s.steps)[n];
    }
  }

  lemma {:induction false} OkStandsAlways(c: Config, s: RunState, acts: seq<Action>, n: StepName)
    requires Inv(c, s) && Runs(c, s, acts) && n in s.steps && s.steps[n].status.Ok()
    ensures After(c, s, acts).steps[n] == s.steps[n] && JobStarts(acts, n) == 0
    decreases |acts|
  {
    if acts != [] {
      OkStands(c, s, acts[0], n);
      InvKept(c, s, acts[0]);
      OkStandsAlways(c, Apply(c, s, acts[0]), acts[1..], n);
    }
  }

  lemma RetryKeepsOk(c: Config, s: RunState, n: StepName)
    requires Inv(c, s) && Retryable(s) && n in s.steps && s.steps[n].status.Ok()
    ensures ResetView(View(s.steps)).ResetOk?
    ensures n in Retry(c, s).steps && Retry(c, s).steps[n].status == s.steps[n].status
  {
    var r := RetryRestores(c, s);
    assert FreshOrOk(r[n]);
    StartSendsTokens(c, r, n);
  }

  lemma LegKeepsOk(c: Config, s: RunState, leg: seq<Action>, n: StepName)
    requires Inv(c, s) && Runs(c, s, leg) && n in s.steps && s.steps[n].status.Ok()
    ensures Inv(c, After(c, s, leg)) && After(c, s, leg).steps[n].status == s.steps[n].status
    ensures JobStarts(leg, n) == 0
  {
    OkStandsAlways(c, s, leg, n);
    InvAlways(c, s, leg);
  }

  function JobStartsInAll(legs: seq<seq<Action>>, n: StepName): nat {
    if legs == [] then 0 else JobStarts(legs[0], n) + JobStartsInAll(legs[1..], n)
  }

  /** Work is never repeated: a step that has succeeded keeps its status through every later run and
      retry, and none of them starts its job again. */
  lemma {:induction false} NoRework(c: Config, s: RunState, legs: seq<seq<Action>>, n: StepName)
    requires Good(c, s) && Lives(c, s, legs) && n in s.steps && s.steps[n].status.Ok()
    ensures n in AfterLegs(c, s, legs).steps && AfterLegs(c, s, legs).steps[n].status == s.steps[n].status
    ensures JobStartsInAll(legs, n) == 0
    decreases |legs|
  {
    if legs != [] {
      LegKeepsOk(c, s, legs[0], n);
      LegIsGood(c, s, legs[0]);
      RetryKeepsOk(c, After(c, s, legs[0]), n);
      NoRework(c, RunThenRetry(c, s, legs[0]), legs[1..], n);
    }
  }

  // ---- crash and resume ----

  lemma ResumedStartable(steps: map<StepName, StepState>, r: map<StepName, StepState>, n: StepName)
    requires n in steps && n in r && StepOk(steps[n])
    requires r[n] == RestoreStep(JobView(steps[n].jobId, steps[n].status))
    ensures Startable(r[n]) && r[n].status == steps[n].status && (r[n].Engaged() ==> steps[n].Engaged())
  {
  }

  lemma AllResumedStartable(c: Config, steps: map<StepName, StepState>, r: map<StepName, StepState>)
    requires StepsOk(c, steps) && r == Restore(c, View(steps))
    ensures r.Keys == steps.Keys
    ensures forall n | n in r ::
              Startable(r[n]) && r[n].status == steps[n].status && (r[n].Engaged() ==> steps[n].Engaged())
  {
    forall n | n in r
      ensures Startable(r[n]) && r[n].status == steps[n].status && (r[n].Engaged() ==> steps[n].Engaged())
    {
      ResumedStartable(steps, r, n);
    }
  }

  /** Resuming from the view of any reachable state is safe. */
  lemma ResumeIsSafe(c: Config, s: RunState)
    requires Inv(c, s)
    ensures Inv(c, StartRun(c, Restore(c, View(s.steps))))
  {
    var r := Restore(c, View(s.steps));
    AllResumedStartable(c, s.steps, r);
    RestoredDepsSafe(c, s.steps, r);
    StartEstablishesInv(c, r);
  }

  /** Waiting for a token that was counted as sent. */
  predicate Stranded(st: StepState) { st.pc.AtSelect? && st.submitted && !st.token }

  /** A resumed step is stranded exactly when its view has a job id and an empty status, that is, when
      the crash fell between job.Start and the first status report. */
  lemma StrandedIff(c: Config, view: map<StepName, JobView>, n: StepName)
    requires n in view && n in c.deps
    ensures Stranded(StartRun(c, Restore(c, view)).steps[n])
       <==> view[n].jobId != "" && view[n].status.NotStarted?
  {
  }

  /** What Restart makes of a step of the view: a job under way waits for a slot to be watched again and
      gets no token, nor does any other step that has had a job; what is finished is left alone; the rest
      are spawned, and have their token exactly if the view has all their dependencies Succeeded or Cached. */
  lemma RestartFromView(c: Config, view: map<StepName, JobView>, n: StepName)
    requires n in view && n in c.deps
    ensures var st := StartRun(c, Restore(c, view)).steps[n];
            && st.jobId == view[n].jobId && st.status == view[n].status
            && (view[n].jobId != "" ==> !st.token)
            && (view[n].status in {Pending, Running, Terminating} ==> st.pc.AwaitRecoverSlot? && !st.done)
            && (view[n].status in {Succeeded, Failed, Terminated, Cancelled, Cached} ==>
                  st.pc.NotSpawned? && st.done && !st.token)
            && (view[n].status.NotStarted? ==> st.pc.AtSelect? && !st.done)
            && (!st.done && view[n].jobId == "" ==>
                  (st.token <==> forall d | d in c.deps[n] ::
                                   d in c.deps && d in view && view[d].status in {Succeeded, Cached}))
  {
    var r := Restore(c, view);
    assert StartRun(c, r).steps[n] == StartStep(c, r, n);
    forall d | d in c.deps[n]
      ensures d in r && r[d].status.Ok() <==> d in c.deps && d in view && view[d].status in {Succeeded, Cached}
    {
      assert d in r && d !in view ==> r[d] == NewStep();
    }
  }

  lemma FirstStepIsSubmitted(c: Config)
    requires c.Valid()
    ensures var s := StartRun(c, FreshSteps(c));
            c.order[0] in s.steps && s.steps[c.order[0]] == NewStep().(pc := AtSelect, submitted := true, token := true)
  {
    var n := c.order[0];
    assert n in c.order;
    assert DepsReady(c, FreshSteps(c), n) by {
      assert c.order[..0] == [];
    }
    assert StartRun(c, FreshSteps(c)).steps[n] == StartStep(c, FreshSteps(c), n);
  }

  /** A job is running, and the loop has an event: what it persists of that step is its job id alone. */
  lemma PersistedBare(c: Config, s: RunState, n: StepName)
    requires s.steps.Keys == c.deps.Keys && n in s.steps && s.events > 0 && !s.status.Completed()
    requires s.steps[n].submitted && s.steps[n].status.NotStarted?
    ensures Enabled(c, s, Listen)
    ensures var view := View(Apply(c, s, Listen).steps);
            n in view && view[n] == JobView(s.steps[n].jobId, NotStarted)
  {
    assert Apply(c, s, Listen).steps == MarkReady(c, s.steps);
  }

  /** Such views are persisted: every workflow has a run from Start in which the first job has been started
      and reported nothing yet when another event makes the loop persist the steps. Resuming from that view
      strands the step. */
  lemma StrandingRun(c: Config) returns (acts: seq<Action>, n: StepName)
    requires c.Valid()
    ensures Runs(c, StartRun(c, FreshSteps(c)), acts) && acts != [] && acts[|acts| - 1] == Listen
    ensures var view := View(After(c, StartRun(c, FreshSteps(c)), acts).steps);
            && n in view && n in c.deps && view[n].jobId != "" && view[n].status.NotStarted?
            && Stranded(StartRun(c, Restore(c, view)).steps[n])
  {
    n := c.order[0];
    FirstStepIsSubmitted(c);
    var s := StartRun(c, FreshSteps(c));
    var held, t := JobTakesSlot(c, s, n);
    var u, v := Apply(c, t, Act(n, StartSucceeds("job"))), Apply(c, t, Act(n, StartSucceeds("job"))).(events := 1);
    RunsThen(c, s, held, t, Act(n, StartSucceeds("job")), u);
    RunsThen(c, s, held + [Act(n, StartSucceeds("job"))], u, WatchNoise, v);
    PersistedBare(c, v, n);
    acts := held + [Act(n, StartSucceeds("job"))] + [WatchNoise];
    RunsThen(c, s, acts, v, Listen, Apply(c, v, Listen));
    acts := acts + [Listen];
    StrandedIff(c, View(Apply(c, v, Listen).steps), n);
  }

  lemma StrandedStays(c: Config, s: RunState, a: Action, n: StepName)
    requires StepsOk(c, s.steps) && Enabled(c, s, a) && n in s.steps
    requires Stranded(s.steps[n]) || s.steps[n].status.Cancelled?
    ensures !StartsJob(a, n)
    ensures Stranded(Apply(c, s, a).steps[n]) || Apply(c, s, a).steps[n].status.Cancelled?
  {
    assert StepOk(s.steps[n]);
    if a.Listen? {
      assert Apply(c, s, a).steps[n] == MarkReady(c, s.steps)[n];
    }
  }

  /** A stranded step never starts a job: all that can happen to it is to be cancelled. */
  lemma {:induction false} StrandedForever(c: Config, s: RunState, acts: seq<Action>, n: StepName)
    requires Inv(c, s) && Runs(c, s, acts) && n in s.steps
    requires Stranded(s.steps[n]) || s.steps[n].status.Cancelled?
    ensures JobStarts(acts, n) == 0
    ensures Stranded(After(c, s, acts).steps[n]) || After(c, s, acts).steps[n].status.Cancelled?
    decreases |acts|
  {
    if acts != [] {
      StrandedStays(c, s, acts[0], n);
      InvKept(c, s, acts[0]);
      StrandedForever(c, Apply(c, s, acts[0]), acts[1..], n);
    }
  }
}
