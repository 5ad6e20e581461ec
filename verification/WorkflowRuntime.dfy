/** WorkflowRuntime and Step of pkg/pipeline/run.go and step.go with their mutable fields. Every
    method is proved to take the scheduler's state exactly where the transition system says. */
module WorkflowRuntime {
  import opened Scheduler
  import opened SchedulerSafety
  import opened SchedulerRetry

  /** What checkCached reports, and what job.Start returns. */
  datatype CacheCheck = CheckError | CacheFound | CacheMissed
  datatype StartOutcome = StartError(id: string) | Started(id: string)

  function StartMove(start: StartOutcome): Move {
    if start.Started? then StartSucceeds(start.id) else StartFails(start.id)
  }

  function RunJobMove(c: Config, cancelled: bool, check: CacheCheck, start: StartOutcome): Move {
    if cancelled then CancelHoldingSlot
    else if c.cacheEnabled && check.CheckError? then CacheCheckFails
    else if c.cacheEnabled && check.CacheFound? then CacheHit
    else StartMove(start)
  }

  function UpdateMove(jobStatus: JobStatus): Move {
    if jobStatus.Succeeded? || jobStatus.Bad() then JobEnds(jobStatus) else JobUpdates(jobStatus)
  }

  ghost function JobStarted(s: RunState, n: StepName, start: StartOutcome): RunState
    requires n in s.steps
  {
    s.(steps := s.steps[n := MoveStep(s.steps[n], StartMove(start))],
       events := if start.StartError? then s.events + 1 else s.events)
  }

  lemma SelectIs(c: Config, s: RunState, n: StepName)
    requires n in s.steps && s.steps.Keys <= c.deps.Keys && s.steps[n].pc.AtSelect?
    ensures s.steps[n].token ==>
              Apply(c, s, Act(n, TakeToken)) == s.(steps := s.steps[n := MoveStep(s.steps[n], TakeToken)])
    ensures s.cancelled ==>
              Apply(c, s, Act(n, CancelAtSelect)) ==
                s.(steps := s.steps[n := s.steps[n].(status := Cancelled, done := true, pc := Returned)],
                   events := s.events + 1)
  {
  }

  lemma RunJobIs(c: Config, s: RunState, n: StepName, check: CacheCheck, start: StartOutcome)
    requires n in s.steps && s.steps.Keys <= c.deps.Keys && s.steps[n].pc.HoldingSlot? && s.slots > 0
    requires start.Started? ==> start.id != ""
    ensures var m := RunJobMove(c, s.cancelled, check, start);
            && Enabled(c, s, Act(n, m))
            && Apply(c, s, Act(n, m)) ==
                 if s.cancelled then Left(s, n, Cancelled)
                 else if c.cacheEnabled && check.CheckError? then Left(s, n, Failed)
                 else if c.cacheEnabled && check.CacheFound? then Left(s, n, Cached)
                 else JobStarted(s, n, start)
  {
  }

  lemma RunJobSetsId(c: Config, s: RunState, n: StepName, check: CacheCheck, start: StartOutcome)
    requires n in s.steps && s.steps.Keys <= c.deps.Keys
    requires Enabled(c, s, Act(n, RunJobMove(c, s.cancelled, check, start)))
    ensures Apply(c, s, Act(n, RunJobMove(c, s.cancelled, check, start))).steps[n].jobId ==
            if !s.cancelled && (!c.cacheEnabled || check.CacheMissed?) then start.id else s.steps[n].jobId
  {
  }

  lemma UpdateIs(c: Config, s: RunState, n: StepName, u: JobStatus)
    requires n in s.steps && s.steps.Keys <= c.deps.Keys && s.steps[n].pc.Watching? && s.slots > 0
    requires u.Started() && !u.Cancelled? && !u.Cached?
    ensures Enabled(c, s, Act(n, UpdateMove(u)))
    ensures Apply(c, s, Act(n, UpdateMove(u))) ==
            if u.Succeeded? || u.Bad() then Left(s, n, u)
            else s.(steps := s.steps[n := s.steps[n].(status := u)], events := s.events + 1)
  {
  }

  /** A step with a slot has ended: slot back, status set, event sent. */
  ghost function Left(s: RunState, n: StepName, final: JobStatus): RunState
    requires n in s.steps && s.slots > 0
  {
    s.(steps := s.steps[n := s.steps[n].(status := final, done := true, pc := Returned)],
       slots := s.slots - 1, events := s.events + 1)
  }

  class Step {
    const name: StepName
    var pc: Pc            // where the goroutine of Execute is blocked
    var done: bool
    var submitted: bool
    var ready: bool       // the one-place channel holds a token
    var status: JobStatus // job.Status
    var jobId: string     // job.Id

    ghost function View(): StepState
      reads this
    {
      StepState(pc, done, submitted, ready, status, jobId)
    }

    constructor (name: StepName)
      ensures this.name == name && View() == NewStep()
      ensures !done && !submitted && !ready && status.NotStarted? && jobId == ""
    {
      this.name := name;
      pc, done, submitted, ready, status, jobId := NotSpawned, false, false, false, NotStarted, "";
    }

    /** `go st.Execute()` up to its first blocking point, for a step that is not done. */
    method GoExecute()
      requires !done
      modifies this
      ensures View() == Spawn(old(View()))
      ensures View() == old(View()).(pc := pc)
      ensures match old(status)
              case NotStarted => pc.AtSelect?
              case Pending | Running | Terminating => pc.AwaitRecoverSlot?
              case Succeeded | Failed | Terminated | Cancelled | Cached => pc.Returned?
    {
      if status.NotStarted? {
        pc := AtSelect;
      } else if status.NotEnded() {
        pc := AwaitRecoverSlot;
      } else {
        pc := Returned;
      }
    }

    /** `case <-st.ready`. */
    method ReceiveToken()
      requires pc.AtSelect?
      modifies this
      ensures View() == MoveStep(old(View()), TakeToken)
    {
      ready := false;
      pc := AwaitSlot;
    }

    /** A slot has been acquired: check the context and the cache, or go on watching a recovered job. */
    method EnterSlot()
      requires pc.AwaitSlot? || pc.AwaitRecoverSlot?
      modifies this
      ensures View() == MoveStep(old(View()), if old(pc).AwaitSlot? then AcquireSlot else RecoverSlot)
    {
      pc := if pc.AwaitSlot? then HoldingSlot else Watching;
    }

    /** job.Watch writes a new status. */
    method Report(update: JobStatus)
      modifies this
      ensures View() == old(View()).(status := update)
    {
      status := update;
    }

    /** The goroutine leaves: st.done with the given status. */
    method Finish(final: JobStatus)
      modifies this
      ensures View() == old(View()).(status := final, done := true, pc := Returned)
    {
      status := final;
      done := true;
      pc := Returned;
    }

    /** job.Start has set job.Id; with an error the goroutine leaves without giving its slot back. */
    method JobStart(start: StartOutcome)
      modifies this
      ensures View() == MoveStep(old(View()), if start.Started? then StartSucceeds(start.id) else StartFails(start.id))
      ensures jobId == start.id && submitted == old(submitted) && ready == old(ready)
      ensures if start.Started? then status == old(status) && done == old(done) && pc.Watching?
              else status.Failed? && done && pc.ReturnedWithSlot?
    {
      jobId := start.id;
      if start.StartError? {
        status := Failed;
        done := true;
        pc := ReturnedWithSlot;
      } else {
        pc := Watching;
      }
    }

    /** st.update with a job made from the view. */
    method TakeOver(jobView: JobView)
      requires pc.NotSpawned? && !ready
      modifies this
      ensures View() == RestoreStep(jobView)
      ensures jobId == jobView.jobId && status == jobView.status && !ready
      ensures submitted == (jobView.jobId != "")
      ensures done == (jobView.status in {Succeeded, Failed, Terminated, Cancelled, Cached})
    {
      jobId, status := jobView.jobId, jobView.status;
      done := if !status.NotEnded() then true else false;
      submitted := if jobView.jobId != "" then true else false;
    }

    /** st.update(st.done, true, st.job) followed by st.ready <- true. */
    method SendToken()
      modifies this
      ensures View() == Ready(old(View()))
      ensures submitted && ready && View() == old(View()).(submitted := true, token := true)
    {
      submitted := true;
      ready := true;
    }
  }

  class Runtime {
    const config: Config
    var steps: map<StepName, Step>
    var concurrentJobs: nat // occupancy of the slot channel
    var events: nat         // events sent and not yet received
    var cancelled: bool     // ctx.Err() != nil
    var status: RunStatus
    ghost var stopped: bool
    ghost var view: map<StepName, StepState> // what the fields of the steps hold
    ghost var Repr: set<Step>                // the objects in `steps`

    /** Every step is filed under its own name. */
    ghost predicate Filed()
      reads `steps, `view, `Repr, Repr
    {
      && steps.Keys == view.Keys == config.deps.Keys
      && (forall n | n in steps :: steps[n] in Repr && steps[n].name == n && steps[n].View() == view[n])
    }

    /** And every name that isDepsReady looks up is a step. */
    ghost predicate Valid()
      reads `steps, `view, `Repr, Repr
    {
      && Filed()
      && (forall n | n in config.deps :: config.deps[n] <= config.deps.Keys)
    }

    ghost function State(): RunState
      reads this
    {
      RunState(view, concurrentJobs, events, cancelled, stopped, status)
    }

    /** newWorkflowRuntime: one step per name of the sorted list. */
    constructor (config: Config)
      requires forall n :: n in config.deps <==> n in config.order
      ensures Filed() && this.config == config && fresh(Repr)
      ensures State() == RunState(FreshSteps(config), 0, 0, false, false, Created)
    {
      this.config := config;
      concurrentJobs, events, cancelled, status, stopped := 0, 0, false, Created, false;
      steps, Repr, view := map[], {}, FreshSteps(config);
      new;
      var made := NewSteps(config.order);
      steps, Repr := made, made.Values;
    }

    static method NewSteps(order: seq<StepName>) returns (steps: map<StepName, Step>)
      ensures forall n :: n in steps <==> n in order
      ensures fresh(steps.Values) && forall n | n in steps :: steps[n].name == n && steps[n].View() == NewStep()
    {
      steps := map[];
      for i := 0 to |order|
        invariant forall n :: n in steps <==> n in order[..i]
        invariant fresh(steps.Values) && forall n | n in steps :: steps[n].name == n && steps[n].View() == NewStep()
      {
        var st := new Step(order[i]);
        ghost var before := steps;
        steps := steps[order[i] := st];
        assert steps.Values <= before.Values + {st};
        assert order[..i + 1] == order[..i] + [order[i]];
      }
      assert order[..|order|] == order;
    }

    // ---- readiness ----

    method IsDepsReady(name: StepName) returns (depsReady: bool)
      requires Valid() && name in steps
      ensures depsReady == DepsReady(config, view, name)
    {
      depsReady := true;
      var deps := config.deps[name];
      ghost var seen: set<StepName> := {};
      while deps != {}
        invariant deps + seen == config.deps[name]
        invariant depsReady == forall d | d in seen :: d in view && view[d].status.Ok()
        decreases deps
      {
        var ds :| ds in deps;
        assert steps[ds].View() == view[ds];
        if !steps[ds].status.Succeeded? && !steps[ds].status.Cached? {
          depsReady := false;
        }
        deps, seen := deps - {ds}, seen + {ds};
      }
    }

    // ---- Start, Restart and SetWorkflowRuntime ----

    method SpawnStep(name: StepName)
      requires Valid() && name in steps && !view[name].done
      modifies `view, steps[name]
      ensures Valid() && view == old(view)[name := Spawn(old(view)[name])]
    {
      var st := steps[name];
      view := view[name := Spawn(view[name])];
      st.GoExecute();
    }

    method ReadyStep(name: StepName)
      requires Valid() && name in steps
      modifies `view, steps[name]
      ensures Valid() && view == old(view)[name := Ready(old(view)[name])]
    {
      var st := steps[name];
      view := view[name := Ready(view[name])];
      st.SendToken();
    }

    /** Start: one loop over the map spawns every undone step and sends the ready ones their tokens. */
    method Start()
      requires Valid() && concurrentJobs == events == 0 && !cancelled && !stopped
      modifies this, Repr
      ensures Valid() && steps == old(steps) && Repr == old(Repr)
      ensures State() == StartRun(config, old(view))
    {
      status := RunRunning;
      StartLoop();
    }

    method StartOne(name: StepName)
      requires Valid() && name in steps
      modifies `view, steps[name]
      ensures Valid() && view == old(view)[name := StartStep(config, old(view), name)]
    {
      StartStepIs(config, view, name);
      if !IsDone(name) {
        SpawnStep(name);
        ReadyIfDepsAre(name);
      }
    }

    predicate IsDone(name: StepName)
      requires Valid() && name in steps
      reads `steps, `view, `Repr, Repr
      ensures IsDone(name) == view[name].done
    {
      assert steps[name].View() == view[name];
      steps[name].done
    }

    method ReadyIfDepsAre(name: StepName)
      requires Valid() && name in steps
      modifies `view, steps[name]
      ensures Valid()
      ensures view == ReadyIf(config, old(view), name)
    {
      var ready := IsDepsReady(name);
      if ready && !steps[name].submitted {
        ReadyStep(name);
      }
    }

    method StartLoop()
      requires Valid()
      modifies `view, Repr
      ensures Valid() && view == StartRun(config, old(view)).steps
    {
      ghost var was := view;
      var rest := steps.Keys;
      while rest != {}
        invariant Valid() && rest <= steps.Keys
        invariant StartedBut(config, was, view, rest)
        decreases rest
      {
        var name :| name in rest;
        StartedOneMore(config, was, view, rest, name);
        StartOne(name);
        rest := rest - {name};
      }
    }

    /** Restart spawns every undone step in a first loop and sends the tokens in a second one, so that
        recovered jobs come before new ones. */
    method Restart()
      requires Valid() && concurrentJobs == events == 0 && !cancelled && !stopped
      modifies this, Repr
      ensures Valid() && steps == old(steps) && Repr == old(Repr)
      ensures State() == StartRun(config, old(view))
    {
      status := RunRunning;
      SpawnThenTokens(config, view);
      RestartLoops();
    }

    method RestartLoops()
      requires Valid()
      modifies `view, Repr
      ensures Valid() && view == Tokens(config, Spawned(old(view)))
    {
      SpawnLoop();
      TokenLoop();
    }

    method SpawnLoop()
      requires Valid()
      modifies `view, Repr
      ensures Valid() && view == Spawned(old(view))
    {
      ghost var was := view;
      var rest := steps.Keys;
      while rest != {}
        invariant Valid() && rest <= steps.Keys && was.Keys == view.Keys
        invariant forall n | n in was :: view[n] == if n in rest then was[n] else Spawn(was[n])
        decreases rest
      {
        var name :| name in rest;
        if !steps[name].done {
          SpawnStep(name);
        }
        rest := rest - {name};
      }
    }

    method TokenLoop()
      requires Valid()
      modifies `view, Repr
      ensures Valid() && view == Tokens(config, old(view))
    {
      ghost var was := view;
      var rest := steps.Keys;
      while rest != {}
        invariant Valid() && rest <= steps.Keys
        invariant TokensBut(config, was, view, rest)
        decreases rest
      {
        var name :| name in rest;
        TokensOneMore(config, was, view, rest, name);
        if steps[name].done || steps[name].submitted {
          UpdateSame(view, name);
        } else {
          var ready := IsDepsReady(name);
          if ready {
            ReadyStep(name);
          } else {
            UpdateSame(view, name);
          }
        }
        rest := rest - {name};
      }
    }

    /** SetWorkflowRuntime: the steps of a new runtime take over what the view says of them; a job with
        an id counts as submitted, whatever its status. */
    method SetWorkflowRuntime(runtime: map<StepName, JobView>)
      requires Valid() && view == FreshSteps(config)
      modifies `view, Repr
      ensures Valid() && view == Restore(config, runtime)
      ensures forall n | n in steps && n in runtime ::
                && steps[n].jobId == runtime[n].jobId && steps[n].status == runtime[n].status
                && steps[n].submitted == (runtime[n].jobId != "") && !steps[n].ready
                && steps[n].done == (runtime[n].status in {Succeeded, Failed, Terminated, Cancelled, Cached})
      ensures forall n | n in steps && n !in runtime ::
                !steps[n].done && !steps[n].submitted && !steps[n].ready && steps[n].status.NotStarted?
    {
      RestoreLoop(runtime);
      forall n | n in steps
        ensures steps[n].View() == if n in runtime then RestoreStep(runtime[n]) else NewStep()
      {
        assert steps[n].View() == view[n];
      }
    }

    method RestoreLoop(runtime: map<StepName, JobView>)
      requires Valid() && view == FreshSteps(config)
      modifies `view, Repr
      ensures Valid() && view == Restore(config, runtime)
    {
      var rest := steps.Keys;
      while rest != {}
        invariant Valid() && rest <= steps.Keys
        invariant RestoredBut(config, runtime, view, rest)
        decreases rest
      {
        var name :| name in rest;
        RestoredOneMore(config, runtime, view, rest, name);
        if name in runtime {
          RestoreOne(name, runtime[name]);
        }
        rest := rest - {name};
      }
    }

    method RestoreOne(name: StepName, jobView: JobView)
      requires Valid() && name in steps && view[name] == NewStep()
      modifies `view, steps[name]
      ensures Valid() && view == old(view)[name := RestoreStep(jobView)]
    {
      view := view[name := RestoreStep(jobView)];
      steps[name].TakeOver(jobView);
    }

    // ---- the event loop ----

    /** One pass through the body of the loop in updateStatus. */
    method UpdateStep(name: StepName) returns (counted: bool, failed: bool, terminated: bool)
      requires Valid() && name in steps
      modifies `view, steps[name]
      ensures Valid() && view == old(view)[name := MarkStep(config, old(view), name)]
      ensures counted == old(view)[name].Counted()
      ensures failed == old(view)[name].status.Failed? && terminated == old(view)[name].status.Terminated?
    {
      counted, failed, terminated := false, false, false;
      MarkStepIs(config, view, name);
      var st := steps[name];
      if st.status.Succeeded? {
        counted := true;
      } else if st.status.Failed? {
        counted, failed := true, true;
      } else if st.status.Terminated? {
        counted, terminated := true, true;
      } else if st.done {
        counted := true;
      } else {
        var ready := IsDepsReady(name);
        if ready && !st.submitted {
          ReadyStep(name);
        }
      }
    }

    method UpdateLoop() returns (stepDone: nat, hasFailedStep: bool, hasTerminatedStep: bool)
      requires Valid()
      modifies `view, Repr
      ensures Valid() && view == MarkReady(config, old(view))
      ensures (stepDone == |steps|) == AllCounted(old(view))
      ensures hasFailedStep == AnyFailed(old(view)) && hasTerminatedStep == AnyTerminated(old(view))
    {
      ghost var was := view;
      stepDone, hasFailedStep, hasTerminatedStep := 0, false, false;
      var rest := steps.Keys;
      TallyNothing(was);
      while rest != {}
        invariant Valid() && rest <= steps.Keys
        invariant MarkedBut(config, was, view, rest)
        invariant Tally(was, rest, stepDone, hasFailedStep, hasTerminatedStep)
        decreases rest
      {
        var name :| name in rest;
        stepDone, hasFailedStep, hasTerminatedStep :=
          TallyStep(name, was, rest, stepDone, hasFailedStep, hasTerminatedStep);
        rest := rest - {name};
      }
      MarkedAll(config, was, view);
      TallyEverything(was, stepDone, hasFailedStep, hasTerminatedStep);
      SameSize(steps.Keys, was.Keys);
    }

    /** One step, and what it adds to the counters. */
    method TallyStep(name: StepName, ghost was: map<StepName, StepState>, ghost rest: set<StepName>,
                     stepDone: nat, hasFailedStep: bool, hasTerminatedStep: bool)
        returns (done: nat, anyFailed: bool, anyTerminated: bool)
      requires Valid() && name in rest && name in steps && MarkedBut(config, was, view, rest)
      requires Tally(was, rest, stepDone, hasFailedStep, hasTerminatedStep)
      modifies `view, steps[name]
      ensures Valid() && MarkedBut(config, was, view, rest - {name})
      ensures Tally(was, rest - {name}, done, anyFailed, anyTerminated)
    {
      MarkedOneMore(config, was, view, rest, name);
      TallyOneMore(was, rest, stepDone, hasFailedStep, hasTerminatedStep, name);
      var counted, failed, terminated := UpdateStep(name);
      done := if counted then stepDone + 1 else stepDone;
      anyFailed, anyTerminated := hasFailedStep || failed, hasTerminatedStep || terminated;
    }

    method ConcludeUpdate(allDone: bool, hasFailedStep: bool, hasTerminatedStep: bool)
      requires Valid()
      modifies `status, `cancelled
      ensures Valid() && State() == Conclude(old(State()), allDone, hasFailedStep, hasTerminatedStep)
    {
      if allDone {
        if hasFailedStep {
          status := RunFailed;
        } else if hasTerminatedStep {
          if status.RunTerminating? {
            status := RunTerminated;
          } else {
            status := RunFailed;
          }
        } else {
          status := RunSucceeded;
        }
        return;
      }
      if (hasFailedStep || hasTerminatedStep) && !cancelled {
        cancelled := true;
      }
    }

    method UpdateStatus()
      requires Valid()
      modifies `view, `status, `cancelled, Repr
      ensures Valid() && State() == Scheduler.UpdateStatus(config, old(State()))
    {
      ghost var was := State();
      var stepDone, hasFailedStep, hasTerminatedStep := UpdateLoop();
      var allDone := stepDone == |steps|;
      UpdateStatusIs(config, was, view, allDone, hasFailedStep, hasTerminatedStep);
      assert State() == was.(steps := view);
      ConcludeUpdate(allDone, hasFailedStep, hasTerminatedStep);
    }

    /** The view that callback hands to UpdateRunCb. */
    method Callback() returns (runtimeView: map<StepName, JobView>)
      requires Valid()
      ensures runtimeView == SchedulerRetry.View(view)
    {
      runtimeView := map[];
      var rest := steps.Keys;
      while rest != {}
        invariant rest <= steps.Keys
        invariant runtimeView.Keys == steps.Keys - rest
        invariant forall n | n in runtimeView :: runtimeView[n] == JobView(view[n].jobId, view[n].status)
        decreases rest
      {
        var name :| name in rest;
        assert steps[name].View() == view[name];
        runtimeView := runtimeView[name := JobView(steps[name].jobId, steps[name].status)];
        rest := rest - {name};
      }
    }

    /** One iteration of Listen: receive an event, update the status, persist the view. */
    method ListenOnce() returns (persisted: map<StepName, JobView>)
      requires Valid() && events > 0 && !status.Completed()
      modifies `view, `status, `cancelled, `events, Repr
      ensures Valid() && State() == Apply(config, old(State()), Listen)
      ensures persisted == SchedulerRetry.View(State().steps)
    {
      ProcessEvent();
      persisted := Callback();
    }

    method ProcessEvent()
      requires Valid() && events > 0 && !status.Completed()
      modifies `view, `status, `cancelled, `events, Repr
      ensures Valid() && State() == Apply(config, old(State()), Listen)
    {
      events := events - 1;
      UpdateStatus();
    }

    method StopWorkflow()
      requires Valid()
      modifies `cancelled, `status, `stopped
      ensures Valid() && State() == Apply(config, old(State()), Stop)
    {
      if status.Completed() {
        return;
      }
      cancelled := true;
      status, stopped := RunTerminating, true;
    }

    // ---- the segments of Execute and Watch ----

    method FinishStep(name: StepName, final: JobStatus)
      requires Valid() && name in steps
      modifies `view, steps[name]
      ensures Valid()
      ensures view == old(view)[name := old(view)[name].(status := final, done := true, pc := Returned)]
    {
      view := view[name := view[name].(status := final, done := true, pc := Returned)];
      steps[name].Finish(final);
    }

    /** The select of Execute, when it takes the token. */
    method SelectReady(name: StepName)
      requires Valid() && name in steps && view[name].pc.AtSelect? && view[name].token
      modifies `view, steps[name]
      ensures Valid() && State() == Apply(config, old(State()), Act(name, TakeToken))
    {
      SelectIs(config, State(), name);
      ReceiveTokenOf(name);
    }

    method ReceiveTokenOf(name: StepName)
      requires Valid() && name in steps && view[name].pc.AtSelect?
      modifies `view, steps[name]
      ensures Valid() && view == old(view)[name := MoveStep(old(view)[name], TakeToken)]
    {
      view := view[name := MoveStep(view[name], TakeToken)];
      steps[name].ReceiveToken();
    }

    /** The select of Execute, when it sees the cancelled context. */
    method SelectDone(name: StepName)
      requires Valid() && name in steps && view[name].pc.AtSelect? && cancelled
      modifies `view, `events, steps[name]
      ensures Valid() && State() == Apply(config, old(State()), Act(name, CancelAtSelect))
    {
      SelectIs(config, State(), name);
      events := events + 1;
      FinishStep(name, Cancelled);
    }

    method TakeSlot(name: StepName, ghost st: StepState)
      requires Valid() && name in steps && (view[name].pc.AwaitSlot? || view[name].pc.AwaitRecoverSlot?)
      requires st == view[name].(pc := if view[name].pc.AwaitSlot? then HoldingSlot else Watching)
      modifies `view, `concurrentJobs, steps[name]
      ensures Valid()
      ensures State() == old(State()).(steps := old(view)[name := st], slots := old(concurrentJobs) + 1)
    {
      concurrentJobs := concurrentJobs + 1;
      EnterSlotOf(name, st);
    }

    method EnterSlotOf(name: StepName, ghost st: StepState)
      requires Valid() && name in steps && (view[name].pc.AwaitSlot? || view[name].pc.AwaitRecoverSlot?)
      requires st == view[name].(pc := if view[name].pc.AwaitSlot? then HoldingSlot else Watching)
      modifies `view, steps[name]
      ensures Valid() && view == old(view)[name := st]
    {
      view := view[name := st];
      steps[name].EnterSlot();
    }

    /** IncConcurrentJobs(1) for a new job, once the channel has room. */
    method AcquireSlotFor(name: StepName)
      requires Valid() && name in steps && concurrentJobs < config.parallelism && view[name].pc.AwaitSlot?
      modifies `view, `concurrentJobs, steps[name]
      ensures Valid() && State() == Apply(config, old(State()), Act(name, AcquireSlot))
    {
      TakeSlot(name, MoveStep(view[name], AcquireSlot));
    }

    /** IncConcurrentJobs(1) for a recovered job, which is watched next. */
    method RecoverSlotFor(name: StepName)
      requires Valid() && name in steps && concurrentJobs < config.parallelism && view[name].pc.AwaitRecoverSlot?
      modifies `view, `concurrentJobs, steps[name]
      ensures Valid() && State() == Apply(config, old(State()), Act(name, RecoverSlot))
    {
      TakeSlot(name, MoveStep(view[name], RecoverSlot));
    }

    /** DecConcurrentJobs(1), the final status, and the event. */
    method LeaveWithStatus(name: StepName, final: JobStatus)
      requires Valid() && name in steps && concurrentJobs > 0
      modifies `view, `concurrentJobs, `events, steps[name]
      ensures Valid()
      ensures State() == Left(old(State()), name, final)
    {
      ghost var left := Left(State(), name, final);
      FinishStep(name, final);
      concurrentJobs, events := concurrentJobs - 1, events + 1;
      assert State() == left;
    }

    method StartJob(name: StepName, start: StartOutcome)
      requires Valid() && name in steps
      modifies `view, `events, steps[name]
      ensures Valid() && State() == JobStarted(old(State()), name, start)
    {
      if start.StartError? {
        events := events + 1;
      }
      StartJobOf(name, start);
    }

    method StartJobOf(name: StepName, start: StartOutcome)
      requires Valid() && name in steps
      modifies `view, steps[name]
      ensures Valid() && view == old(view)[name := MoveStep(old(view)[name], StartMove(start))]
    {
      view := view[name := MoveStep(view[name], StartMove(start))];
      steps[name].JobStart(start);
    }

    /** Execute from the moment it holds a slot: the context again, then the cache, then job.Start. */
    method RunJob(name: StepName, check: CacheCheck, start: StartOutcome)
      requires Valid() && name in steps && view[name].pc.HoldingSlot? && concurrentJobs > 0
      requires start.Started? ==> start.id != ""
      modifies `view, `concurrentJobs, `events, steps[name]
      ensures Valid()
      ensures State() == Apply(config, old(State()), Act(name, RunJobMove(config, old(cancelled), check, start)))
      ensures view[name].jobId ==
              if !old(cancelled) && (!config.cacheEnabled || check.CacheMissed?) then start.id
              else old(view)[name].jobId
    {
      RunJobIs(config, State(), name, check, start);
      RunJobSetsId(config, State(), name, check, start);
      if cancelled {
        LeaveWithStatus(name, Cancelled);
        return;
      }
      if config.cacheEnabled {
        if check.CheckError? {
          LeaveWithStatus(name, Failed);
          return;
        }
        if check.CacheFound? {
          LeaveWithStatus(name, Cached);
          return;
        }
      }
      StartJob(name, start);
    }

    method PassOnUpdate(name: StepName, jobStatus: JobStatus)
      requires Valid() && name in steps
      modifies `view, `events, steps[name]
      ensures Valid()
      ensures State() == old(State()).(
                steps := old(view)[name := old(view)[name].(status := jobStatus)], events := old(events) + 1)
    {
      events := events + 1;
      ReportTo(name, jobStatus);
    }

    method ReportTo(name: StepName, jobStatus: JobStatus)
      requires Valid() && name in steps
      modifies `view, steps[name]
      ensures Valid() && view == old(view)[name := old(view)[name].(status := jobStatus)]
    {
      view := view[name := view[name].(status := jobStatus)];
      steps[name].Report(jobStatus);
    }

    /** Watch receives an update of its job: a final status ends the step, any other is passed on. */
    method ReceiveJobUpdate(name: StepName, jobStatus: JobStatus)
      requires Valid() && name in steps && view[name].pc.Watching? && concurrentJobs > 0
      requires jobStatus.Started() && !jobStatus.Cancelled? && !jobStatus.Cached?
      modifies `view, `concurrentJobs, `events, steps[name]
      ensures Valid() && State() == Apply(config, old(State()), Act(name, UpdateMove(jobStatus)))
    {
      UpdateIs(config, State(), name, jobStatus);
      if jobStatus.Succeeded? || jobStatus.Failed? || jobStatus.Terminated? {
        LeaveWithStatus(name, jobStatus);
      } else {
        PassOnUpdate(name, jobStatus);
      }
    }

    // ---- whole runs ----

    /** Every action of the transition system is taken by one of the methods above. */
    method Perform(a: Action)
      requires Valid() && Enabled(config, State(), a)
      requires a.Act? && view[a.name].HoldsSlot() ==> concurrentJobs > 0
      modifies this, Repr
      ensures Valid() && steps == old(steps) && Repr == old(Repr)
      ensures State() == Apply(config, old(State()), a)
    {
      match a
      case Stop => StopWorkflow();
      case Listen => var _ := ListenOnce();
      case WatchNoise => ReceiveNoise();
      case Act(name, m) => PerformMove(name, m);
    }

    /** A watch or stop error reaches the event channel. */
    method ReceiveNoise()
      requires Valid()
      modifies `events
      ensures Valid() && State() == Apply(config, old(State()), WatchNoise)
    {
      events := events + 1;
    }

    method PerformMove(name: StepName, m: Move)
      requires Valid() && Enabled(config, State(), Act(name, m))
      requires view[name].HoldsSlot() ==> concurrentJobs > 0
      modifies `view, `concurrentJobs, `events, steps[name]
      ensures Valid() && State() == Apply(config, old(State()), Act(name, m))
    {
      match m
      case TakeToken => SelectReady(name);
      case CancelAtSelect => SelectDone(name);
      case AcquireSlot => AcquireSlotFor(name);
      case RecoverSlot => RecoverSlotFor(name);
      case JobUpdates(u) => ReceiveJobUpdate(name, u);
      case JobEnds(v) => ReceiveJobUpdate(name, v);
      case _ => PerformWithSlot(name, m);
    }

    method PerformWithSlot(name: StepName, m: Move)
      requires Valid() && name in steps && view[name].pc.HoldingSlot? && concurrentJobs > 0
      requires MoveEnabled(config, State(), view[name], m)
      modifies `view, `concurrentJobs, `events, steps[name]
      ensures Valid() && State() == Apply(config, old(State()), Act(name, m))
    {
      var check := if m.CacheCheckFails? then CheckError else if m.CacheHit? then CacheFound else CacheMissed;
      var start := if m.StartSucceeds? then Started(m.id) else StartError(if m.StartFails? then m.id else "");
      assert RunJobMove(config, cancelled, check, start) == m;
      RunJob(name, check, start);
    }

    /** A whole run of the object is a run of the transition system. */
    method Drive(acts: seq<Action>)
      requires Valid() && Inv(config, State()) && Runs(config, State(), acts)
      modifies this, Repr
      ensures Valid() && State() == After(config, old(State()), acts)
      decreases |acts|
    {
      if acts != [] {
        InvKept(config, State(), acts[0]);
        if acts[0].Act? {
          HolderHasSlot(config, State(), acts[0].name);
        }
        Perform(acts[0]);
        Drive(acts[1..]);
      }
    }
  }

  /** The run record of pkg/apiserver/controller/run, whose Runtime map RetryRun rewrites. */
  class RunRecord {
    var runtime: map<StepName, JobView>

    /** resetRunSteps, which stops with an error at the first step that is still running. */
    method ResetRunSteps() returns (ok: bool)
      modifies this
      ensures ok <==> ResetView(old(runtime)).ResetOk?
      ensures ok ==> runtime == ResetView(old(runtime)).view
      ensures ok <==> forall n | n in old(runtime) :: old(runtime[n]).status !in {Running, Terminating}
      ensures runtime.Keys == old(runtime).Keys
      ensures forall n | n in runtime ::
                runtime[n] == old(runtime[n]) ||
                (old(runtime[n]).status in {Cancelled, Failed, Terminated} && runtime[n] == JobView("", NotStarted))
      ensures ok ==> forall n | n in runtime :: runtime[n].status !in {Cancelled, Failed, Terminated}
    {
      ghost var was := runtime;
      var rest := runtime.Keys;
      while rest != {}
        invariant rest <= was.Keys == runtime.Keys
        invariant forall n | n in was :: runtime[n] == if n in rest then was[n] else ResetJob(was[n])
        invariant forall n | n in was && n !in rest :: !Unfinished(was[n])
        decreases rest
      {
        var stepName :| stepName in rest;
        var jobView := runtime[stepName];
        if jobView.status.Cancelled? || jobView.status.Failed? || jobView.status.Terminated? {
          jobView := JobView("", NotStarted);
          runtime := runtime[stepName := jobView];
        }
        if jobView.status.Running? || jobView.status.Terminating? {
          return false;
        }
        rest := rest - {stepName};
      }
      ok := true;
    }
  }

  // ---- the loops, on values ----

  /** Start has dealt with every step outside rest. */
  ghost predicate StartedBut(c: Config, was: map<StepName, StepState>, view: map<StepName, StepState>,
                             rest: set<StepName>) {
    && was.Keys == view.Keys <= c.deps.Keys
    && forall n | n in was :: view[n] == if n in rest then was[n] else StartStep(c, was, n)
  }

  lemma StartedOneMore(c: Config, was: map<StepName, StepState>, view: map<StepName, StepState>,
                       rest: set<StepName>, name: StepName)
    requires StartedBut(c, was, view, rest) && name in rest && name in was
    ensures StartedBut(c, was, view[name := StartStep(c, view, name)], rest - {name})
  {
    forall n | n in was
      ensures view[n].status == was[n].status
    {
      assert StartStep(c, was, n).status == was[n].status || view[n] == was[n];
    }
    SameStatusesSameReadiness(c, was, view, name);
  }

  ghost function ReadyIf(c: Config, steps: map<StepName, StepState>, name: StepName): map<StepName, StepState>
    requires name in steps && name in c.deps
  {
    if DepsReady(c, steps, name) && !steps[name].submitted then steps[name := Ready(steps[name])] else steps
  }

  lemma StartStepIs(c: Config, was: map<StepName, StepState>, name: StepName)
    requires name in was && name in c.deps
    ensures was[name := StartStep(c, was, name)] ==
            if was[name].done then was else ReadyIf(c, was[name := Spawn(was[name])], name)
  {
    SameStatusesSameReadiness(c, was, was[name := Spawn(was[name])], name);
  }

  function Spawned(steps: map<StepName, StepState>): map<StepName, StepState> {
    map n | n in steps :: Spawn(steps[n])
  }

  function TokenStep(c: Config, steps: map<StepName, StepState>, n: StepName): StepState
    requires n in steps && n in c.deps
  {
    if !steps[n].done && !steps[n].submitted && DepsReady(c, steps, n) then Ready(steps[n]) else steps[n]
  }

  function Tokens(c: Config, steps: map<StepName, StepState>): map<StepName, StepState>
    requires steps.Keys <= c.deps.Keys
  {
    map n | n in steps :: TokenStep(c, steps, n)
  }

  lemma SpawnThenToken(c: Config, steps: map<StepName, StepState>, n: StepName)
    requires steps.Keys <= c.deps.Keys && n in steps
    ensures TokenStep(c, Spawned(steps), n) == StartStep(c, steps, n)
  {
    SameStatusesSameReadiness(c, steps, Spawned(steps), n);
  }

  lemma SpawnThenTokens(c: Config, steps: map<StepName, StepState>)
    requires steps.Keys <= c.deps.Keys
    ensures Tokens(c, Spawned(steps)) == StartRun(c, steps).steps
  {
    forall n | n in steps
      ensures TokenStep(c, Spawned(steps), n) == StartStep(c, steps, n)
    {
      SpawnThenToken(c, steps, n);
    }
  }

  ghost predicate TokensBut(c: Config, was: map<StepName, StepState>, view: map<StepName, StepState>,
                            rest: set<StepName>) {
    && was.Keys == view.Keys <= c.deps.Keys
    && forall n | n in was :: view[n] == if n in rest then was[n] else TokenStep(c, was, n)
  }

  lemma TokensOneMore(c: Config, was: map<StepName, StepState>, view: map<StepName, StepState>,
                      rest: set<StepName>, name: StepName)
    requires TokensBut(c, was, view, rest) && name in rest && name in was
    ensures TokensBut(c, was, view[name := TokenStep(c, view, name)], rest - {name})
  {
    forall n | n in was
      ensures view[n].status == was[n].status
    {
      assert TokenStep(c, was, n).status == was[n].status || view[n] == was[n];
    }
    SameStatusesSameReadiness(c, was, view, name);
  }

  ghost predicate RestoredBut(c: Config, runtime: map<StepName, JobView>, view: map<StepName, StepState>,
                              rest: set<StepName>) {
    && view.Keys == c.deps.Keys
    && forall n | n in view ::
         view[n] == if n in rest || n !in runtime then NewStep() else RestoreStep(runtime[n])
  }

  lemma RestoredOneMore(c: Config, runtime: map<StepName, JobView>, view: map<StepName, StepState>,
                        rest: set<StepName>, name: StepName)
    requires RestoredBut(c, runtime, view, rest) && name in rest && name in view
    ensures view[name] == NewStep()
    ensures RestoredBut(c, runtime, if name in runtime then view[name := RestoreStep(runtime[name])] else view,
                        rest - {name})
  {
  }

  ghost predicate MarkedBut(c: Config, was: map<StepName, StepState>, view: map<StepName, StepState>,
                            rest: set<StepName>) {
    && was.Keys == view.Keys <= c.deps.Keys
    && forall n | n in was :: view[n] == if n in rest then was[n] else MarkStep(c, was, n)
  }

  lemma MarkedOneMore(c: Config, was: map<StepName, StepState>, view: map<StepName, StepState>,
                      rest: set<StepName>, name: StepName)
    requires MarkedBut(c, was, view, rest) && name in rest && name in was
    ensures MarkedBut(c, was, view[name := MarkStep(c, view, name)], rest - {name})
    ensures view[name] == was[name]
  {
    forall n | n in was
      ensures view[n].status == was[n].status
    {
      assert MarkStep(c, was, n).status == was[n].status || view[n] == was[n];
    }
    SameStatusesSameReadiness(c, was, view, name);
  }

  lemma MarkStepIs(c: Config, was: map<StepName, StepState>, name: StepName)
    requires name in was && name in c.deps
    ensures was[name := MarkStep(c, was, name)] ==
            if !was[name].Counted() && !was[name].submitted && DepsReady(c, was,
                                  name) then was[name := Ready(was[name])]
            else was
  {
  }

  lemma MarkedAll(c: Config, was: map<StepName, StepState>, view: map<StepName, StepState>)
    requires MarkedBut(c, was, view, {})
    ensures view == MarkReady(c, was)
  {
  }

  lemma UpdateStatusIs(c: Config, s: RunState, marked: map<StepName, StepState>,
                       allDone: bool, anyFailed: bool, anyTerminated: bool)
    requires s.steps.Keys <= c.deps.Keys && marked == MarkReady(c, s.steps)
    requires allDone == AllCounted(s.steps)
    requires anyFailed == AnyFailed(s.steps) && anyTerminated == AnyTerminated(s.steps)
    ensures Scheduler.UpdateStatus(c, s) == Conclude(s.(steps := marked), allDone, anyFailed, anyTerminated)
  {
  }

  ghost function CountedBut(was: map<StepName, StepState>, rest: set<StepName>): set<StepName> {
    set n | n in was && n !in rest && was[n].Counted()
  }

  /** The counters of updateStatus once every step outside rest has been looked at. */
  ghost predicate Tally(was: map<StepName, StepState>, rest: set<StepName>,
                        stepDone: nat, hasFailedStep: bool, hasTerminatedStep: bool) {
    && stepDone == |CountedBut(was, rest)|
    && (hasFailedStep <==> exists n | n in was && n !in rest :: was[n].status.Failed?)
    && (hasTerminatedStep <==> exists n | n in was && n !in rest :: was[n].status.Terminated?)
  }

  lemma TallyNothing(was: map<StepName, StepState>)
    ensures Tally(was, was.Keys, 0, false, false)
  {
    assert CountedBut(was, was.Keys) == {};
  }

  lemma TallyOneMore(was: map<StepName, StepState>, rest: set<StepName>,
                     stepDone: nat, hasFailedStep: bool, hasTerminatedStep: bool, name: StepName)
    requires Tally(was, rest, stepDone, hasFailedStep, hasTerminatedStep) && name in rest && name in was
    ensures Tally(was, rest - {name}, if was[name].Counted() then stepDone + 1 else stepDone,
                  hasFailedStep || was[name].status.Failed?, hasTerminatedStep || was[name].status.Terminated?)
  {
    assert CountedBut(was, rest - {name}) ==
        if was[name].Counted() then CountedBut(was, rest) + {name} else CountedBut(was, rest);
    assert forall n | n in was :: n !in rest - {name} <==> n !in rest || n == name;
  }

  lemma AllCountedIff(was: map<StepName, StepState>)
    ensures |CountedBut(was, {})| == |was| <==> AllCounted(was)
  {
    var counted := CountedBut(was, {});
    assert was.Keys == counted + (was.Keys - counted);
    if AllCounted(was) {
      assert counted == was.Keys;
    } else {
      var n :| n in was && !was[n].Counted();
      assert n in was.Keys - counted;
    }
  }

  lemma TallyEverything(was: map<StepName, StepState>, stepDone: nat, hasFailedStep: bool, hasTerminatedStep: bool)
    requires Tally(was, {}, stepDone, hasFailedStep, hasTerminatedStep)
    ensures stepDone == |was| <==> AllCounted(was)
    ensures hasFailedStep == AnyFailed(was) && hasTerminatedStep == AnyTerminated(was)
  {
    AllCountedIff(was);
  }

  lemma SameSize(a: set<StepName>, b: set<StepName>)
    requires a == b
    ensures |a| == |b|
  {
  }

  lemma UpdateSame<K, V>(m: map<K, V>, k: K)
    requires k in m
    ensures m[k := m[k]] == m
  {
  }

  lemma SameStatusesSameReadiness(c: Config, was: map<StepName, StepState>, view: map<StepName, StepState>,
                                  name: StepName)
    requires was.Keys == view.Keys && name in c.deps
    requires forall n | n in was :: view[n].status == was[n].status
    ensures DepsReady(c, view, name) == DepsReady(c, was, name)
  {
  }
}
