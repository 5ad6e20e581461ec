/** Stopping a run. Steps cancelled before their job count as done but neither as failed nor as
    terminated, so a stopped run can end Succeeded although some of its steps never ran. */
module SchedulerStop {
  import opened Scheduler
  import opened SchedulerSafety
  import opened SchedulerProgress
  import opened SchedulerWidth

  /** After Stop at s the run can still end Succeeded with a step that never ran. */
  ghost predicate CanEndHollow(c: Config, s: RunState)
    requires s.steps.Keys <= c.deps.Keys
  {
    exists acts | Runs(c, StopRun(s), acts) ::
      After(c, StopRun(s), acts).status.RunSucceeded? && AnyCancelled(After(c, StopRun(s), acts).steps)
  }

  ghost predicate AnyBeforeJob(steps: map<StepName, StepState>) {
    exists n | n in steps :: BeforeJob(steps[n])
  }

  // ---- only if ----

  predicate MayBeCancelled(st: StepState) { BeforeJob(st) || st.status.Cancelled? }

  lemma FateDecided(c: Config, s: RunState, a: Action, n: StepName)
    requires StepsOk(c, s.steps) && (forall k | k in s.steps :: CleanStep(s.steps[k]))
    requires Enabled(c, s, a) && n in s.steps
    ensures s.steps[n].status.Bad() ==> Apply(c, s, a).steps[n].status.Bad()
    ensures MayBeCancelled(Apply(c, s, a).steps[n]) ==> MayBeCancelled(s.steps[n])
  {
    assert StepOk(s.steps[n]) && CleanStep(s.steps[n]);
    if a.Listen? {
      assert Apply(c, s, a).steps[n] == MarkReady(c, s.steps)[n];
    }
  }

  lemma {:induction false} FateDecidedAlways(c: Config, s: RunState, acts: seq<Action>, n: StepName)
    requires Good(c, s) && Runs(c, s, acts) && n in s.steps
    ensures s.steps[n].status.Bad() ==> After(c, s, acts).steps[n].status.Bad()
    ensures MayBeCancelled(After(c, s, acts).steps[n]) ==> MayBeCancelled(s.steps[n])
    decreases |acts|
  {
    if acts != [] {
      FateDecided(c, s, acts[0], n);
      CleanKept(c, s, acts[0]);
      FateDecidedAlways(c, Apply(c, s, acts[0]), acts[1..], n);
    }
  }

  lemma FateOfRun(c: Config, s: RunState, acts: seq<Action>)
    requires Good(c, s) && Runs(c, s, acts)
    ensures AnyBad(s.steps) ==> AnyBad(After(c, s, acts).steps)
    ensures AnyCancelled(After(c, s, acts).steps) ==> AnyCancelled(s.steps) || AnyBeforeJob(s.steps)
  {
    var t := After(c, s, acts);
    if b :| b in s.steps && s.steps[b].status.Bad() {
      FateDecidedAlways(c, s, acts, b);
    }
    if k :| k in t.steps && t.steps[k].status.Cancelled? {
      FateDecidedAlways(c, s, acts, k);
    }
  }

  lemma HollowNeedsWaiting(c: Config, s: RunState)
    requires Good(c, s) && !s.status.Completed() && CanEndHollow(c, s)
    ensures !AnyBad(s.steps) && (AnyCancelled(s.steps) || AnyBeforeJob(s.steps))
  {
    var t := StopRun(s);
    CleanKept(c, s, Stop);
    var acts :| Runs(c, t, acts) && After(c, t, acts).status.RunSucceeded? && AnyCancelled(After(c, t, acts).steps);
    FateOfRun(c, t, acts);
    VerdictMeans(c, t, acts);
    BadIsFailedOrTerminated(After(c, t, acts).steps);
  }

  // ---- if ----

  /** Stopped, with nothing failed, and with a step that was or can be cancelled. */
  ghost predicate Draining(c: Config, s: RunState) {
    Good(c, s) && s.cancelled && NothingBad(s.steps) && SomeMayBeCancelled(s.steps)
  }

  ghost predicate SomeMayBeCancelled(steps: map<StepName, StepState>) {
    exists n | n in steps :: MayBeCancelled(steps[n])
  }

  /** The kindest continuation: waiting steps are cancelled, running jobs succeed. */
  function KindMove(s: RunState, st: StepState): Move {
    match st.pc
    case AtSelect => CancelAtSelect
    case HoldingSlot => CancelHoldingSlot
    case AwaitSlot => AcquireSlot
    case _ => JobEnds(Succeeded)
  }

  lemma KindMoveIsKind(c: Config, s: RunState, st: StepState)
    requires StepOk(st) && CleanStep(st) && !st.done && MoveEnabled(c, s, st, KindMove(s, st))
    ensures var t := MoveStep(st, KindMove(s, st)); !t.status.Bad() && (MayBeCancelled(st) ==> MayBeCancelled(t))
  {
  }

  lemma KindMoveDrains(c: Config, s: RunState, n: StepName)
    requires Draining(c, s) && n in s.steps && !s.steps[n].done
    requires Enabled(c, s, Act(n, KindMove(s, s.steps[n])))
    ensures Draining(c, Apply(c, s, Act(n, KindMove(s, s.steps[n]))))
  {
    var m := KindMove(s, s.steps[n]);
    CleanKept(c, s, Act(n, m));
    KindMoveIsKind(c, s, s.steps[n]);
    KindMoveKeeps(s.steps, n, MoveStep(s.steps[n], m));
  }

  lemma KindMoveKeeps(steps: map<StepName, StepState>, n: StepName, st: StepState)
    requires n in steps && NothingBad(steps) && !st.status.Bad()
    requires SomeMayBeCancelled(steps)
    requires MayBeCancelled(steps[n]) ==> MayBeCancelled(st)
    ensures NothingBad(steps[n := st]) && SomeMayBeCancelled(steps[n := st])
  {
    var k :| k in steps && MayBeCancelled(steps[k]);
    assert MayBeCancelled(steps[n := st][k]);
  }

  /** Nothing failed, so no slot is lost: some undone step can make its kind move. */
  lemma SomeoneCanMove(c: Config, s: RunState) returns (n: StepName)
    requires Draining(c, s) && !AllDone(s.steps)
    ensures n in s.steps && !s.steps[n].done && Enabled(c, s, Act(n, KindMove(s, s.steps[n])))
  {
    HoldersSplit(s.steps);
    assert Leaked(s.steps) == {} by {
      forall k | k in s.steps
        ensures !s.steps[k].pc.ReturnedWithSlot?
      {
        assert StepOk(s.steps[k]);
      }
    }
    if b :| b in Busy(s.steps) {
      n := b;
      assert n in Holders(s.steps);
    } else {
      assert s.slots == 0;
      n :| n in s.steps && !s.steps[n].done;
      assert n !in Busy(s.steps);
    }
    assert StepOk(s.steps[n]) && CleanStep(s.steps[n]);
  }

  lemma LastListenSucceeds(c: Config, s: RunState)
    requires StepsOk(c, s.steps) && NothingBad(s.steps) && SomeMayBeCancelled(s.steps)
    requires AllDone(s.steps) && Enabled(c, s, Listen)
    ensures var t := Apply(c, s, Listen); t.status.RunSucceeded? && AnyCancelled(t.steps)
  {
    ListenMarks(c, s);
    var t := Apply(c, s, Listen);
    MarkedSameStatuses(s.steps, t.steps);
    var k :| k in s.steps && MayBeCancelled(s.steps[k]);
    assert StepOk(s.steps[k]);
    BadIsFailedOrTerminated(s.steps);
    assert !AnyBad(s.steps);
  }

  lemma {:induction false} Drain(c: Config, s: RunState) returns (acts: seq<Action>)
    requires Draining(c, s) && !s.status.Completed()
    ensures Runs(c, s, acts)
    ensures After(c, s, acts).status.RunSucceeded? && AnyCancelled(After(c, s, acts).steps)
    decreases Rank(c, s)
  {
    if AllDone(s.steps) {
      LastListenSucceeds(c, s);
      RunsOne(c, s, Listen);
      acts := [Listen];
    } else {
      var n := SomeoneCanMove(c, s);
      var a := Act(n, KindMove(s, s.steps[n]));
      KindMoveDrains(c, s, n);
      RankSteps(c, s, a);
      var rest := Drain(c, Apply(c, s, a));
      RunsCons(c, s, a, rest);
      acts := [a] + rest;
    }
  }

  lemma WaitingCanEndHollow(c: Config, s: RunState)
    requires Good(c, s) && !s.status.Completed() && !AnyBad(s.steps)
    requires AnyCancelled(s.steps) || AnyBeforeJob(s.steps)
    ensures CanEndHollow(c, s)
  {
    CleanKept(c, s, Stop);
    var t := StopRun(s);
    assert SomeMayBeCancelled(t.steps);
    var acts := Drain(c, t);
  }

  /** Stopping an incomplete clean run may leave it Succeeded with steps that never ran exactly when
      nothing has failed or been terminated yet and some step has not reached its job. */
  lemma StopHollowIff(c: Config, s: RunState)
    requires Good(c, s) && !s.status.Completed()
    ensures CanEndHollow(c, s)
       <==> !AnyBad(s.steps) && (AnyCancelled(s.steps) || AnyBeforeJob(s.steps))
  {
    if CanEndHollow(c, s) {
      HollowNeedsWaiting(c, s);
    }
    if !AnyBad(s.steps) && (AnyCancelled(s.steps) || AnyBeforeJob(s.steps)) {
      WaitingCanEndHollow(c, s);
    }
  }

  /** The smallest case: a run stopped right after Start. */
  lemma StopAtOnceEndsHollow(c: Config)
    requires c.Valid()
    ensures CanEndHollow(c, StartRun(c, FreshSteps(c)))
  {
    FreshRunIsClean(c);
    var s := StartRun(c, FreshSteps(c));
    assert s.steps[c.order[0]].pc.AtSelect?;
    assert forall n | n in s.steps :: s.steps[n].status.NotStarted?;
    WaitingCanEndHollow(c, s);
  }
}
