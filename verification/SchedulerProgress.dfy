/** Runs that begin with Start, or with Restart after a retry: what their verdict says about every
    step, that they end, and the one way in which they can hang. */
module SchedulerProgress {
  import opened Scheduler
  import opened SchedulerSafety

  // ---- the invariant of clean runs ----

  predicate CleanStep(st: StepState) {
    (st.pc.AtSelect? && st.submitted ==> st.token) && !st.pc.AwaitRecoverSlot?
  }

  ghost predicate AnyBad(steps: map<StepName, StepState>) {
    exists n | n in steps :: steps[n].status.Bad()
  }

  ghost predicate AnyCancelled(steps: map<StepName, StepState>) {
    exists n | n in steps :: steps[n].status.Cancelled?
  }

  ghost predicate AllDone(steps: map<StepName, StepState>) {
    forall n | n in steps :: steps[n].done
  }

  /** updateStatus would find nothing to do. */
  ghost predicate Quiet(c: Config, s: RunState)
    requires s.steps.Keys <= c.deps.Keys
  {
    && !AllDone(s.steps)
    && (AnyBad(s.steps) ==> s.cancelled)
    && (forall n | n in s.steps && !s.steps[n].done && DepsReady(c, s.steps, n) :: s.steps[n].submitted)
  }

  ghost predicate Clean(c: Config, s: RunState)
    requires s.steps.Keys <= c.deps.Keys
  {
    && (forall n | n in s.steps :: CleanStep(s.steps[n]))
    && (s.cancelled ==> s.stopped || AnyBad(s.steps))
    && (AnyCancelled(s.steps) ==> s.cancelled)
    && (s.events == 0 && !s.status.Completed() ==> Quiet(c, s))
  }

  ghost predicate Good(c: Config, s: RunState) { Inv(c, s) && Clean(c, s) }

  lemma SilentMoveStaysQuiet(c: Config, s: RunState, n: StepName, m: Move)
    requires StepsOk(c, s.steps) && Enabled(c, s, Act(n, m)) && !SendsEvent(m) && Quiet(c, s)
    ensures Quiet(c, Apply(c, s, Act(n, m)))
  {
    var t := Apply(c, s, Act(n, m));
    assert forall k | k in s.steps ::
        t.steps[k].done == s.steps[k].done && t.steps[k].status == s.steps[k].status
        && t.steps[k].submitted == s.steps[k].submitted;
    assert forall k | k in s.steps :: DepsReady(c, t.steps, k) ==> DepsReady(c, s.steps, k) by {
      forall k | k in s.steps && DepsReady(c, t.steps, k)
        ensures DepsReady(c, s.steps, k)
      {
        assert forall d | d in c.deps[k] :: d in t.steps && t.steps[d].status.Ok();
      }
    }
  }

  lemma MoveKeepsCauses(c: Config, s: RunState, n: StepName, m: Move)
    requires StepsOk(c, s.steps) && Clean(c, s) && Enabled(c, s, Act(n, m))
    ensures var t := Apply(c, s, Act(n, m));
            && (t.cancelled ==> t.stopped || AnyBad(t.steps))
            && (AnyCancelled(t.steps) ==> t.cancelled)
  {
    var t := Apply(c, s, Act(n, m));
    StepOkKept(c, s, s.steps[n], m);
    if s.cancelled && !s.stopped {
      var k :| k in s.steps && s.steps[k].status.Bad();
      assert k != n by { assert StepOk(s.steps[k]); }
      assert t.steps[k].status.Bad();
    }
    if AnyCancelled(t.steps) {
      var k :| k in t.steps && t.steps[k].status.Cancelled?;
      if k != n {
        assert s.steps[k].status.Cancelled?;
      }
    }
  }

  lemma MoveKeepsClean(c: Config, s: RunState, n: StepName, m: Move)
    requires StepsOk(c, s.steps) && Clean(c, s) && Enabled(c, s, Act(n, m))
    ensures Clean(c, Apply(c, s, Act(n, m)))
  {
    MoveKeepsCauses(c, s, n, m);
    var t := Apply(c, s, Act(n, m));
    forall k | k in t.steps
      ensures CleanStep(t.steps[k])
    {
      assert CleanStep(s.steps[k]);
    }
    if t.events == 0 && !t.status.Completed() {
      SilentMoveStaysQuiet(c, s, n, m);
    }
  }

  /** What marking may change: an undone step gets its token. */
  ghost predicate Marked(a: map<StepName, StepState>, b: map<StepName, StepState>) {
    a.Keys == b.Keys && forall n | n in a :: b[n] == a[n] || b[n] == Ready(a[n])
  }

  lemma ListenMarks(c: Config, s: RunState)
    requires StepsOk(c, s.steps) && Enabled(c, s, Listen)
    ensures var t := Apply(c, s, Listen);
            && Marked(s.steps, t.steps) && t.slots == s.slots
            && (AllDone(s.steps) <==> AllCounted(s.steps))
            && forall n | n in s.steps && !s.steps[n].done && DepsReady(c, s.steps, n) :: t.steps[n].submitted
  {
    CountedIsDone(c, s.steps);
    var t := Apply(c, s, Listen);
    assert t.steps == MarkReady(c, s.steps);
    forall n | n in s.steps && !s.steps[n].done && DepsReady(c, s.steps, n)
      ensures t.steps[n].submitted
    {
      assert StepOk(s.steps[n]);
    }
  }

  lemma MarkedSameStatuses(a: map<StepName, StepState>, b: map<StepName, StepState>)
    requires Marked(a, b)
    ensures AllDone(a) == AllDone(b) && AnyBad(a) == AnyBad(b) && AnyCancelled(a) == AnyCancelled(b)
  {
    assert forall n | n in a :: n in b && b[n].status == a[n].status && b[n].done == a[n].done;
    assert forall n | n in b :: n in a;
  }

  lemma MarkedSameDeps(c: Config, a: map<StepName, StepState>, b: map<StepName, StepState>, n: StepName)
    requires Marked(a, b) && n in c.deps && DepsReady(c, b, n)
    ensures DepsReady(c, a, n)
  {
    assert forall d | d in c.deps[n] :: d in b && b[d].status.Ok();
  }

  lemma ListenKeepsClean(c: Config, s: RunState)
    requires StepsOk(c, s.steps) && StatusOk(s) && Clean(c, s) && Enabled(c, s, Listen)
    ensures Clean(c, Apply(c, s, Listen))
  {
    var t := Apply(c, s, Listen);
    ListenMarks(c, s);
    MarkedSameStatuses(s.steps, t.steps);
    BadIsFailedOrTerminated(s.steps);
    ListenCauses(c, s);
    forall k | k in t.steps
      ensures CleanStep(t.steps[k])
    {
      assert CleanStep(s.steps[k]);
    }
    if !t.status.Completed() {
      forall n | n in t.steps && !t.steps[n].done && DepsReady(c, t.steps, n)
        ensures t.steps[n].submitted
      {
        MarkedSameDeps(c, s.steps, t.steps, n);
      }
    }
  }

  lemma BadIsFailedOrTerminated(steps: map<StepName, StepState>)
    ensures AnyBad(steps) <==> AnyFailed(steps) || AnyTerminated(steps)
  {
  }

  lemma ListenCauses(c: Config, s: RunState)
    requires s.steps.Keys <= c.deps.Keys && Enabled(c, s, Listen)
    ensures var t := Apply(c, s, Listen);
            && t.stopped == s.stopped
            && (t.status.Completed() <==> AllCounted(s.steps))
            && (t.cancelled <==>
                  s.cancelled || (!AllCounted(s.steps) && (AnyFailed(s.steps) || AnyTerminated(s.steps))))
  {
  }

  lemma CleanKept(c: Config, s: RunState, a: Action)
    requires Good(c, s) && Enabled(c, s, a)
    ensures Good(c, Apply(c, s, a))
  {
    InvKept(c, s, a);
    match a
    case Stop =>
    case Listen => ListenKeepsClean(c, s);
    case WatchNoise =>
    case Act(n, m) => MoveKeepsClean(c, s, n, m);
  }

  lemma {:induction false} CleanAlways(c: Config, s: RunState, acts: seq<Action>)
    requires Good(c, s) && Runs(c, s, acts)
    ensures Good(c, After(c, s, acts))
    decreases |acts|
  {
    if acts != [] {
      CleanKept(c, s, acts[0]);
      CleanAlways(c, Apply(c, s, acts[0]), acts[1..]);
    }
  }

  /** Steps as Start finds them, or as a retry leaves them: succeeded ones, and the rest as new. */
  predicate FreshOrOk(st: StepState) {
    Startable(st) && (if st.done then st.status.Ok() else st == NewStep())
  }

  lemma StartSendsTokens(c: Config, steps: map<StepName, StepState>, n: StepName)
    requires c.Valid() && steps.Keys == c.deps.Keys && n in steps && FreshOrOk(steps[n])
    ensures var s := StartRun(c, steps);
            && CleanStep(s.steps[n]) && s.steps[n].status == steps[n].status && s.steps[n].done == steps[n].done
            && (!steps[n].done && DepsReady(c, steps, n) ==>
                  s.steps[n].submitted && s.steps[n].token && s.steps[n].pc.AtSelect?)
  {
    assert StartRun(c, steps).steps[n] == StartStep(c, steps, n);
  }

  lemma CleanBegin(c: Config, steps: map<StepName, StepState>, s: RunState)
    requires steps.Keys == s.steps.Keys == c.deps.Keys && !s.cancelled && !AllDone(steps)
    requires forall n | n in steps :: CleanStep(s.steps[n]) && (steps[n].done ==> steps[n].status.Ok())
    requires forall n | n in steps :: !steps[n].done ==> steps[n].status.NotStarted?
    requires forall n | n in steps :: s.steps[n].status == steps[n].status && s.steps[n].done == steps[n].done
    requires forall n | n in steps && !steps[n].done && DepsReady(c, steps, n) :: s.steps[n].submitted
    ensures Clean(c, s)
  {
    assert forall n | n in s.steps :: !s.steps[n].status.Bad() && !s.steps[n].status.Cancelled?;
    forall n | n in s.steps && !s.steps[n].done && DepsReady(c, s.steps, n)
      ensures s.steps[n].submitted
    {
      assert DepsReady(c, steps, n) by {
        assert forall d | d in c.deps[n] :: d in s.steps && s.steps[d].status.Ok();
      }
    }
    var k :| k in steps && !steps[k].done;
    assert !s.steps[k].done;
  }

  lemma StartIsClean(c: Config, steps: map<StepName, StepState>)
    requires c.Valid() && steps.Keys == c.deps.Keys && DepsSafe(c, steps)
    requires forall n | n in steps :: FreshOrOk(steps[n])
    requires !AllDone(steps)
    ensures Good(c, StartRun(c, steps))
  {
    assert forall n | n in steps :: Startable(steps[n]);
    StartEstablishesInv(c, steps);
    forall n | n in steps
      ensures var s := StartRun(c, steps);
              && CleanStep(s.steps[n]) && s.steps[n].status == steps[n].status && s.steps[n].done == steps[n].done
              && (!steps[n].done && DepsReady(c, steps, n) ==> s.steps[n].submitted)
    {
      StartSendsTokens(c, steps, n);
    }
    CleanBegin(c, steps, StartRun(c, steps));
  }

  lemma FreshRunIsClean(c: Config)
    requires c.Valid()
    ensures Good(c, StartRun(c, FreshSteps(c)))
  {
    var steps := FreshSteps(c);
    assert c.order[0] in steps && !steps[c.order[0]].done;
    StartIsClean(c, steps);
  }

  // ---- what the verdict says about every step ----

  /** A clean run that completes without Stop ends Succeeded exactly when every step succeeded or
      was taken from the cache; otherwise it ends Failed with a step to blame. */
  lemma VerdictSound(c: Config, s: RunState, acts: seq<Action>)
    requires Good(c, s) && Runs(c, s, acts)
    requires After(c, s, acts).status.Completed() && !After(c, s, acts).stopped
    ensures var t := After(c, s, acts);
            && (t.status.RunSucceeded? <==> forall n | n in t.steps :: t.steps[n].status.Ok())
            && (t.status.RunFailed? <==> AnyBad(t.steps))
            && !t.status.RunTerminated?
  {
    CleanAlways(c, s, acts);
    var t := After(c, s, acts);
    if t.status.RunSucceeded? {
      assert !AnyFailed(t.steps) && !AnyTerminated(t.steps);
      forall n | n in t.steps
        ensures t.steps[n].status.Ok()
      {
        assert StepOk(t.steps[n]) && t.steps[n].done;
        assert !t.steps[n].status.Cancelled?;
      }
    }
  }

  // ---- progress ----

  /** Every slot is held by a step whose job.Start failed, and some step still waits for one. */
  ghost predicate Doomed(c: Config, s: RunState) {
    |Leaked(s.steps)| >= c.parallelism && exists n | n in s.steps :: s.steps[n].pc.AwaitSlot?
  }

  /** What moves a run forward: everything but Stop, watch errors and non-final job updates. */
  predicate IsProgress(a: Action) { a.Listen? || (a.Act? && !a.move.JobUpdates?) }

  lemma FirstUndone(c: Config, steps: map<StepName, StepState>) returns (k: nat)
    requires c.Valid() && steps.Keys == c.deps.Keys && !AllDone(steps)
    ensures k < |c.order| && !steps[c.order[k]].done
    ensures forall j | 0 <= j < k :: steps[c.order[j]].done
  {
    var n :| n in steps && !steps[n].done;
    var m :| 0 <= m < |c.order| && c.order[m] == n;
    k := 0;
    while steps[c.order[k]].done
      invariant k <= m
      invariant forall j | 0 <= j < k :: steps[c.order[j]].done
      decreases m - k
    {
      k := k + 1;
    }
  }

  /** With nothing bad and nothing cancelled, the first undone step of the order has its token. */
  lemma FirstUndoneHasToken(c: Config, s: RunState, k: nat)
    requires Good(c, s) && Quiet(c, s) && !s.cancelled
    requires k < |c.order| && !s.steps[c.order[k]].done
    requires forall j | 0 <= j < k :: s.steps[c.order[j]].done
    ensures s.steps[c.order[k]].submitted
  {
    var n := c.order[k];
    forall d | d in c.deps[n]
      ensures s.steps[d].status.Ok()
    {
      assert d in c.order[..k];
      assert StepOk(s.steps[d]);
      assert !s.steps[d].status.Bad() && !s.steps[d].status.Cancelled?;
    }
    assert DepsReady(c, s.steps, n);
  }

  lemma SlotFreeOrBusy(c: Config, s: RunState) returns (n: StepName)
    requires SlotsOk(c, s) && |Leaked(s.steps)| < c.parallelism
    ensures s.slots < c.parallelism || n in Busy(s.steps)
  {
    HoldersSplit(s.steps);
    if s.slots == c.parallelism {
      n :| n in Busy(s.steps);
    } else {
      n := "";
    }
  }

  /** A step that is neither done nor waiting for its token can move, or some other step can free a slot. */
  lemma EngagedStepMoves(c: Config, s: RunState, n: StepName) returns (a: Action)
    requires Good(c, s) && !Doomed(c, s)
    requires n in s.steps && !s.steps[n].done && !(s.steps[n].pc.AtSelect? && !s.cancelled && !s.steps[n].token)
    ensures IsProgress(a) && Enabled(c, s, a)
  {
    var st := s.steps[n];
    assert StepOk(st) && CleanStep(st);
    if st.pc.AtSelect? {
      a := Act(n, if s.cancelled then CancelAtSelect else TakeToken);
    } else if st.pc.AwaitSlot? {
      var b := SlotFreeOrBusy(c, s);
      if s.slots < c.parallelism {
        a := Act(n, AcquireSlot);
      } else {
        a := BusyStepMoves(c, s, b);
      }
    } else {
      a := BusyStepMoves(c, s, n);
    }
  }

  lemma BusyStepMoves(c: Config, s: RunState, n: StepName) returns (a: Action)
    requires Inv(c, s) && n in Busy(s.steps)
    ensures IsProgress(a) && Enabled(c, s, a)
  {
    assert n in Holders(s.steps);
    if s.steps[n].pc.Watching? {
      a := Act(n, JobEnds(Succeeded));
    } else {
      a := Act(n, if s.cancelled then CancelHoldingSlot else StartSucceeds("job"));
    }
  }

  /** A clean run that has not completed can always go on, unless it is doomed. */
  lemma NeverStuck(c: Config, s: RunState) returns (a: Action)
    requires Good(c, s) && !s.status.Completed() && !Doomed(c, s)
    ensures IsProgress(a) && Enabled(c, s, a)
  {
    if s.events > 0 {
      a := Listen;
    } else {
      var k := FirstUndone(c, s.steps);
      if !s.cancelled {
        FirstUndoneHasToken(c, s, k);
        assert CleanStep(s.steps[c.order[k]]);
      }
      a := EngagedStepMoves(c, s, c.order[k]);
    }
  }

  lemma LeakedGrows(a: map<StepName, StepState>, b: map<StepName, StepState>)
    requires Leaked(a) <= Leaked(b)
    ensures |Leaked(a)| <= |Leaked(b)|
  {
    assert Leaked(b) == Leaked(a) + (Leaked(b) - Leaked(a));
  }

  lemma MoveKeepsDoom(c: Config, s: RunState, n: StepName, m: Move)
    requires StepsOk(c, s.steps) && SlotsOk(c, s) && Doomed(c, s) && Enabled(c, s, Act(n, m))
    ensures Doomed(c, Apply(c, s, Act(n, m)))
  {
    HoldersSplit(s.steps);
    StepOkKept(c, s, s.steps[n], m);
    var w :| w in s.steps && s.steps[w].pc.AwaitSlot?;
    var after := s.steps[n := MoveStep(s.steps[n], m)];
    assert after[w].pc.AwaitSlot?;
    assert Leaked(s.steps) <= Leaked(after) by {
      forall k | k in Leaked(s.steps)
        ensures k in Leaked(after)
      {
        assert StepOk(s.steps[k]);
      }
    }
    LeakedGrows(s.steps, after);
  }

  lemma MarkedKeepsDoom(c: Config, s: RunState, t: RunState)
    requires Marked(s.steps, t.steps) && Doomed(c, s)
    ensures Doomed(c, t)
  {
    var w :| w in s.steps && s.steps[w].pc.AwaitSlot?;
    assert t.steps[w].pc.AwaitSlot?;
    assert Leaked(s.steps) == Leaked(t.steps);
  }

  lemma DoomedKept(c: Config, s: RunState, a: Action)
    requires Inv(c, s) && Doomed(c, s) && Enabled(c, s, a)
    ensures Doomed(c, Apply(c, s, a))
  {
    if a.Act? {
      MoveKeepsDoom(c, s, a.name, a.move);
    } else {
      if a.Listen? {
        ListenMarks(c, s);
      }
      MarkedKeepsDoom(c, s, Apply(c, s, a));
    }
  }

  /** A doomed run hangs for good: whatever happens, it never completes. */
  lemma {:induction false} DoomedForever(c: Config, s: RunState, acts: seq<Action>)
    requires Inv(c, s) && Doomed(c, s) && Runs(c, s, acts)
    ensures Doomed(c, After(c, s, acts)) && !After(c, s, acts).status.Completed()
    decreases |acts|
  {
    if acts == [] {
      var w :| w in s.steps && s.steps[w].pc.AwaitSlot?;
      assert StepOk(s.steps[w]);
    } else {
      DoomedKept(c, s, acts[0]);
      InvKept(c, s, acts[0]);
      DoomedForever(c, Apply(c, s, acts[0]), acts[1..]);
    }
  }

  // ---- termination ----

  /** How many more progress actions a step can still cause, counting the handling of its event. */
  function Weight(st: StepState): nat {
    match st.pc
    case AtSelect => 5
    case AwaitSlot => 4
    case HoldingSlot => 3
    case AwaitRecoverSlot => 3
    case Watching => 2
    case _ => 0
  }

  function Weights(order: seq<StepName>, steps: map<StepName, StepState>): nat
    requires forall n | n in order :: n in steps
  {
    if order == [] then 0 else Weight(steps[order[0]]) + Weights(order[1..], steps)
  }

  lemma {:induction false} WeightsSame(order: seq<StepName>, a: map<StepName, StepState>, b: map<StepName, StepState>)
    requires forall n | n in order :: n in a && n in b && Weight(a[n]) == Weight(b[n])
    ensures Weights(order, a) == Weights(order, b)
  {
    if order != [] {
      WeightsSame(order[1..], a, b);
    }
  }

  lemma {:induction false} WeightsUpdated(order: seq<StepName>, a: map<StepName, StepState>, n: StepName, st: StepState)
    requires forall k | k in order :: k in a
    requires forall i, j :: 0 <= i < j < |order| ==> order[i] != order[j]
    requires n in order
    ensures Weights(order, a[n := st]) + Weight(a[n]) == Weights(order, a) + Weight(st)
  {
    if order[0] == n {
      WeightsSame(order[1..], a, a[n := st]);
    } else {
      WeightsUpdated(order[1..], a, n, st);
    }
  }

  function Rank(c: Config, s: RunState): nat
    requires forall n | n in c.order :: n in s.steps
  {
    Weights(c.order, s.steps) + s.events
  }

  lemma MoveRanks(c: Config, s: RunState, n: StepName, m: Move)
    requires c.Valid() && s.steps.Keys == c.deps.Keys && Enabled(c, s, Act(n, m))
    ensures var t := Apply(c, s, Act(n, m));
            Rank(c, t) + Bit(!m.JobUpdates?) <= Rank(c, s) + Bit(m.JobUpdates?)
  {
    MoveWeighs(c, s, s.steps[n], m);
    MovedWeights(c.order, s.steps, n, MoveStep(s.steps[n], m), c.deps.Keys);
    var t := Apply(c, s, Act(n, m));
    assert t.steps == s.steps[n := MoveStep(s.steps[n], m)] && t.events == s.events + Bit(SendsEvent(m));
  }

  /** What a move takes off the weight of its step pays for the event that it sends. */
  lemma MoveWeighs(c: Config, s: RunState, st: StepState, m: Move)
    requires MoveEnabled(c, s, st, m)
    ensures Weight(MoveStep(st, m)) + Bit(SendsEvent(m)) + Bit(!m.JobUpdates?) <= Weight(st) + Bit(m.JobUpdates?)
  {
  }

  lemma MovedWeights(order: seq<StepName>, steps: map<StepName, StepState>, n: StepName, st: StepState,
                     all: set<StepName>)
    requires n in steps && steps.Keys == all && forall k :: k in all <==> k in order
    requires forall i, j :: 0 <= i < j < |order| ==> order[i] != order[j]
    ensures Weights(order, steps[n := st]) + Weight(steps[n]) == Weights(order, steps) + Weight(st)
  {
    WeightsUpdated(order, steps, n, st);
  }

  lemma ListenRanks(c: Config, s: RunState)
    requires c.Valid() && StepsOk(c, s.steps) && Enabled(c, s, Listen)
    ensures Rank(c, Apply(c, s, Listen)) + 1 == Rank(c, s)
  {
    ListenMarks(c, s);
    WeightsSame(c.order, s.steps, Apply(c, s, Listen).steps);
  }

  lemma RankSteps(c: Config, s: RunState, a: Action)
    requires c.Valid() && StepsOk(c, s.steps) && Enabled(c, s, a)
    ensures Rank(c, Apply(c, s, a)) + Bit(IsProgress(a)) <= Rank(c, s) + Bit(!IsProgress(a))
  {
    match a
    case Act(n, m) => MoveRanks(c, s, n, m);
    case Listen => ListenRanks(c, s);
    case _ =>
  }

  function ProgressCount(acts: seq<Action>): nat {
    if acts == [] then 0 else Bit(IsProgress(acts[0])) + ProgressCount(acts[1..])
  }

  /** A run makes at most Rank + (number of Stops, watch errors and job updates) steps of progress. */
  lemma {:induction false} RunsAreBounded(c: Config, s: RunState, acts: seq<Action>)
    requires Inv(c, s) && Runs(c, s, acts)
    ensures Rank(c, After(c, s, acts)) + ProgressCount(acts) <= Rank(c, s) + (|acts| - ProgressCount(acts))
    decreases |acts|
  {
    if acts != [] {
      RankSteps(c, s, acts[0]);
      InvKept(c, s, acts[0]);
      RunsAreBounded(c, Apply(c, s, acts[0]), acts[1..]);
    }
  }

  lemma {:induction false} WeightsBound(order: seq<StepName>, steps: map<StepName, StepState>)
    requires forall n | n in order :: n in steps
    ensures Weights(order, steps) <= 5 * |order|
  {
    if order != [] {
      WeightsBound(order[1..], steps);
    }
  }

  /** Every maximal clean run completes or is doomed: it takes at most five progress actions per step
      and one per disturbance, and where none is left the verdict has been given. */
  lemma MaximalRunsEnd(c: Config, s: RunState, acts: seq<Action>)
    requires Good(c, s) && s.events == 0 && Runs(c, s, acts)
    ensures ProgressCount(acts) <= 5 * |c.order| + (|acts| - ProgressCount(acts))
    ensures (forall a | IsProgress(a) :: !Enabled(c, After(c, s, acts), a)) ==>
            After(c, s, acts).status.Completed() || Doomed(c, After(c, s, acts))
  {
    RunsAreBounded(c, s, acts);
    WeightsBound(c.order, s.steps);
    CleanAlways(c, s, acts);
    var t := After(c, s, acts);
    if !t.status.Completed() && !Doomed(c, t) {
      var a := NeverStuck(c, t);
    }
  }
}
