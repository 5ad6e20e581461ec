/** What every step of a run keeps, and what it says about whole runs. */
module SchedulerSafety {
  import opened Scheduler

  // ---- the invariant ----

  /** The fields of one step agree with where its goroutine is. */
  predicate StepOk(st: StepState) {
    && (st.done <==> !st.status.NotEnded())
    && (st.done <==> st.Left())
    && (st.token ==> st.submitted)
    && (st.pc.AtSelect? ==> st.status.NotStarted?)
    && (st.pc.AwaitSlot? || st.pc.HoldingSlot? ==> st.submitted && !st.token && st.status.NotStarted?)
    && (st.pc.AwaitRecoverSlot? ==> st.status.Started())
    && (st.pc.Watching? ==> st.submitted || st.status.Started())
    && (st.pc.ReturnedWithSlot? ==> st.submitted && st.status.Failed?)
  }

  ghost predicate StepsOk(c: Config, steps: map<StepName, StepState>) {
    steps.Keys == c.deps.Keys && forall n | n in steps :: StepOk(steps[n])
  }

  ghost function Holders(steps: map<StepName, StepState>): set<StepName> {
    set n | n in steps && steps[n].HoldsSlot()
  }

  ghost predicate SlotsOk(c: Config, s: RunState) {
    s.slots == |Holders(s.steps)| && s.slots <= c.parallelism
  }

  /** Whoever relies on its dependencies has them all Succeeded or Cached. */
  ghost predicate DepsSafe(c: Config, steps: map<StepName, StepState>)
    requires steps.Keys <= c.deps.Keys
  {
    forall n | n in steps && steps[n].Engaged() :: DepsReady(c, steps, n)
  }

  ghost predicate StatusOk(s: RunState) {
    && (s.status.RunRunning? ==> !s.stopped)
    && (s.status.RunTerminating? ==> s.stopped && s.cancelled)
    && !s.status.Created?
    && (s.status.Completed() ==>
          (forall n | n in s.steps :: s.steps[n].done) && s.status == Verdict(s.steps, s.stopped))
  }

  ghost predicate Inv(c: Config, s: RunState) {
    && c.Valid()
    && StepsOk(c, s.steps)
    && SlotsOk(c, s)
    && DepsSafe(c, s.steps)
    && StatusOk(s)
  }

  // ---- what a single step keeps ----

  lemma StepOkKept(c: Config, s: RunState, st: StepState, m: Move)
    requires StepOk(st) && MoveEnabled(c, s, st, m)
    ensures !st.done && StepOk(MoveStep(st, m))
    ensures MoveStep(st, m).Engaged() ==> st.Engaged()
    ensures TakesSlot(m) ==> !st.HoldsSlot() && MoveStep(st, m).HoldsSlot()
    ensures FreesSlot(m) ==> st.HoldsSlot() && !MoveStep(st, m).HoldsSlot()
    ensures !TakesSlot(m) && !FreesSlot(m) ==> st.HoldsSlot() == MoveStep(st, m).HoldsSlot()
  {
  }

  /** Giving back a slot never blocks: the step that does it is counted in the channel. */
  lemma FreeingNeverBlocks(c: Config, s: RunState, n: StepName, m: Move)
    requires Inv(c, s) && n in s.steps && MoveEnabled(c, s, s.steps[n], m) && FreesSlot(m)
    ensures Enabled(c, s, Act(n, m))
  {
    StepOkKept(c, s, s.steps[n], m);
    assert n in Holders(s.steps);
  }

  lemma HoldersUpdated(steps: map<StepName, StepState>, n: StepName, st: StepState)
    requires n in steps
    ensures Holders(steps[n := st]) == if st.HoldsSlot() then Holders(steps) + {n} else Holders(steps) - {n}
  {
  }

  lemma HolderHasSlot(c: Config, s: RunState, n: StepName)
    requires SlotsOk(c, s) && n in s.steps
    ensures s.steps[n].HoldsSlot() ==> s.slots > 0
  {
    assert s.steps[n].HoldsSlot() ==> n in Holders(s.steps);
  }

  lemma SlotsKept(c: Config, s: RunState, n: StepName, m: Move)
    requires SlotsOk(c, s) && n in s.steps && StepOk(s.steps[n]) && s.steps.Keys <= c.deps.Keys
    requires Enabled(c, s, Act(n, m))
    ensures SlotsOk(c, Apply(c, s, Act(n, m)))
  {
    StepOkKept(c, s, s.steps[n], m);
    HoldersUpdated(s.steps, n, MoveStep(s.steps[n], m));
    var before := Holders(s.steps);
    assert s.steps[n].HoldsSlot() <==> n in before;
    assert |before + {n}| == if n in before then |before| else |before| + 1 by {
      if n in before { assert before + {n} == before; }
    }
    assert |before - {n}| == if n in before then |before| - 1 else |before| by {
      if n !in before { assert before - {n} == before; }
    }
  }

  lemma MoveKeepsDeps(c: Config, s: RunState, n: StepName, m: Move)
    requires StepsOk(c, s.steps) && DepsSafe(c, s.steps) && Enabled(c, s, Act(n, m))
    ensures DepsSafe(c, Apply(c, s, Act(n, m)).steps)
  {
    StepOkKept(c, s, s.steps[n], m);
    var after := s.steps[n := MoveStep(s.steps[n], m)];
    forall k | k in after && after[k].Engaged()
      ensures DepsReady(c, after, k)
    {
      assert s.steps[k].Engaged();
      assert DepsReady(c, s.steps, k);
      forall d | d in c.deps[k]
        ensures after[d].status.Ok()
      {
        assert s.steps[d].status.Ok() && StepOk(s.steps[d]);
      }
    }
  }

  lemma MoveKeepsInv(c: Config, s: RunState, n: StepName, m: Move)
    requires Inv(c, s) && Enabled(c, s, Act(n, m))
    ensures Inv(c, Apply(c, s, Act(n, m)))
  {
    StepOkKept(c, s, s.steps[n], m);
    SlotsKept(c, s, n, m);
    MoveKeepsDeps(c, s, n, m);
  }

  lemma MarkingKeepsStatuses(c: Config, steps: map<StepName, StepState>)
    requires StepsOk(c, steps)
    ensures var t := MarkReady(c, steps);
            && StepsOk(c, t) && Holders(t) == Holders(steps)
            && forall n | n in steps :: t[n].(submitted := steps[n].submitted, token := steps[n].token) == steps[n]
  {
  }

  lemma MarkingKeepsDeps(c: Config, steps: map<StepName, StepState>)
    requires StepsOk(c, steps) && DepsSafe(c, steps)
    ensures DepsSafe(c, MarkReady(c, steps))
  {
    MarkingKeepsStatuses(c, steps);
    var t := MarkReady(c, steps);
    forall n | n in t && t[n].Engaged()
      ensures DepsReady(c, t, n)
    {
      assert DepsReady(c, steps, n);
      assert forall d | d in c.deps[n] :: t[d].status == steps[d].status;
    }
  }

  lemma SameStatusSameVerdict(a: map<StepName, StepState>, b: map<StepName, StepState>, stopped: bool)
    requires a.Keys == b.Keys && forall n | n in a :: a[n].status == b[n].status
    ensures AnyFailed(a) == AnyFailed(b) && AnyTerminated(a) == AnyTerminated(b)
    ensures Verdict(a, stopped) == Verdict(b, stopped)
  {
    assert forall n | n in a :: n in b;
    assert forall n | n in b :: n in a && a[n].status == b[n].status;
  }

  lemma CountedIsDone(c: Config, steps: map<StepName, StepState>)
    requires StepsOk(c, steps)
    ensures AllCounted(steps) <==> forall n | n in steps :: steps[n].done
  {
    forall n | n in steps
      ensures steps[n].Counted() <==> steps[n].done
    {
      assert StepOk(steps[n]);
    }
  }

  lemma ConcludeStatus(s: RunState, allDone: bool, anyFailed: bool, anyTerminated: bool)
    requires !s.status.Completed() && !s.status.Created?
    requires (s.status.RunRunning? ==> !s.stopped) && (s.status.RunTerminating? ==> s.stopped && s.cancelled)
    ensures var t := Conclude(s, allDone, anyFailed, anyTerminated);
            && t.status == (if allDone then VerdictOf(anyFailed, anyTerminated, s.stopped) else s.status)
            && t.(status := s.status, cancelled := s.cancelled) == s
            && (t.cancelled <==> s.cancelled || (!allDone && (anyFailed || anyTerminated)))
  {
  }

  lemma ListenKeepsStatus(c: Config, s: RunState)
    requires StepsOk(c, s.steps) && StatusOk(s) && Enabled(c, s, Listen)
    ensures StatusOk(Apply(c, s, Listen))
  {
    var marked := MarkReady(c, s.steps);
    MarkingKeepsStatuses(c, s.steps);
    SameStatusSameVerdict(s.steps, marked, s.stopped);
    CountedIsDone(c, s.steps);
    assert forall n | n in s.steps :: marked[n].done == s.steps[n].done;
    ConcludeStatus(s.(events := s.events - 1, steps := marked),
                   AllCounted(s.steps), AnyFailed(s.steps), AnyTerminated(s.steps));
  }

  lemma ListenKeepsInv(c: Config, s: RunState)
    requires Inv(c, s) && Enabled(c, s, Listen)
    ensures Inv(c, Apply(c, s, Listen))
  {
    ListenKeepsStatus(c, s);
    MarkingKeepsStatuses(c, s.steps);
    MarkingKeepsDeps(c, s.steps);
    ConcludeStatus(s.(events := s.events - 1, steps := MarkReady(c, s.steps)),
                   AllCounted(s.steps), AnyFailed(s.steps), AnyTerminated(s.steps));
  }

  lemma InvKept(c: Config, s: RunState, a: Action)
    requires Inv(c, s) && Enabled(c, s, a)
    ensures Inv(c, Apply(c, s, a))
  {
    match a
    case Stop =>
    case Listen => ListenKeepsInv(c, s);
    case WatchNoise =>
    case Act(n, m) => MoveKeepsInv(c, s, n, m);
  }

  lemma {:induction false} InvAlways(c: Config, s: RunState, acts: seq<Action>)
    requires Inv(c, s) && Runs(c, s, acts)
    ensures Inv(c, After(c, s, acts))
    decreases |acts|
  {
    if acts != [] {
      InvKept(c, s, acts[0]);
      InvAlways(c, Apply(c, s, acts[0]), acts[1..]);
    }
  }

  // ---- where runs begin ----

  lemma SpawnKeepsStep(st: StepState)
    requires st.pc.NotSpawned? && !st.token && st.done == !st.status.NotEnded()
    ensures StepOk(Spawn(st)) && StepOk(Ready(Spawn(st)))
    ensures !Spawn(st).HoldsSlot() && !Ready(Spawn(st)).HoldsSlot()
    ensures Spawn(st).(pc := NotSpawned) == st
  {
  }

  predicate Startable(st: StepState) {
    st.pc.NotSpawned? && !st.token && st.done == !st.status.NotEnded()
  }

  lemma StartKeepsSteps(c: Config, steps: map<StepName, StepState>)
    requires c.Valid() && steps.Keys == c.deps.Keys
    requires forall n | n in steps :: Startable(steps[n])
    ensures var s := StartRun(c, steps);
            && StepsOk(c, s.steps)
            && Holders(s.steps) == {}
            && (forall n | n in steps :: s.steps[n].status == steps[n].status && s.steps[n].done == steps[n].done)
  {
    var s := StartRun(c, steps);
    forall n | n in steps
      ensures StepOk(s.steps[n]) && !s.steps[n].HoldsSlot()
      ensures s.steps[n].status == steps[n].status && s.steps[n].done == steps[n].done
    {
      assert Startable(steps[n]);
      SpawnKeepsStep(steps[n]);
      assert s.steps[n] == Spawn(steps[n]) || (s.steps[n] == Ready(Spawn(steps[n])) && !steps[n].done);
    }
  }

  lemma StartEngages(c: Config, steps: map<StepName, StepState>, n: StepName)
    requires c.Valid() && steps.Keys == c.deps.Keys && n in steps
    requires forall k | k in steps :: Startable(steps[k])
    requires StartRun(c, steps).steps[n].Engaged()
    ensures steps[n].Engaged() || DepsReady(c, steps, n)
  {
    assert StartRun(c, steps).steps[n] == StartStep(c, steps, n);
    assert Startable(steps[n]);
  }

  /** Start and Restart establish the invariant whenever the steps they are given respect it. */
  lemma StartEstablishesInv(c: Config, steps: map<StepName, StepState>)
    requires c.Valid() && steps.Keys == c.deps.Keys
    requires forall n | n in steps :: Startable(steps[n])
    requires DepsSafe(c, steps)
    ensures Inv(c, StartRun(c, steps))
  {
    StartKeepsSteps(c, steps);
    var s := StartRun(c, steps);
    forall n | n in s.steps && s.steps[n].Engaged()
      ensures DepsReady(c, s.steps, n)
    {
      StartEngages(c, steps, n);
      assert DepsReady(c, steps, n);
    }
  }

  // ---- transitive dependency safety ----

  lemma DepsAreSteps(c: Config, n: StepName, d: StepName)
    requires c.Valid() && n in c.deps && d in c.deps[n]
    ensures d in c.deps
  {
    var i :| 0 <= i < |c.order| && c.order[i] == n;
    assert d in c.order[..i];
  }

  /** p[0] depends on p[1], which depends on p[2], and so on. */
  ghost predicate IsPath(c: Config, p: seq<StepName>) {
    && |p| >= 2
    && (forall i | 0 <= i < |p| :: p[i] in c.deps)
    && (forall i | 0 <= i < |p| - 1 :: p[i + 1] in c.deps[p[i]])
  }

  lemma {:induction false} AncestorsOk(c: Config, s: RunState, p: seq<StepName>)
    requires Inv(c, s) && IsPath(c, p) && s.steps[p[0]].Engaged()
    ensures s.steps[p[|p| - 1]].status.Ok()
    decreases |p|
  {
    assert DepsReady(c, s.steps, p[0]);
    assert p[1] in c.deps[p[0]];
    if |p| > 2 {
      var q := p[1..];
      assert forall i | 0 <= i < |q| - 1 :: q[i + 1] in c.deps[q[i]] by {
        forall i | 0 <= i < |q| - 1 ensures q[i + 1] in c.deps[q[i]] {
          assert p[i + 2] in c.deps[p[i + 1]];
        }
      }
      AncestorsOk(c, s, q);
    }
  }

  /** In every state of every run, a step that holds its token or ever had a job has all its direct
      and indirect dependencies Succeeded or Cached. */
  lemma DependencySafety(c: Config, s: RunState, acts: seq<Action>, p: seq<StepName>)
    requires Inv(c, s) && Runs(c, s, acts) && IsPath(c, p)
    requires After(c, s, acts).steps[p[0]].Engaged()
    ensures After(c, s, acts).steps[p[|p| - 1]].status.Ok()
  {
    InvAlways(c, s, acts);
    AncestorsOk(c, After(c, s, acts), p);
  }

  // ---- slots ----

  ghost function Busy(steps: map<StepName, StepState>): set<StepName> {
    set n | n in steps && (steps[n].pc.HoldingSlot? || steps[n].pc.Watching?)
  }

  ghost function Leaked(steps: map<StepName, StepState>): set<StepName> {
    set n | n in steps && steps[n].pc.ReturnedWithSlot?
  }

  lemma HoldersSplit(steps: map<StepName, StepState>)
    ensures |Holders(steps)| == |Busy(steps)| + |Leaked(steps)|
  {
    assert Holders(steps) == Busy(steps) + Leaked(steps);
    assert Busy(steps) !! Leaked(steps);
  }

  /** The slot channel holds one entry per busy step and one per failed job.Start, and never more
      than the parallelism: so at most that many jobs run at once. */
  lemma SlotConservation(c: Config, s: RunState, acts: seq<Action>)
    requires Inv(c, s) && Runs(c, s, acts)
    ensures var t := After(c, s, acts);
            t.slots == |Busy(t.steps)| + |Leaked(t.steps)| && t.slots <= c.parallelism
  {
    InvAlways(c, s, acts);
    HoldersSplit(After(c, s, acts).steps);
  }

  // ---- at most one token, at most one job ----

  function JobStarts(acts: seq<Action>, n: StepName): nat {
    if acts == [] then 0
    else Bit(StartsJob(acts[0], n)) + JobStarts(acts[1..], n)
  }

  /** How often updateStatus sends n its token along the run. */
  function TokensSent(c: Config, s: RunState, acts: seq<Action>, n: StepName): nat
    requires s.steps.Keys <= c.deps.Keys && Runs(c, s, acts) && n in s.steps
    decreases |acts|
  {
    if acts == [] then 0
    else
      var t := Apply(c, s, acts[0]);
      Bit(acts[0].Listen? && t.steps[n] != s.steps[n]) + TokensSent(c, t, acts[1..], n)
  }

  /** A token is only ever sent into an empty channel, so sending never blocks the event loop. */
  lemma SendingNeverBlocks(c: Config, s: RunState, n: StepName)
    requires Inv(c, s) && n in s.steps && MarkReady(c, s.steps)[n] != s.steps[n]
    ensures !s.steps[n].token && !s.steps[n].submitted
    ensures MarkReady(c, s.steps)[n] == Ready(s.steps[n])
  {
    assert StepOk(s.steps[n]);
  }

  function Bit(b: bool): nat { if b then 1 else 0 }

  lemma TokenSentOnce(c: Config, s: RunState, a: Action, n: StepName)
    requires StepsOk(c, s.steps) && Enabled(c, s, a) && n in s.steps
    ensures var t := Apply(c, s, a);
            Bit(a.Listen? && t.steps[n] != s.steps[n]) + Bit(s.steps[n].submitted) == Bit(t.steps[n].submitted)
  {
    if a.Listen? {
      assert Apply(c, s, a).steps[n] == MarkReady(c, s.steps)[n];
    }
  }

  lemma {:induction false} TokenSentAtMostOnce(c: Config, s: RunState, acts: seq<Action>, n: StepName)
    requires Inv(c, s) && Runs(c, s, acts) && n in s.steps
    ensures TokensSent(c, s, acts, n) + Bit(s.steps[n].submitted) == Bit(After(c, s, acts).steps[n].submitted)
    decreases |acts|
  {
    if acts != [] {
      InvKept(c, s, acts[0]);
      TokenSentOnce(c, s, acts[0], n);
      TokenSentAtMostOnce(c, Apply(c, s, acts[0]), acts[1..], n);
    }
  }

  predicate BeforeJob(st: StepState) { st.pc.AtSelect? || st.pc.AwaitSlot? || st.pc.HoldingSlot? }

  predicate StartsJob(a: Action, n: StepName) {
    a.Act? && a.name == n && (a.move.StartFails? || a.move.StartSucceeds?)
  }

  lemma JobStartedOnce(c: Config, s: RunState, a: Action, n: StepName)
    requires StepsOk(c, s.steps) && Enabled(c, s, a) && n in s.steps
    ensures Bit(StartsJob(a, n)) + Bit(BeforeJob(Apply(c, s, a).steps[n])) <= Bit(BeforeJob(s.steps[n]))
  {
    if a.Listen? {
      assert Apply(c, s, a).steps[n] == MarkReady(c, s.steps)[n];
    }
  }

  lemma {:induction false} JobStartedAtMostOnce(c: Config, s: RunState, acts: seq<Action>, n: StepName)
    requires Inv(c, s) && Runs(c, s, acts) && n in s.steps
    ensures JobStarts(acts, n) + Bit(BeforeJob(After(c, s, acts).steps[n])) <= Bit(BeforeJob(s.steps[n]))
    decreases |acts|
  {
    if acts != [] {
      InvKept(c, s, acts[0]);
      JobStartedOnce(c, s, acts[0], n);
      JobStartedAtMostOnce(c, Apply(c, s, acts[0]), acts[1..], n);
    }
  }

  // ---- final statuses ----

  lemma CompletedStands(c: Config, s: RunState, a: Action)
    requires Inv(c, s) && s.status.Completed() && Enabled(c, s, a)
    ensures Apply(c, s, a).(events := s.events) == s
  {
    if a.Act? {
      StepOkKept(c, s, s.steps[a.name], a.move);
    }
  }

  lemma {:induction false} FinalIsAbsorbing(c: Config, s: RunState, acts: seq<Action>)
    requires Inv(c, s) && s.status.Completed() && Runs(c, s, acts)
    ensures After(c, s, acts).(events := s.events) == s
    decreases |acts|
  {
    if acts != [] {
      InvKept(c, s, acts[0]);
      CompletedStands(c, s, acts[0]);
      FinalIsAbsorbing(c, Apply(c, s, acts[0]), acts[1..]);
    }
  }

  /** The verdict, exactly: which statuses of the steps and which calls of Stop lead to it. */
  lemma VerdictMeans(c: Config, s: RunState, acts: seq<Action>)
    requires Inv(c, s) && Runs(c, s, acts) && After(c, s, acts).status.Completed()
    ensures var t := After(c, s, acts);
            && (forall n | n in t.steps :: t.steps[n].done)
            && (t.status.RunSucceeded? <==> !AnyFailed(t.steps) && !AnyTerminated(t.steps))
            && (t.status.RunTerminated? <==> !AnyFailed(t.steps) && AnyTerminated(t.steps) && t.stopped)
            && (t.status.RunFailed? <==> AnyFailed(t.steps) || (AnyTerminated(t.steps) && !t.stopped))
  {
    InvAlways(c, s, acts);
  }
}
