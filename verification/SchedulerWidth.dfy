/** Exactly which workflows can hang. A failing job.Start keeps its slot, so a run hangs for good when
    every slot is lost that way while another step waits for one. That can happen if and only if the
    workflow has more mutually independent steps than it has slots. */
module SchedulerWidth {
  import opened Scheduler
  import opened SchedulerSafety
  import opened SchedulerProgress

  ghost predicate Depends(c: Config, a: StepName, b: StepName) {
    exists p: seq<StepName> :: IsPath(c, p) && p[0] == a && p[|p| - 1] == b
  }

  ghost predicate Antichain(c: Config, ws: seq<StepName>) {
    && (forall i, j :: 0 <= i < j < |ws| ==> ws[i] != ws[j])
    && (forall i | 0 <= i < |ws| :: ws[i] in c.deps)
    && (forall i, j :: 0 <= i < |ws| && 0 <= j < |ws| ==> !Depends(c, ws[i], ws[j]))
  }

  // ---- a hung run has many independent steps ----

  lemma {:induction false} Enumerate(s: set<StepName>) returns (q: seq<StepName>)
    ensures |q| == |s| && forall n :: n in s <==> n in q
    ensures forall i, j :: 0 <= i < j < |q| ==> q[i] != q[j]
    decreases |s|
  {
    if s == {} {
      q := [];
    } else {
      var n :| n in s;
      var rest := Enumerate(s - {n});
      q := [n] + rest;
    }
  }

  /** Steps that had their token and did not succeed are mutually independent. */
  lemma UnluckyAreIndependent(c: Config, s: RunState, a: StepName, b: StepName)
    requires Inv(c, s) && a in s.steps && b in s.steps
    requires s.steps[a].Engaged() && !s.steps[b].status.Ok()
    ensures !Depends(c, a, b)
  {
    if Depends(c, a, b) {
      var p: seq<StepName> :| IsPath(c, p) && p[0] == a && p[|p| - 1] == b;
      AncestorsOk(c, s, p);
    }
  }

  lemma HungNeedsWidth(c: Config, s: RunState) returns (ws: seq<StepName>)
    requires Inv(c, s) && Doomed(c, s)
    ensures Antichain(c, ws) && |ws| > c.parallelism
  {
    var w :| w in s.steps && s.steps[w].pc.AwaitSlot?;
    var stuck := Leaked(s.steps) + {w};
    ws := Enumerate(stuck);
    forall n | n in stuck
      ensures n in s.steps && s.steps[n].Engaged() && !s.steps[n].status.Ok()
    {
      assert StepOk(s.steps[n]);
    }
    forall i, j | 0 <= i < |ws| && 0 <= j < |ws|
      ensures !Depends(c, ws[i], ws[j])
    {
      assert ws[i] in ws && ws[j] in ws;
      UnluckyAreIndependent(c, s, ws[i], ws[j]);
    }
    forall i | 0 <= i < |ws|
      ensures ws[i] in c.deps
    {
      assert ws[i] in stuck;
    }
  }

  // ---- building a run that hangs ----

  lemma {:induction false} RunsConcat(c: Config, s: RunState, a: seq<Action>, b: seq<Action>)
    requires s.steps.Keys <= c.deps.Keys
    requires Runs(c, s, a) && Runs(c, After(c, s, a), b)
    ensures Runs(c, s, a + b) && After(c, s, a + b) == After(c, After(c, s, a), b)
    decreases |a|
  {
    if a == [] {
      assert a + b == b;
    } else {
      RunsConcat(c, Apply(c, s, a[0]), a[1..], b);
      assert (a + b)[1..] == a[1..] + b;
    }
  }

  lemma RunsCons(c: Config, s: RunState, a: Action, rest: seq<Action>)
    requires s.steps.Keys <= c.deps.Keys && Enabled(c, s, a) && Runs(c, Apply(c, s, a), rest)
    ensures Runs(c, s, [a] + rest) && After(c, s, [a] + rest) == After(c, Apply(c, s, a), rest)
  {
    assert ([a] + rest)[1..] == rest;
  }

  lemma RunsOne(c: Config, s: RunState, a: Action)
    requires s.steps.Keys <= c.deps.Keys && Enabled(c, s, a)
    ensures Runs(c, s, [a]) && After(c, s, [a]) == Apply(c, s, a)
  {
    RunsCons(c, s, a, []);
    assert [a] + [] == [a];
  }

  lemma RunsThen(c: Config, s: RunState, acts: seq<Action>, t: RunState, a: Action, u: RunState)
    requires s.steps.Keys <= c.deps.Keys && Runs(c, s, acts) && After(c, s, acts) == t
    requires Enabled(c, t, a) && Apply(c, t, a) == u
    ensures Runs(c, s, acts + [a]) && After(c, s, acts + [a]) == u
  {
    RunsOne(c, t, a);
    RunsConcat(c, s, acts, [a]);
  }

  /** A running, undisturbed run between two events. */
  ghost predicate Calm(c: Config, s: RunState) {
    Good(c, s) && s.status.RunRunning? && !s.cancelled && s.slots == 0 && s.events == 0
  }

  ghost predicate NothingBad(steps: map<StepName, StepState>) {
    forall n | n in steps :: !steps[n].status.Bad()
  }

  lemma JobTakesSlot(c: Config, s: RunState, n: StepName) returns (acts: seq<Action>, t: RunState)
    requires c.Valid() && s.steps.Keys == c.deps.Keys && n in s.steps && s.slots == 0 && !s.cancelled
    requires s.steps[n].pc.AtSelect? && s.steps[n].token
    ensures Runs(c, s, acts) && After(c, s, acts) == t
    ensures t == s.(steps := s.steps[n := s.steps[n].(token := false, pc := HoldingSlot)], slots := 1)
  {
    var t1 := s.(steps := s.steps[n := s.steps[n].(token := false, pc := AwaitSlot)]);
    RunsOne(c, s, Act(n, TakeToken));
    t := s.(steps := s.steps[n := s.steps[n].(token := false, pc := HoldingSlot)], slots := 1);
    assert t1.steps[n := t.steps[n]] == t.steps;
    RunsThen(c, s, [Act(n, TakeToken)], t1, Act(n, AcquireSlot), t);
    acts := [Act(n, TakeToken)] + [Act(n, AcquireSlot)];
  }

  lemma JobRuns(c: Config, s: RunState, n: StepName) returns (acts: seq<Action>, t: RunState)
    requires c.Valid() && s.steps.Keys == c.deps.Keys && n in s.steps && s.slots == 0 && !s.cancelled
    requires s.steps[n].pc.AtSelect? && s.steps[n].token
    ensures Runs(c, s, acts) && After(c, s, acts) == t
    ensures var st := s.steps[n].(token := false, jobId := "job", status := Succeeded, done := true, pc := Returned);
            t == s.(steps := s.steps[n := st], events := s.events + 1)
  {
    var held, t2 := JobTakesSlot(c, s, n);
    var t3 := t2.(steps := t2.steps[n := t2.steps[n].(jobId := "job", pc := Watching)]);
    RunsThen(c, s, held, t2, Act(n, StartSucceeds("job")), t3);
    var st := s.steps[n].(token := false, jobId := "job", status := Succeeded, done := true, pc := Returned);
    t := s.(steps := s.steps[n := st], events := s.events + 1);
    assert t3.steps[n := st] == t.steps;
    RunsThen(c, s, held + [Act(n, StartSucceeds("job"))], t3, Act(n, JobEnds(Succeeded)), t);
    acts := held + [Act(n, StartSucceeds("job"))] + [Act(n, JobEnds(Succeeded))];
  }

  lemma ListenCalms(c: Config, s: RunState, other: StepName) returns (t: RunState)
    requires Good(c, s) && s.status.RunRunning? && !s.cancelled && s.slots == 0 && s.events == 1
    requires NothingBad(s.steps) && other in s.steps && !s.steps[other].done
    ensures t == Apply(c, s, Listen) && Calm(c, t) && NothingBad(t.steps) && Marked(s.steps, t.steps)
  {
    t := Apply(c, s, Listen);
    CleanKept(c, s, Listen);
    ListenMarks(c, s);
    ListenCauses(c, s);
    MarkedSameStatuses(s.steps, t.steps);
    BadIsFailedOrTerminated(s.steps);
    assert !AnyBad(s.steps);
  }

  /** Step n has succeeded and nothing else has moved, save that tokens may have been sent. */
  ghost predicate Advanced(a: map<StepName, StepState>, b: map<StepName, StepState>, n: StepName) {
    && a.Keys == b.Keys && n in b && b[n].status.Succeeded?
    && forall k | k in a && k != n :: b[k] == a[k] || b[k] == Ready(a[k])
  }

  lemma JobLeavesRest(c: Config, s: RunState, n: StepName, other: StepName)
      returns (acts: seq<Action>, t: RunState)
    requires Calm(c, s) && NothingBad(s.steps)
    requires n in s.steps && s.steps[n].pc.AtSelect? && s.steps[n].token
    requires other in s.steps && other != n && !s.steps[other].done
    ensures Runs(c, s, acts) && After(c, s, acts) == t
    ensures Good(c, t) && t.status.RunRunning? && !t.cancelled && t.slots == 0 && t.events == 1
    ensures NothingBad(t.steps) && Advanced(s.steps, t.steps, n) && other in t.steps && !t.steps[other].done
  {
    acts, t := JobRuns(c, s, n);
    CleanAlways(c, s, acts);
  }

  lemma ThenListen(c: Config, s: RunState, job: seq<Action>, u: RunState, other: StepName)
      returns (acts: seq<Action>, t: RunState)
    requires s.steps.Keys <= c.deps.Keys && Runs(c, s, job) && After(c, s, job) == u
    requires Good(c, u) && u.status.RunRunning? && !u.cancelled && u.slots == 0 && u.events == 1
    requires NothingBad(u.steps) && other in u.steps && !u.steps[other].done
    ensures Runs(c, s, acts) && After(c, s, acts) == t
    ensures Calm(c, t) && NothingBad(t.steps) && Marked(u.steps, t.steps)
  {
    t := ListenCalms(c, u, other);
    RunsThen(c, s, job, u, Listen, t);
    acts := job + [Listen];
  }

  lemma AdvancedMarked(a: map<StepName, StepState>, u: map<StepName, StepState>, b: map<StepName, StepState>,
                       n: StepName)
    requires Advanced(a, u, n) && Marked(u, b)
    ensures Advanced(a, b, n)
  {
    forall k | k in a && k != n
      ensures b[k] == a[k] || b[k] == Ready(a[k])
    {
      assert u[k] == a[k] || u[k] == Ready(a[k]);
    }
  }

  /** One ready step runs its job to success and the loop handles its event. */
  lemma StepSucceeds(c: Config, s: RunState, n: StepName, other: StepName)
      returns (acts: seq<Action>, t: RunState)
    requires Calm(c, s) && NothingBad(s.steps)
    requires n in s.steps && s.steps[n].pc.AtSelect? && s.steps[n].token
    requires other in s.steps && other != n && !s.steps[other].done
    ensures Runs(c, s, acts) && After(c, s, acts) == t
    ensures Calm(c, t) && NothingBad(t.steps) && Advanced(s.steps, t.steps, n)
  {
    var job, u := JobLeavesRest(c, s, n, other);
    acts, t := ThenListen(c, s, job, u, other);
    AdvancedMarked(s.steps, u.steps, t.steps, n);
  }

  /** The steps that some member of ws depends on. */
  ghost function Below(c: Config, ws: seq<StepName>): set<StepName> {
    set n | n in c.deps && exists i :: 0 <= i < |ws| && Depends(c, ws[i], n)
  }

  lemma PathExtends(c: Config, a: StepName, b: StepName, d: StepName)
    requires c.Valid() && b in c.deps && d in c.deps[b] && d in c.deps
    requires a in c.deps && (a == b || Depends(c, a, b))
    ensures Depends(c, a, d)
  {
    if a == b {
      assert IsPath(c, [a, d]);
    } else {
      var p: seq<StepName> :| IsPath(c, p) && p[0] == a && p[|p| - 1] == b;
      var q := p + [d];
      assert IsPath(c, q);
    }
  }

  lemma BelowIsClosed(c: Config, ws: seq<StepName>, n: StepName, d: StepName)
    requires c.Valid() && Antichain(c, ws)
    requires n in Below(c, ws) || n in ws
    requires n in c.deps && d in c.deps[n]
    ensures d in Below(c, ws)
  {
    DepsAreSteps(c, n, d);
    if n in ws {
      var i :| 0 <= i < |ws| && ws[i] == n;
      PathExtends(c, n, n, d);
    } else {
      var i :| 0 <= i < |ws| && Depends(c, ws[i], n);
      PathExtends(c, ws[i], n, d);
    }
  }

  /** The first i steps of the order have succeeded if ws needs them; all others wait. */
  ghost predicate Prepared(c: Config, s: RunState, ws: seq<StepName>, i: nat) {
    Calm(c, s) && NothingBad(s.steps) && Layout(c, s.steps, ws, i)
  }

  ghost predicate Layout(c: Config, steps: map<StepName, StepState>, ws: seq<StepName>, i: nat) {
    forall j | 0 <= j < |c.order| ::
      && c.order[j] in steps
      && if j < i && c.order[j] in Below(c, ws) then steps[c.order[j]].status.Succeeded?
         else steps[c.order[j]].pc.AtSelect?
  }

  lemma ReadyAtSelect(c: Config, s: RunState, n: StepName)
    requires Calm(c, s) && n in s.steps && s.steps[n].pc.AtSelect? && DepsReady(c, s.steps, n)
    ensures s.steps[n].token
  {
    assert StepOk(s.steps[n]) && CleanStep(s.steps[n]);
  }

  lemma NeededIsReady(c: Config, s: RunState, ws: seq<StepName>, i: nat)
    requires Antichain(c, ws) && i < |c.order| && Prepared(c, s, ws, i) && c.order[i] in Below(c, ws)
    ensures s.steps[c.order[i]].token
  {
    var n := c.order[i];
    forall d | d in c.deps[n]
      ensures s.steps[d].status.Ok()
    {
      BelowIsClosed(c, ws, n, d);
      assert d in c.order[..i];
    }
    assert DepsReady(c, s.steps, n);
    ReadyAtSelect(c, s, n);
  }

  lemma WaitingStep(c: Config, s: RunState, ws: seq<StepName>, i: nat)
    requires Antichain(c, ws) && ws != [] && Prepared(c, s, ws, i)
    ensures ws[0] !in Below(c, ws) && ws[0] in s.steps && !s.steps[ws[0]].done
  {
    assert ws[0] in c.order;
    var j :| 0 <= j < |c.order| && c.order[j] == ws[0];
    assert s.steps[c.order[j]].pc.AtSelect?;
    assert StepOk(s.steps[ws[0]]);
  }

  lemma AdvancedLayout(c: Config, a: map<StepName, StepState>, b: map<StepName, StepState>, ws: seq<StepName>, i: nat)
    requires c.Valid() && i < |c.order| && Layout(c, a, ws, i) && c.order[i] in Below(c, ws)
    requires Advanced(a, b, c.order[i])
    ensures Layout(c, b, ws, i + 1)
  {
    forall j | 0 <= j < |c.order|
      ensures c.order[j] in b
      ensures if j < i + 1 && c.order[j] in Below(c, ws) then b[c.order[j]].status.Succeeded?
              else b[c.order[j]].pc.AtSelect?
    {
      if j != i {
        assert c.order[j] != c.order[i];
      }
    }
  }

  lemma PrepareOne(c: Config, s: RunState, ws: seq<StepName>, i: nat) returns (acts: seq<Action>)
    requires Antichain(c, ws) && ws != [] && i < |c.order| && Prepared(c, s, ws, i)
    ensures Runs(c, s, acts) && Prepared(c, After(c, s, acts), ws, i + 1)
  {
    if c.order[i] !in Below(c, ws) {
      acts := [];
    } else {
      NeededIsReady(c, s, ws, i);
      WaitingStep(c, s, ws, i);
      var t;
      acts, t := StepSucceeds(c, s, c.order[i], ws[0]);
      AdvancedLayout(c, s.steps, t.steps, ws, i);
    }
  }

  lemma {:induction false} Prepare(c: Config, s: RunState, ws: seq<StepName>, i: nat) returns (acts: seq<Action>)
    requires Antichain(c, ws) && ws != [] && i <= |c.order| && Prepared(c, s, ws, i)
    ensures Runs(c, s, acts) && Prepared(c, After(c, s, acts), ws, |c.order|)
    decreases |c.order| - i
  {
    if i == |c.order| {
      acts := [];
    } else {
      var first := PrepareOne(c, s, ws, i);
      var rest := Prepare(c, After(c, s, first), ws, i + 1);
      RunsConcat(c, s, first, rest);
      acts := first + rest;
    }
  }

  /** The first i of ws have taken their tokens, the others still can. */
  ghost predicate Taking(c: Config, s: RunState, ws: seq<StepName>, i: nat) {
    && s.steps.Keys == c.deps.Keys && s.slots == 0 && !s.cancelled
    && (forall j | 0 <= j < |ws| :: ws[j] in s.steps)
    && (forall j | 0 <= j < |ws| && j < i :: s.steps[ws[j]].pc.AwaitSlot?)
    && (forall j | i <= j < |ws| :: s.steps[ws[j]].pc.AtSelect? && s.steps[ws[j]].token)
  }

  lemma {:induction false} TakeAll(c: Config, s: RunState, ws: seq<StepName>, i: nat) returns (acts: seq<Action>)
    requires Antichain(c, ws) && i <= |ws| && Taking(c, s, ws, i)
    ensures Runs(c, s, acts) && Taking(c, After(c, s, acts), ws, |ws|)
    decreases |ws| - i
  {
    if i == |ws| {
      acts := [];
    } else {
      var a := Act(ws[i], TakeToken);
      var rest := TakeAll(c, Apply(c, s, a), ws, i + 1);
      acts := [a] + rest;
      assert acts[0] == a && acts[1..] == rest;
    }
  }

  /** The first i of ws have failed to start their jobs and left with their slots. */
  ghost predicate Failing(c: Config, s: RunState, ws: seq<StepName>, i: nat) {
    && s.steps.Keys == c.deps.Keys && s.slots == i && !s.cancelled
    && (forall j | 0 <= j < |ws| :: ws[j] in s.steps)
    && (forall j | 0 <= j < |ws| && j < i :: s.steps[ws[j]].pc.ReturnedWithSlot?)
    && (forall j | i <= j < |ws| :: s.steps[ws[j]].pc.AwaitSlot?)
  }

  lemma FailNext(c: Config, s: RunState, ws: seq<StepName>, i: nat) returns (s1: RunState, s2: RunState)
    requires Antichain(c, ws) && i < c.parallelism < |ws| && Failing(c, s, ws, i)
    ensures Enabled(c, s, Act(ws[i], AcquireSlot)) && s1 == Apply(c, s, Act(ws[i], AcquireSlot))
    ensures s1.steps.Keys == c.deps.Keys
    ensures Enabled(c, s1, Act(ws[i], StartFails(""))) && s2 == Apply(c, s1, Act(ws[i], StartFails("")))
    ensures Failing(c, s2, ws, i + 1)
  {
    s1 := Apply(c, s, Act(ws[i], AcquireSlot));
    s2 := Apply(c, s1, Act(ws[i], StartFails("")));
  }

  lemma {:induction false} FailSome(c: Config, s: RunState, ws: seq<StepName>, i: nat) returns (acts: seq<Action>)
    requires Antichain(c, ws) && i <= c.parallelism < |ws| && Failing(c, s, ws, i)
    ensures Runs(c, s, acts) && Failing(c, After(c, s, acts), ws, c.parallelism)
    decreases c.parallelism - i
  {
    if i == c.parallelism {
      acts := [];
    } else {
      var s1, s2 := FailNext(c, s, ws, i);
      var rest := FailSome(c, s2, ws, i + 1);
      RunsCons(c, s1, Act(ws[i], StartFails("")), rest);
      RunsCons(c, s, Act(ws[i], AcquireSlot), [Act(ws[i], StartFails(""))] + rest);
      acts := [Act(ws[i], AcquireSlot)] + ([Act(ws[i], StartFails(""))] + rest);
    }
  }

  lemma FailedIsDoomed(c: Config, s: RunState, ws: seq<StepName>)
    requires Antichain(c, ws) && c.parallelism < |ws| && Failing(c, s, ws, c.parallelism)
    ensures Doomed(c, s)
  {
    var lost := set j | 0 <= j < c.parallelism :: ws[j];
    PrefixSize(ws, c.parallelism);
    assert lost <= Leaked(s.steps);
    assert Leaked(s.steps) == lost + (Leaked(s.steps) - lost);
    assert s.steps[ws[c.parallelism]].pc.AwaitSlot?;
  }

  lemma {:induction false} PrefixSize(ws: seq<StepName>, k: nat)
    requires k <= |ws| && forall i, j :: 0 <= i < j < |ws| ==> ws[i] != ws[j]
    ensures |set j | 0 <= j < k :: ws[j]| == k
  {
    if k > 0 {
      PrefixSize(ws, k - 1);
      assert (set j | 0 <= j < k :: ws[j]) == (set j | 0 <= j < k - 1 :: ws[j]) + {ws[k - 1]};
    }
  }

  lemma PreparedHasToken(c: Config, s: RunState, ws: seq<StepName>, n: StepName)
    requires Antichain(c, ws) && Prepared(c, s, ws, |c.order|) && n in ws
    ensures n in s.steps && s.steps[n].pc.AtSelect? && s.steps[n].token
  {
    assert n !in Below(c, ws);
    assert n in c.order;
    forall d | d in c.deps[n]
      ensures d in s.steps && s.steps[d].status.Ok()
    {
      BelowIsClosed(c, ws, n, d);
      assert d in c.order;
    }
    assert DepsReady(c, s.steps, n);
    ReadyAtSelect(c, s, n);
  }

  lemma PreparedCanTake(c: Config, s: RunState, ws: seq<StepName>)
    requires Antichain(c, ws) && Prepared(c, s, ws, |c.order|)
    ensures Taking(c, s, ws, 0)
  {
    forall j | 0 <= j < |ws|
      ensures ws[j] in s.steps && s.steps[ws[j]].pc.AtSelect? && s.steps[ws[j]].token
    {
      PreparedHasToken(c, s, ws, ws[j]);
    }
  }

  lemma FreshIsPrepared(c: Config, ws: seq<StepName>)
    requires c.Valid()
    ensures Prepared(c, StartRun(c, FreshSteps(c)), ws, 0)
  {
    FreshRunIsClean(c);
  }

  lemma WidthHangs(c: Config, ws: seq<StepName>) returns (acts: seq<Action>)
    requires c.Valid() && Antichain(c, ws) && |ws| > c.parallelism
    ensures var s := StartRun(c, FreshSteps(c));
            Runs(c, s, acts) && Doomed(c, After(c, s, acts))
  {
    var s := StartRun(c, FreshSteps(c));
    FreshIsPrepared(c, ws);
    var first := Prepare(c, s, ws, 0);
    var s1 := After(c, s, first);
    PreparedCanTake(c, s1, ws);
    var second := TakeAll(c, s1, ws, 0);
    var s2 := After(c, s1, second);
    var third := FailSome(c, s2, ws, 0);
    FailedIsDoomed(c, After(c, s2, third), ws);
    RunsConcat(c, s1, second, third);
    RunsConcat(c, s, first, second + third);
    acts := first + (second + third);
  }

  ghost predicate CanHang(c: Config)
    requires c.Valid()
  {
    exists acts :: Runs(c, StartRun(c, FreshSteps(c)), acts) && Doomed(c, After(c, StartRun(c, FreshSteps(c)), acts))
  }

  ghost predicate Wide(c: Config) { exists ws :: Antichain(c, ws) && |ws| > c.parallelism }

  lemma HangingIsWide(c: Config)
    requires c.Valid() && CanHang(c)
    ensures Wide(c)
  {
    var s := StartRun(c, FreshSteps(c));
    var acts :| Runs(c, s, acts) && Doomed(c, After(c, s, acts));
    assert Inv(c, s) by { FreshRunIsClean(c); }
    InvAlways(c, s, acts);
    var ws := HungNeedsWidth(c, After(c, s, acts));
  }

  /** A started run can come to hang for good if and only if the workflow has more mutually
      independent steps than slots. */
  lemma CanHangIffWide(c: Config)
    requires c.Valid()
    ensures CanHang(c) <==> Wide(c)
  {
    if CanHang(c) {
      HangingIsWide(c);
    }
    if Wide(c) {
      var ws :| Antichain(c, ws) && |ws| > c.parallelism;
      var acts := WidthHangs(c, ws);
    }
  }

  /** Where no antichain exceeds the slots, every maximal clean run gives its verdict. */
  lemma NarrowRunsComplete(c: Config, s: RunState, acts: seq<Action>)
    requires Good(c, s) && Runs(c, s, acts)
    requires !Wide(c)
    requires forall a | IsProgress(a) :: !Enabled(c, After(c, s, acts), a)
    ensures After(c, s, acts).status.Completed()
  {
    CleanAlways(c, s, acts);
    var t := After(c, s, acts);
    if Doomed(c, t) {
      var ws := HungNeedsWidth(c, t);
    } else if !t.status.Completed() {
      var a := NeverStuck(c, t);
    }
  }
}
