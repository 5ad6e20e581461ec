/** What a run has made of its steps, told from its actions alone: the view that is persisted holds, for
    every step, the id its job was started under and the last status that was reported. */
module SchedulerReports {
  import opened Scheduler
  import opened SchedulerSafety
  import opened SchedulerRetry

  /** The id that job.Start has last given to n along the run. */
  function LastId(acts: seq<Action>, n: StepName, id: string): string
    decreases |acts|
  {
    if acts == [] then id
    else LastId(acts[1..], n, if StartsJob(acts[0], n) then acts[0].move.id else id)
  }

  /** The status that the action gives its step, if it gives it any. */
  function Reported(m: Move, status: JobStatus): JobStatus {
    match m
    case CancelAtSelect | CancelHoldingSlot => Cancelled
    case CacheHit => Cached
    case CacheCheckFails => Failed
    case StartFails(_) => Failed
    case JobUpdates(update) => update
    case JobEnds(verdict) => verdict
    case TakeToken | AcquireSlot | RecoverSlot => status
    case StartSucceeds(_) => status
  }

  function LastStatus(acts: seq<Action>, n: StepName, status: JobStatus): JobStatus
    decreases |acts|
  {
    if acts == [] then status
    else LastStatus(acts[1..], n, if acts[0].Act? && acts[0].name == n then Reported(acts[0].move, status) else status)
  }

  lemma OneReport(c: Config, s: RunState, a: Action, n: StepName)
    requires s.steps.Keys <= c.deps.Keys && Enabled(c, s, a) && n in s.steps
    ensures var st := Apply(c, s, a).steps[n];
            && st.jobId == (if StartsJob(a, n) then a.move.id else s.steps[n].jobId)
            && st.status == (if a.Act? && a.name == n then Reported(a.move, s.steps[n].status) else s.steps[n].status)
  {
    if a.Listen? {
      assert Apply(c, s, a).steps[n] == MarkReady(c, s.steps)[n];
    }
  }

  /** After any run from any state, the view of a step is what the actions of the run have said of it. */
  lemma {:induction false} ViewIsReported(c: Config, s: RunState, acts: seq<Action>, n: StepName)
    requires s.steps.Keys <= c.deps.Keys && Runs(c, s, acts) && n in s.steps
    ensures View(After(c, s, acts).steps)[n] ==
            JobView(LastId(acts, n, s.steps[n].jobId), LastStatus(acts, n, s.steps[n].status))
    decreases |acts|
  {
    if acts != [] {
      OneReport(c, s, acts[0], n);
      ViewIsReported(c, Apply(c, s, acts[0]), acts[1..], n);
    }
  }

  lemma {:induction false} NoStartKeepsId(acts: seq<Action>, n: StepName, id: string)
    requires JobStarts(acts, n) == 0
    ensures LastId(acts, n, id) == id
    decreases |acts|
  {
    if acts != [] {
      NoStartKeepsId(acts[1..], n, id);
    }
  }

  /** A job that was started, or that failed to be, is persisted under its own id for the rest of the run. */
  lemma {:induction false} StartedIdIsPersisted(c: Config, s: RunState, acts: seq<Action>, n: StepName, i: nat)
    requires Inv(c, s) && Runs(c, s, acts) && n in s.steps && i < |acts| && StartsJob(acts[i], n)
    ensures View(After(c, s, acts).steps)[n].jobId == acts[i].move.id
    decreases |acts|
  {
    InvKept(c, s, acts[0]);
    if i == 0 {
      StartedFirst(c, s, acts[0], acts[1..], n);
    } else {
      StartedIdIsPersisted(c, Apply(c, s, acts[0]), acts[1..], n, i - 1);
    }
  }

  lemma StartedFirst(c: Config, s: RunState, a: Action, rest: seq<Action>, n: StepName)
    requires Inv(c, s) && Enabled(c, s, a) && Inv(c, Apply(c, s, a)) && Runs(c, Apply(c, s, a), rest)
    requires n in s.steps && StartsJob(a, n)
    ensures View(After(c, Apply(c, s, a), rest).steps)[n].jobId == a.move.id
  {
    var t := Apply(c, s, a);
    JobStartedOnce(c, s, a, n);
    JobStartedAtMostOnce(c, t, rest, n);
    NoStartKeepsId(rest, n, t.steps[n].jobId);
    OneReport(c, s, a, n);
    ViewIsReported(c, t, rest, n);
  }
}
