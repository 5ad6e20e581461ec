/** From the text of a workflow to a running scheduler: newWorkflowRuntime of pkg/pipeline/workflow.go
    sorts the steps, clamps the parallelism and files one Step under each sorted name. */
module WorkflowBuild {
  import opened Dependencies
  import opened Dag
  import opened Scheduler
  import opened WorkflowRuntime

  const WF_PARALLELISM_DEFAULT: nat := 10
  const WF_PARALLELISM_MAXIMUM: nat := 20

  function ClampParallelism(parallelism: int): (slots: nat)
    ensures 1 <= slots <= WF_PARALLELISM_MAXIMUM
    ensures 1 <= parallelism <= WF_PARALLELISM_MAXIMUM ==> slots == parallelism
    ensures parallelism > WF_PARALLELISM_MAXIMUM ==> slots == WF_PARALLELISM_MAXIMUM
    ensures parallelism <= 0 ==> slots == WF_PARALLELISM_DEFAULT
  {
    if parallelism <= 0 then WF_PARALLELISM_DEFAULT
    else if parallelism > WF_PARALLELISM_MAXIMUM then WF_PARALLELISM_MAXIMUM
    else parallelism
  }

  /** The scheduler's view of a workflow: for each sorted step the names isDepsReady will look up. */
  function ConfigOf(texts: map<Name, string>, order: seq<Name>, parallelism: int, cacheEnabled: bool): Config
    requires forall n | n in order :: n in texts
  {
    Config(map n | n in order :: (set d | d in ReadyNames(texts[n])), order, ClampParallelism(parallelism),
           cacheEnabled)
  }

  /** Every name in a dependency list is a step that the sort keeps. */
  ghost predicate DepsAreKnown(texts: map<Name, string>) {
    forall n, d | n in texts && d in DepNames(texts[n]) :: d in Unsorted(texts)
  }

  ghost predicate TextsAreClean(texts: map<Name, string>) {
    forall n | n in texts :: CleanText(texts[n])
  }

  /** Whatever order the sort returns, the scheduler gets an acyclic configuration whose every
      dependency is a step listed earlier, as all the run-time theorems ask. */
  lemma SortedIsValid(texts: map<Name, string>, order: seq<Name>, parallelism: int, cacheEnabled: bool)
    requires DepsAreKnown(texts) && TextsAreClean(texts)
    requires TopoOrder(Unsorted(texts), order) && order != []
    ensures ConfigOf(texts, order, parallelism, cacheEnabled).Valid()
  {
    var c := ConfigOf(texts, order, parallelism, cacheEnabled);
    assert forall n | n in order :: n in texts;
    forall i, d | 0 <= i < |order| && d in c.deps[order[i]]
      ensures d in order[..i]
    {
      assert d in ReadyNames(texts[order[i]]);
      ReadyNamesAreDepNames(texts, order[i]);
      DepIsKnown(texts, order[i], d);
    }
  }

  lemma ReadyNamesAreDepNames(texts: map<Name, string>, n: Name)
    requires TextsAreClean(texts) && n in texts
    ensures ReadyNames(texts[n]) == DepNames(texts[n])
  {
    ReadingsAgreeIff(texts[n]);
  }

  lemma DepIsKnown(texts: map<Name, string>, n: Name, d: Name)
    requires DepsAreKnown(texts) && n in Unsorted(texts) && d in DepNames(texts[n])
    ensures d in Unsorted(texts)[n] && d in Unsorted(texts)
  {
    NothingInNothing();
  }

  lemma NothingInNothing()
    ensures DepNames("") == []
  {
  }

  /** Fails exactly on cyclic workflows; otherwise the runtime starts out with one fresh step per
      sorted name and a free slot channel of the clamped size. */
  method NewWorkflowRuntime(texts: map<Name, string>, parallelism: int, cacheEnabled: bool)
      returns (wfr: Runtime?)
    ensures wfr == null <==> Cyclic(Unsorted(texts))
    ensures wfr != null ==> fresh(wfr) && fresh(wfr.Repr) && wfr.Filed()
    ensures wfr != null ==> TopoOrder(Unsorted(texts), wfr.config.order)
    ensures wfr != null ==> wfr.config == ConfigOf(texts, wfr.config.order, parallelism, cacheEnabled)
    ensures wfr != null ==> wfr.State() == RunState(FreshSteps(wfr.config), 0, 0, false, false, Created)
    ensures wfr != null ==> wfr.config.cacheEnabled == cacheEnabled
    ensures wfr != null && parallelism <= 0 ==> wfr.config.parallelism == 10
    ensures wfr != null && 1 <= parallelism <= 20 ==> wfr.config.parallelism == parallelism
    ensures wfr != null && parallelism > 20 ==> wfr.config.parallelism == 20
  {
    var sorted := TopologicalSort(texts);
    if sorted.NotAcyclic? {
      return null;
    }
    assert forall n | n in sorted.order :: n in texts;
    wfr := new Runtime(ConfigOf(texts, sorted.order, parallelism, cacheEnabled));
  }

  // ---- looking dependencies up ----

  /** Every name that isDepsReady looks up is a step that the sort keeps. */
  ghost predicate LooksUpOnlySteps(texts: map<Name, string>) {
    forall n, d | n in Unsorted(texts) && d in ReadyNames(texts[n]) :: d in Unsorted(texts)
  }

  /** The look-ups of isDepsReady for one step. */
  method LooksUpNil(deps: string, steps: set<Name>) returns (nilDeref: bool)
    ensures nilDeref <==> exists d :: d in ReadyNames(deps) && d !in steps
  {
    nilDeref := false;
    var pieces := Split(deps, ',');
    for i := 0 to |pieces|
      invariant nilDeref <==> exists d :: d in Names(pieces[..i], IsBlank) && d !in steps
    {
      NamesSnoc(pieces[..i], pieces[i], IsBlank);
      assert pieces[..i + 1] == pieces[..i] + [pieces[i]];
      var ds := Trim(pieces[i], IsBlank);
      if |ds| <= 0 {
        continue;
      }
      nilDeref := nilDeref || ds !in steps;
    }
    assert pieces[..|pieces|] == pieces;
  }

  /** With no white space but blanks around the names, these are exactly the workflows whose dependencies
      all name steps that the sort keeps. */
  lemma LooksUpOnlyStepsIff(texts: map<Name, string>)
    requires TextsAreClean(texts)
    ensures LooksUpOnlySteps(texts) <==> DepsAreKnown(texts)
  {
    NothingInNothing();
    forall n | n in texts
      ensures ReadyNames(texts[n]) == DepNames(texts[n])
    {
      ReadyNamesAreDepNames(texts, n);
    }
  }

  lemma OneNameIsRead(a: Name)
    requires IsListable(a, IsSpace)
    ensures DepNames(a) == [a] && ReadyNames(a) == [a] && a != ""
  {
    ListedNamesAreRead([a]);
    assert Listed([a]) == a;
  }

  /** A step b whose only dependency a does not exist is sorted all the same, and then looks a up. */
  lemma MissingStepIsLookedUp(a: Name, b: Name)
    requires IsListable(a, IsSpace) && a != b
    ensures Unsorted(map[b := a]) == map[b := [a]] && !Cyclic(Unsorted(map[b := a]))
    ensures !LooksUpOnlySteps(map[b := a])
  {
    var texts := map[b := a];
    OneNameIsRead(a);
    OneStepIsSorted(a, b);
    assert texts[b] == a;
    assert Unsorted(texts) == map[b := [a]];
    assert b in Unsorted(texts) && a in ReadyNames(texts[b]) && a !in Unsorted(texts);
  }

  lemma OneStepIsSorted(a: Name, b: Name)
    requires a != b
    ensures !Cyclic(map[b := [a]])
  {
    assert TopoOrder(map[b := [a]], [b]);
    OrderedIsAcyclic(map[b := [a]], [b]);
  }

  // ---- creating and starting ----

  /** NilDeref: Start has looked up a step that does not exist. */
  datatype StartResult = CyclicSteps | NilDeref | StartedUp(wfr: Runtime)

  /** A workflow that is built and started is in the state that the theorems about fresh runs begin with,
      unless it is cyclic or its readiness check dereferences nil. */
  method CreateAndStart(texts: map<Name, string>, parallelism: int, cacheEnabled: bool) returns (r: StartResult)
    ensures r.CyclicSteps? <==> Cyclic(Unsorted(texts))
    ensures r.NilDeref? <==> !Cyclic(Unsorted(texts)) && !LooksUpOnlySteps(texts)
    ensures r.StartedUp? ==> r.wfr.Valid() && TopoOrder(Unsorted(texts), r.wfr.config.order)
    ensures r.StartedUp? ==> r.wfr.config == ConfigOf(texts, r.wfr.config.order, parallelism, cacheEnabled)
    ensures r.StartedUp? ==> r.wfr.State() == StartRun(r.wfr.config, FreshSteps(r.wfr.config))
    ensures r.StartedUp? ==> r.wfr.config.cacheEnabled == cacheEnabled && Wired(r.wfr.config, texts)
    ensures r.StartedUp? && parallelism <= 0 ==> r.wfr.config.parallelism == 10
    ensures r.StartedUp? && 1 <= parallelism <= 20 ==> r.wfr.config.parallelism == parallelism
    ensures r.StartedUp? && parallelism > 20 ==> r.wfr.config.parallelism == 20
    ensures r.StartedUp? && TextsAreClean(texts) && Unsorted(texts) != map[] ==> r.wfr.config.Valid()
  {
    var wfr := NewWorkflowRuntime(texts, parallelism, cacheEnabled);
    if wfr == null {
      return CyclicSteps;
    }
    ConfigIsWired(texts, wfr.config.order, parallelism, cacheEnabled);
    assert Wired(wfr.config, texts);
    var nilDeref := StartFresh(wfr, texts);
    if nilDeref {
      return NilDeref;
    }
    r := StartedUp(wfr);
    CleanIsValid(texts, wfr.config.order, parallelism, cacheEnabled);
  }

  lemma CleanIsValid(texts: map<Name, string>, order: seq<Name>, parallelism: int, cacheEnabled: bool)
    requires TopoOrder(Unsorted(texts), order) && LooksUpOnlySteps(texts)
    ensures forall n | n in order :: n in texts
    ensures TextsAreClean(texts) && Unsorted(texts) != map[] ==>
              ConfigOf(texts, order, parallelism, cacheEnabled).Valid()
  {
    assert forall n | n in order :: n in Unsorted(texts);
    if TextsAreClean(texts) && Unsorted(texts) != map[] {
      var n :| n in Unsorted(texts);
      assert n in order;
      LooksUpOnlyStepsIff(texts);
      SortedIsValid(texts, order, parallelism, cacheEnabled);
    }
  }

  lemma ConfigIsWired(texts: map<Name, string>, order: seq<Name>, parallelism: int, cacheEnabled: bool)
    requires TopoOrder(Unsorted(texts), order)
    ensures forall n | n in order :: n in texts
    ensures Wired(ConfigOf(texts, order, parallelism, cacheEnabled), texts)
  {
    assert forall n | n in order :: n in Unsorted(texts);
  }

  /** The runtime has the steps of the workflow, each with the names that isDepsReady looks up for it. */
  ghost predicate Wired(c: Config, texts: map<Name, string>) {
    && (forall n :: n in c.deps <==> n in Unsorted(texts))
    && (forall n | n in c.deps :: c.deps[n] == set d | d in ReadyNames(texts[n]))
  }

  /** Start over fresh steps asks isDepsReady about each of them. */
  method StartFresh(wfr: Runtime, texts: map<Name, string>) returns (nilDeref: bool)
    requires wfr.Filed() && wfr.State() == RunState(FreshSteps(wfr.config), 0, 0, false, false, Created)
    requires Wired(wfr.config, texts)
    modifies wfr, wfr.Repr
    ensures nilDeref <==> !LooksUpOnlySteps(texts)
    ensures !nilDeref ==> wfr.Valid() && wfr.State() == StartRun(wfr.config, FreshSteps(wfr.config))
  {
    nilDeref := AnyLooksUpNil(texts, wfr.steps.Keys);
    if !nilDeref {
      wfr.Start();
    }
  }

  method AnyLooksUpNil(texts: map<Name, string>, steps: set<Name>) returns (nilDeref: bool)
    requires steps == Unsorted(texts).Keys
    ensures nilDeref <==> !LooksUpOnlySteps(texts)
  {
    var rest := steps;
    while rest != {}
      invariant rest <= steps
      invariant forall n, d | n in steps && n !in rest && d in ReadyNames(texts[n]) :: d in steps
      decreases rest
    {
      var name :| name in rest;
      nilDeref := LooksUpNil(texts[name], steps);
      if nilDeref {
        return;
      }
      rest := rest - {name};
    }
    nilDeref := false;
  }
}
