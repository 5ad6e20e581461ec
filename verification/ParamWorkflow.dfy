/** checkSteps over all steps in any order, then newWorkflowRuntime solving the sorted steps in place. */
module ParamWorkflow {
  import opened Dependencies
  import opened Templates
  import opened ParamSolver
  import opened ParamMeaning
  import opened ParamSolving
  import opened ParamValues
  import opened ParamValidation
  import Dag

  // ---- the rank that makes the recursion terminate ----

  /** Every step once, after the steps it depends on. */
  ghost predicate InOrder(src: map<Name, Info>, order: seq<Name>) {
    && (forall i, j | 0 <= i < j < |order| :: order[i] != order[j])
    && (forall n :: n in order <==> n in src)
    && (forall i, d | 0 <= i < |order| && d in DepNames(src[order[i]].deps) && d in src :: d in order[..i])
  }

  ghost function Place(order: seq<Name>, n: Name): (i: nat)
    requires n in order
    ensures i < |order| && order[i] == n
  {
    if order[0] == n then 0 else 1 + Place(order[1..], n)
  }

  ghost function RankOf(order: seq<Name>): map<Name, nat> { map n | n in order :: Place(order, n) }

  lemma OrderRanks(src: map<Name, Info>, order: seq<Name>)
    requires InOrder(src, order)
    ensures Ranked(src, RankOf(order))
    ensures forall i | 0 <= i < |order| :: RankOf(order)[order[i]] == i
  {
    forall i | 0 <= i < |order|
      ensures RankOf(order)[order[i]] == i
    {
      assert order[i] in order && order[Place(order, order[i])] == order[i];
    }
    forall n, d | n in src && d in DepNames(src[n].deps) && d in src
      ensures RankOf(order)[d] < RankOf(order)[n]
    {
      var i := Place(order, n);
      assert d in order[..i];
      var j :| 0 <= j < i && order[j] == d;
      assert RankOf(order)[order[j]] == j;
    }
  }

  /** The order of topologicalSort is such an order, provided it keeps every step. */
  lemma SortedSteps(src: map<Name, Info>, order: seq<Name>)
    requires var texts := map n | n in src :: src[n].deps;
             Dag.TopoOrder(Dag.Unsorted(texts), order)
    requires forall n | n in src :: src[n].deps == "" || DepNames(src[n].deps) != []
    ensures InOrder(src, order)
  {
    var texts := map n | n in src :: src[n].deps;
    var g := Dag.Unsorted(texts);
    assert g.Keys == src.Keys;
    assert DepNames("") == [];
    forall i, d | 0 <= i < |order| && d in DepNames(src[order[i]].deps) && d in src
      ensures d in order[..i]
    {
      assert order[i] in g && d in g[order[i]];
    }
  }

  // ---- defaults ----

  /** Each default would pass as a parameter of its step in its own right. */
  predicate PresetsOk(up: map<Name, Info>, own: Info) {
    forall a | a in own.parameters && own.parameters[a].Dict? :: ValueOk(up, own, own.parameters[a].preset, Parameters)
  }

  ghost predicate AllPresetsOk(src: map<Name, Info>) { forall n | n in src :: PresetsOk(src, src[n]) }

  lemma TextsOkByKeys(up: map<Name, Info>, own: Info, other: Info, m: map<string, string>, field: Field)
    requires SameKeys(own, other)
    ensures TextsOk(up, own, m, field) == TextsOk(up, other, m, field)
  {
    forall a | a in m
      ensures TextOk(up, own, m[a], field) == TextOk(up, other, m[a], field)
    {
      TextOkByKeys(up, own, other, m[a], field);
    }
  }

  lemma DefaultedParamOk(up: map<Name, Info>, own: Info, a: string)
    requires a in own.parameters && ValueOk(up, own, own.parameters[a], Parameters)
    ensures ValueOk(up, Defaulted(own), Defaulted(own).parameters[a], Parameters) <==>
            (own.parameters[a].Dict? ==> ValueOk(up, own, own.parameters[a].preset, Parameters))
  {
    var d := Defaulted(own);
    if d.parameters[a].Text? {
      TextOkByKeys(up, own, d, d.parameters[a].text, Parameters);
    }
  }

  /** After its dictionaries have given way to their defaults, an accepted step is still in order if and
      only if each default would pass as a parameter in its own right. */
  lemma DefaultsStayOkIff(up: map<Name, Info>, own: Info)
    requires WellReferenced(up, own)
    ensures WellReferenced(up, Defaulted(own)) <==> PresetsOk(up, own)
  {
    var d := Defaulted(own);
    TextsOkByKeys(up, own, d, own.inputs, Inputs);
    TextsOkByKeys(up, own, d, own.outputs, Outputs);
    TextsOkByKeys(up, own, d, own.env, Env);
    TextOkByKeys(up, own, d, own.command, Command);
    forall a | a in own.parameters
      ensures ValueOk(up, d, d.parameters[a], Parameters) <==>
              (own.parameters[a].Dict? ==> ValueOk(up, own, own.parameters[a].preset, Parameters))
    {
      DefaultedParamOk(up, own, a);
    }
  }

  /** One step through both solvers: a step in order passes the check, which puts its defaults in place,
      and is then solved if and only if each default would have passed as a parameter. */
  lemma CheckedStepIsSolvedIff(check: Context, solve: Context, rank: map<Name, nat>, k: nat, own: Info)
    requires check.up == solve.up && Ranked(check.up, rank) && Under(check.up, rank, own, k)
    requires check.sys.Keys == SYS_NAMES && !check.replace && solve.sys.Keys == SYS_NAMES && solve.replace
    requires ReadsOkBelow(check.up, rank, k) && WellReferenced(check.up, own)
    ensures StepOutcome(check, rank, k, own) == Done(Defaulted(own))
    ensures StepOutcome(solve, rank, k, Defaulted(own)).Done? <==> PresetsOk(check.up, own)
  {
    StepIffOk(check, rank, k, own);
    CheckingDefaults(check, rank, k, own);
    StepIffOk(solve, rank, k, Defaulted(own));
    DefaultsStayOkIff(check.up, own);
  }

  /** A step whose default refers to nothing that exists: `default: "{{nosuch}}"`. */
  function BadDefault(): Info {
    Info("", map["p" := Dict("string", Text(RefTo("nosuch").raw), "map")], map[], map[], map[], "")
  }

  /** It passes the check, and fails when it is solved. */
  lemma BadDefaultFailsLater(run: Run)
    ensures WellReferenced(map[], BadDefault()) && !PresetsOk(map[], BadDefault())
    ensures var sys := SysParams(run, "a");
            && StepOutcome(Context(map[], sys, false), map[], 0, BadDefault()) == Done(Defaulted(BadDefault()))
            && !StepOutcome(Context(map[], sys, true), map[], 0, Defaulted(BadDefault())).Done?
  {
    BadDefaultIsReferenced();
    BadDefaultIsBad();
    CheckedStepIsSolvedIff(Context(map[], SysParams(run, "a"), false), Context(map[], SysParams(run, "a"), true),
                           map[], 0, BadDefault());
  }

  lemma BadDefaultIsReferenced()
    ensures WellReferenced(map[], BadDefault())
  {
    UndoubledHasNoRefs("");
    assert NameOk("p");
    assert CheckDict(BadDefault().parameters["p"]).Done?;
  }

  lemma BadDefaultIsBad()
    ensures !PresetsOk(map[], BadDefault())
  {
    var own := BadDefault();
    NoSuchName();
    UnknownName(map[], own, "nosuch");
    assert own.parameters["p"].Dict? && own.parameters["p"].preset == Text(RefTo("nosuch").raw);
  }

  lemma NoSuchName()
    ensures NameOk("nosuch") && "nosuch" !in SYS_NAMES
  {
    assert |"nosuch"| == 6;
  }

  /** A parameter that refers to a single name which is no system value. */
  lemma UnknownName(up: map<Name, Info>, own: Info, name: string)
    requires NameOk(name) && name !in SYS_NAMES
    ensures !TextOk(up, own, RefTo(name).raw, Parameters)
  {
    NameRefersToItself(name);
    var m := RefTo(name);
    assert m in Refs(Parse(m.raw)) && !RefOk(up, own, m.inner, Parameters);
  }

  lemma NameRefersToItself(name: string)
    requires NameOk(name)
    ensures IsMatch(RefTo(name)) && Refs(Parse(RefTo(name).raw)) == [RefTo(name)]
    ensures ParseParamName(name) == ("", name)
  {
    assert forall i | 0 <= i < |name| :: IsWord(name[i]);
    assert '.' !in name;
    RefToMatches(name);
    OnlyReference(RefTo(name));
    SplitLastWord(name, '.');
  }

  lemma OnlyReference(m: Match)
    requires IsMatch(m)
    ensures Refs(Parse(m.raw)) == [m]
  {
    ParseMatch(m, "");
    assert m.raw + "" == m.raw && [Ref(m)][1..] == [];
  }

  // ---- checkSteps ----

  function AllDefaulted(src: map<Name, Info>): map<Name, Info> { map n | n in src :: Defaulted(src[n]) }

  /** The steps outside rest have been checked. */
  ghost predicate DefaultedBut(src: map<Name, Info>, st: map<Name, Info>, rest: set<Name>) {
    && st.Keys == src.Keys
    && forall n | n in src :: st[n] == if n in rest then src[n] else Defaulted(src[n])
  }

  function Without(st: map<Name, Info>, n: Name): map<Name, Info> { map m | m in st && m != n :: st[m] }

  lemma UpstreamRanked(src: map<Name, Info>, st: map<Name, Info>, rest: set<Name>, rank: map<Name, nat>, n: Name)
    requires Ranked(src, rank) && DefaultedBut(src, st, rest) && n in src
    ensures Ranked(Without(st, n), rank) && Under(Without(st, n), rank, src[n], rank[n])
    ensures forall m | m in Without(st, n) ::
              SameKeys(Without(st, n)[m], src[m]) && SameKeys(src[m], Without(st, n)[m])
  {
    var up := Without(st, n);
    forall m | m in up
      ensures SameKeys(up[m], src[m])
    {
      DefaultedKeys(src[m]);
    }
    RankedByDeps(src, up, rank);
  }

  lemma DefaultedKeys(own: Info)
    ensures SameKeys(own, Defaulted(own))
  {
  }

  lemma RankedByDeps(src: map<Name, Info>, up: map<Name, Info>, rank: map<Name, nat>)
    requires Ranked(src, rank) && forall m | m in up :: m in src && up[m].deps == src[m].deps
    ensures Ranked(up, rank)
    ensures forall n | n in src :: Under(up, rank, src[n], rank[n])
  {
  }

  ghost predicate OkBut(src: map<Name, Info>, rest: set<Name>) {
    forall n | n in src && n !in rest :: WellReferenced(src, src[n])
  }

  lemma OneMoreOk(src: map<Name, Info>, st: map<Name, Info>, rest: set<Name>, n: Name)
    requires DefaultedBut(src, st, rest) && OkBut(src, rest) && n in src && WellReferenced(src, src[n])
    ensures DefaultedBut(src, st[n := Defaulted(src[n])], rest - {n}) && OkBut(src, rest - {n})
  {
  }

  lemma AllOk(src: map<Name, Info>, st: map<Name, Info>)
    requires DefaultedBut(src, st, {}) && OkBut(src, {})
    ensures AllWellReferenced(src) && st == AllDefaulted(src)
  {
  }

  lemma CheckedMeansOk(src: map<Name, Info>, st: map<Name, Info>, rest: set<Name>, rank: map<Name, nat>, n: Name)
    requires Ranked(src, rank) && DefaultedBut(src, st, rest) && n in src
    requires WellReferenced(Without(st, n), src[n])
    ensures WellReferenced(src, src[n])
  {
    UpstreamRanked(src, st, rest, rank, n);
    WellReferencedMoves(Without(st, n), src, src[n]);
  }

  /** Neither n itself nor what ranks below it refers to n. */
  lemma OkBelow(src: map<Name, Info>, st: map<Name, Info>, rest: set<Name>, rank: map<Name, nat>, n: Name, m: Name)
    requires Ranked(src, rank) && DefaultedBut(src, st, rest) && n in src
    requires m in src && rank[m] <= rank[n] && WellReferenced(src, src[m])
    ensures WellReferenced(Without(st, n), src[m])
    ensures PresetsOk(src, src[m]) ==> PresetsOk(Without(st, n), src[m])
  {
    UpstreamRanked(src, st, rest, rank, n);
    WellReferencedMoves(src, Without(st, n), src[m]);
    if PresetsOk(src, src[m]) {
      PresetsMove(src, Without(st, n), src[m]);
    }
  }

  lemma PresetsMove(a: map<Name, Info>, b: map<Name, Info>, own: Info)
    requires forall r | r in DepNames(own.deps) && r in a :: r in b && SameKeys(a[r], b[r])
    requires PresetsOk(a, own)
    ensures PresetsOk(b, own)
  {
    forall p | p in own.parameters && own.parameters[p].Dict?
      ensures ValueOk(b, own, own.parameters[p].preset, Parameters)
    {
      var v := own.parameters[p].preset;
      assert ValueOk(a, own, v, Parameters);
      if v.Text? {
        TextMoves(a, b, own, v.text, Parameters);
      }
    }
  }

  lemma OkIsChecked(src: map<Name, Info>, st: map<Name, Info>, rest: set<Name>, rank: map<Name, nat>, n: Name)
    requires Ranked(src, rank) && DefaultedBut(src, st, rest) && n in src
    requires AllWellReferenced(src) && AllPresetsOk(src)
    ensures ReadsOkBelow(Without(st, n), rank, rank[n]) && WellReferenced(Without(st, n), src[n])
  {
    OkBelow(src, st, rest, rank, n, n);
    forall m | m in Without(st, n) && m in rank && rank[m] < rank[n]
      ensures ReadsOk(Without(st, n), Without(st, n)[m])
    {
      ReadsOkChecked(src, st, rest, rank, n, m);
    }
  }

  lemma ReadsOkChecked(src: map<Name, Info>, st: map<Name, Info>, rest: set<Name>, rank: map<Name, nat>, n: Name,
                       m: Name)
    requires Ranked(src, rank) && DefaultedBut(src, st, rest) && n in src
    requires m in src && m != n && rank[m] < rank[n] && WellReferenced(src, src[m]) && PresetsOk(src, src[m])
    ensures ReadsOk(Without(st, n), Without(st, n)[m])
  {
    OkBelow(src, st, rest, rank, n, m);
    DefaultsStayOkIff(Without(st, n), src[m]);
  }

  /** One call of Solve in checkSteps. */
  method CheckStep(paramSolver: StepParamSolver, stepName: Name, ghost src: map<Name, Info>, ghost rest: set<Name>,
                   ghost rank: map<Name, nat>) returns (r: Outcome<()>)
    requires Ranked(src, rank)
    requires DefaultedBut(src, paramSolver.source.infos, rest) && stepName in rest && stepName in src
    requires !paramSolver.needReplace && paramSolver.sysParams.Keys == SYS_NAMES && src.Keys <= paramSolver.steps
    modifies paramSolver.source
    ensures r.Done? ==> WellReferenced(src, src[stepName])
    ensures r.Done? ==> paramSolver.source.infos == old(paramSolver.source.infos)[stepName := Defaulted(src[stepName])]
    ensures !r.Done? ==> !(AllWellReferenced(src) && AllPresetsOk(src))
  {
    ghost var st := paramSolver.source.infos;
    ghost var ctx := paramSolver.Others(stepName);
    assert ctx.up == Without(st, stepName);
    CheckStepIs(src, st, rest, rank, stepName, ctx);
    r := paramSolver.Solve(stepName, rank, rank[stepName]);
    if r.Done? {
      PutBack(st, paramSolver.source.infos, stepName);
    }
  }

  lemma CheckStepIs(src: map<Name, Info>, st: map<Name, Info>, rest: set<Name>, rank: map<Name, nat>, n: Name,
                    ctx: Context)
    requires Ranked(src, rank) && DefaultedBut(src, st, rest) && n in src
    requires ctx.up == Without(st, n) && ctx.sys.Keys == SYS_NAMES && !ctx.replace
    ensures Ranked(ctx.up, rank) && Under(ctx.up, rank, src[n], rank[n])
    ensures var outcome := StepOutcome(ctx, rank, rank[n], src[n]);
            && (outcome.Done? ==> WellReferenced(src, src[n]) && outcome.value == Defaulted(src[n]))
            && (AllWellReferenced(src) && AllPresetsOk(src) ==> outcome.Done?)
  {
    UpstreamRanked(src, st, rest, rank, n);
    StepIffOk(ctx, rank, rank[n], src[n]);
    if StepOutcome(ctx, rank, rank[n], src[n]).Done? {
      CheckedMeansOk(src, st, rest, rank, n);
      CheckingDefaults(ctx, rank, rank[n], src[n]);
    } else if AllWellReferenced(src) && AllPresetsOk(src) {
      OkIsChecked(src, st, rest, rank, n);
    }
  }

  lemma PutBack(was: map<Name, Info>, now: map<Name, Info>, n: Name)
    requires now - {n} == was - {n} && n in now
    ensures now == was[n := now[n]]
  {
    assert now == (now - {n})[n := now[n]];
    assert was[n := now[n]] == (was - {n})[n := now[n]];
  }

  /** checkSteps: what it accepts, in whatever order it takes the steps, is well referenced, and it only
      puts defaults in place of dictionaries. A well-referenced workflow whose defaults would all pass as
      parameters is accepted. */
  method CheckSteps(source: Source, ghost rank: map<Name, nat>) returns (r: Outcome<()>)
    requires Ranked(source.infos, rank)
    modifies source
    ensures r.Done? ==> AllWellReferenced(old(source.infos)) && source.infos == AllDefaulted(old(source.infos))
    ensures AllWellReferenced(old(source.infos)) && AllPresetsOk(old(source.infos)) ==> r.Done?
  {
    ghost var src := source.infos;
    var sysParams := map name | name in SYS_NAMES :: "";
    var paramSolver := new StepParamSolver(source, source.infos.Keys, sysParams, false);
    var rest := source.infos.Keys;
    while rest != {}
      invariant rest <= src.Keys && DefaultedBut(src, source.infos, rest) && OkBut(src, rest)
      decreases rest
    {
      var stepName :| stepName in rest;
      ghost var st := source.infos;
      r := CheckStep(paramSolver, stepName, src, rest, rank);
      if !r.Done? {
        return;
      }
      OneMoreOk(src, st, rest, stepName);
      rest := rest - {stepName};
    }
    AllOk(src, source.infos);
    r := Done(());
  }

  // ---- newWorkflowRuntime ----

  function FirstOf(order: seq<Name>, i: nat): set<Name>
    requires i <= |order|
  {
    set j | 0 <= j < i :: order[j]
  }

  /** The records that the i-th step of the order finds of the steps before it. */
  function Upstream(st: map<Name, Info>, order: seq<Name>, i: nat): map<Name, Info>
    requires i < |order|
  {
    map m | m in st && m in FirstOf(order, i + 1) && m != order[i] :: st[m]
  }

  /** The references of the i-th step resolve in the records of the steps before it, as they are in st. */
  ghost predicate ResolvesAt(src: map<Name, Info>, st: map<Name, Info>, order: seq<Name>, i: nat) {
    && i < |order| && order[i] in src
    && Ranked(Upstream(st, order, i), RankOf(order)) && Under(Upstream(st, order, i), RankOf(order), src[order[i]], i)
    && StepResolves(Upstream(st, order, i), RankOf(order), i, src[order[i]])
  }

  /** The first i steps have been solved, the others are untouched. */
  ghost predicate Created(src: map<Name, Info>, st: map<Name, Info>, order: seq<Name>, i: nat) {
    && st.Keys == src.Keys && i <= |order| && (forall n | n in order :: n in src)
    && (forall j | i <= j < |order| :: st[order[j]] == src[order[j]])
    && (forall j | 0 <= j < i :: SameKeys(st[order[j]], src[order[j]]))
  }

  ghost predicate ResolvedSoFar(src: map<Name, Info>, st: map<Name, Info>, order: seq<Name>, i: nat) {
    forall j: nat | j < i :: ResolvesAt(src, st, order, j)
  }

  ghost predicate MeantSoFar(src: map<Name, Info>, run: Run, rank: map<Name, nat>, st: map<Name, Info>,
                             order: seq<Name>, i: nat)
    requires Ranked(src, rank)
  {
    forall j | 0 <= j < i && j < |order| ::
      order[j] in src && order[j] in st && Meant(src, run, rank, order[j], st[order[j]])
  }

  lemma UpstreamIsCreated(src: map<Name, Info>, st: map<Name, Info>, order: seq<Name>, i: nat, m: Name)
    requires InOrder(src, order) && Created(src, st, order, i) && i < |order|
    requires m in Upstream(st, order, i)
    ensures m in src && SameKeys(Upstream(st, order, i)[m], src[m]) && exists j :: 0 <= j < i && order[j] == m
  {
    var j :| 0 <= j < i + 1 && order[j] == m;
    assert j < i;
  }

  lemma CreatedRanked(src: map<Name, Info>, st: map<Name, Info>, order: seq<Name>, i: nat)
    requires InOrder(src, order) && Created(src, st, order, i) && i < |order|
    ensures var up, rank := Upstream(st, order, i), RankOf(order);
            Ranked(src, rank) && Ranked(up, rank) && Under(up, rank, src[order[i]], i) && rank[order[i]] == i
    ensures forall m | m in Upstream(st, order, i) :: m in src && SameKeys(Upstream(st, order, i)[m], src[m])
  {
    OrderRanks(src, order);
    forall m | m in Upstream(st, order, i)
      ensures m in src && SameKeys(Upstream(st, order, i)[m], src[m])
    {
      UpstreamIsCreated(src, st, order, i, m);
    }
    RankedByDeps(src, Upstream(st, order, i), RankOf(order));
  }

  lemma CreatedUpstreamSolved(src: map<Name, Info>, run: Run, st: map<Name, Info>, order: seq<Name>, i: nat,
                              ctx: Context)
    requires InOrder(src, order) && Created(src, st, order, i) && i < |order|
    requires ctx == Context(Upstream(st, order, i), SysParams(run, order[i]), true)
    requires Ranked(src, RankOf(order)) && MeantSoFar(src, run, RankOf(order), st, order, i)
    ensures UpstreamSolved(src, run, RankOf(order), order[i], ctx)
  {
    var rank := RankOf(order);
    forall m | m in ctx.up
      ensures m in src && Meant(src, run, rank, m, ctx.up[m])
    {
      UpstreamIsMeant(src, run, st, order, i, m);
    }
    forall d | d in DepNames(src[order[i]].deps) && d in src
      ensures d in ctx.up
    {
      DepIsUpstream(src, st, order, i, d);
    }
  }

  lemma UpstreamIsMeant(src: map<Name, Info>, run: Run, st: map<Name, Info>, order: seq<Name>, i: nat, m: Name)
    requires InOrder(src, order) && Created(src, st, order, i) && i < |order| && m in Upstream(st, order, i)
    requires Ranked(src, RankOf(order)) && MeantSoFar(src, run, RankOf(order), st, order, i)
    ensures m in src && Meant(src, run, RankOf(order), m, Upstream(st, order, i)[m])
  {
    UpstreamIsCreated(src, st, order, i, m);
    var j :| 0 <= j < i && order[j] == m;
    assert Meant(src, run, RankOf(order), order[j], st[order[j]]);
  }

  lemma DepIsUpstream(src: map<Name, Info>, st: map<Name, Info>, order: seq<Name>, i: nat, d: Name)
    requires InOrder(src, order) && st.Keys == src.Keys && i < |order|
    requires d in DepNames(src[order[i]].deps) && d in src
    ensures d in Upstream(st, order, i)
  {
    assert d in order[..i];
    var j :| 0 <= j < i && order[j] == d;
    assert order[j] in FirstOf(order, i + 1);
  }

  lemma OutcomeKeepsKeys(ctx: Context, rank: map<Name, nat>, k: nat, own: Info)
    requires Ranked(ctx.up, rank) && Under(ctx.up, rank, own, k) && StepOutcome(ctx, rank, k, own).Done?
    ensures SameKeys(StepOutcome(ctx, rank, k, own).value, own)
  {
  }

  /** What solving the i-th step of the order comes to. */
  ghost predicate OutcomeFits(src: map<Name, Info>, run: Run, st: map<Name, Info>, order: seq<Name>, i: nat,
                              sound: bool, outcome: Outcome<Info>)
    requires Ranked(src, RankOf(order)) && i < |order| && order[i] in src
  {
    && (outcome.Done? <==> ResolvesAt(src, st, order, i))
    && (outcome.Done? ==> SameKeys(outcome.value, src[order[i]]))
    && (outcome.Done? ==> Holds(Upstream(st, order, i), src[order[i]], outcome.value, run, order[i]))
    && (sound ==> outcome.Done? && Meant(src, run, RankOf(order), order[i], outcome.value))
  }

  /** Only the record of the i-th step has changed; if it was solved it holds the outcome. */
  ghost predicate StepTaken(st: map<Name, Info>, now: map<Name, Info>, n: Name, outcome: Outcome<Info>, done: bool) {
    now - {n} == st - {n} && done == outcome.Done? && (done ==> n in now && now[n] == outcome.value)
  }

  /** NewStep of one sorted name: updateJob solves it among the steps created so far. */
  method CreateStep(source: Source, order: seq<Name>, i: nat, run: Run, ghost src: map<Name, Info>, ghost sound: bool)
      returns (r: Outcome<()>, ghost outcome: Outcome<Info>)
    requires InOrder(src, order) && Created(src, source.infos, order, i) && i < |order| && Ranked(src, RankOf(order))
    requires sound ==> Sound(src, run, RankOf(order)) && MeantSoFar(src, run, RankOf(order), source.infos, order, i)
    modifies source
    ensures OutcomeFits(src, run, old(source.infos), order, i, sound, outcome)
    ensures StepTaken(old(source.infos), source.infos, order[i], outcome, r.Done?)
  {
    var paramSolver := new StepParamSolver(source, FirstOf(order, i + 1), SysParams(run, order[i]), true);
    ghost var ctx := paramSolver.Others(order[i]);
    assert ctx == Context(Upstream(source.infos, order, i), SysParams(run, order[i]), true);
    CreatedRanked(src, source.infos, order, i);
    outcome := StepOutcome(ctx, RankOf(order), i, src[order[i]]);
    StepCreated(src, run, source.infos, order, i, ctx, sound);
    r := paramSolver.Solve(order[i], RankOf(order), i);
  }

  lemma StepCreated(src: map<Name, Info>, run: Run, st: map<Name, Info>, order: seq<Name>, i: nat, ctx: Context,
                    sound: bool)
    requires InOrder(src, order) && Created(src, st, order, i) && i < |order|
    requires ctx == Context(Upstream(st, order, i), SysParams(run, order[i]), true)
    requires var up, rank := Upstream(st, order, i), RankOf(order);
             && Ranked(src, rank) && Ranked(up, rank) && Under(up, rank, src[order[i]], i) && rank[order[i]] == i
    requires sound ==> Sound(src, run, RankOf(order)) && MeantSoFar(src, run, RankOf(order), st, order, i)
    ensures OutcomeFits(src, run, st, order, i, sound, StepOutcome(ctx, RankOf(order), i, src[order[i]]))
  {
    var n, rank := order[i], RankOf(order);
    StepIffResolves(ctx, rank, i, src[n]);
    if StepOutcome(ctx, rank, i, src[n]).Done? {
      OutcomeKeepsKeys(ctx, rank, i, src[n]);
      SolvedHolds(ctx, rank, i, src[n], run, n, StepOutcome(ctx, rank, i, src[n]).value);
    }
    if sound {
      CreatedUpstreamSolved(src, run, st, order, i, ctx);
      StepGivesMeaning(src, run, rank, n, ctx);
    }
  }

  lemma CreatedOneMore(src: map<Name, Info>, st: map<Name, Info>, order: seq<Name>, i: nat, info: Info)
    requires InOrder(src, order) && Created(src, st, order, i) && i < |order|
    requires SameKeys(info, src[order[i]])
    ensures Created(src, st[order[i] := info], order, i + 1)
  {
  }

  /** What a step finds of the steps before it does not change when later steps are solved. */
  lemma UpstreamStays(st: map<Name, Info>, now: map<Name, Info>, order: seq<Name>, i: nat, j: nat)
    requires forall a, b | 0 <= a < b < |order| :: order[a] != order[b]
    requires j <= i < |order| && now - {order[i]} == st - {order[i]}
    ensures Upstream(now, order, j) == Upstream(st, order, j)
  {
    var a, b := Upstream(now, order, j), Upstream(st, order, j);
    forall m | m in FirstOf(order, j + 1) && m != order[j]
      ensures m in now <==> m in st
      ensures m in now ==> now[m] == st[m]
    {
      assert m != order[i];
      assert m in now <==> m in now - {order[i]};
      assert m in st <==> m in st - {order[i]};
    }
  }

  lemma ResolvedStays(src: map<Name, Info>, st: map<Name, Info>, now: map<Name, Info>, order: seq<Name>, i: nat,
                      count: nat)
    requires forall a, b | 0 <= a < b < |order| :: order[a] != order[b]
    requires count <= i + 1 <= |order| && now - {order[i]} == st - {order[i]}
    ensures ResolvedSoFar(src, now, order, count) == ResolvedSoFar(src, st, order, count)
  {
    forall j: nat | j < count
      ensures ResolvesAt(src, now, order, j) == ResolvesAt(src, st, order, j)
    {
      UpstreamStays(st, now, order, i, j);
    }
  }

  /** The first i steps hold the values that their references stand for. */
  ghost predicate HoldSoFar(src: map<Name, Info>, st: map<Name, Info>, run: Run, order: seq<Name>, i: nat) {
    forall j: nat | j < i :: HoldsAt(src, st, run, order, j)
  }

  ghost predicate HoldsAt(src: map<Name, Info>, st: map<Name, Info>, run: Run, order: seq<Name>, j: nat) {
    && j < |order| && order[j] in src && order[j] in st
    && Holds(Upstream(st, order, j), src[order[j]], st[order[j]], run, order[j])
  }

  lemma EntryStays(st: map<Name, Info>, now: map<Name, Info>, n: Name, m: Name)
    requires now - {n} == st - {n} && m != n && m in st
    ensures m in now && now[m] == st[m]
  {
    assert m in st - {n} && m in now - {n} && now[m] == (now - {n})[m];
  }

  lemma HoldStays(src: map<Name, Info>, st: map<Name, Info>, now: map<Name, Info>, run: Run, order: seq<Name>, i: nat,
                  j: nat)
    requires forall a, b | 0 <= a < b < |order| :: order[a] != order[b]
    requires j < i < |order| && HoldsAt(src, st, run, order, j) && now - {order[i]} == st - {order[i]}
    ensures HoldsAt(src, now, run, order, j)
  {
    UpstreamStays(st, now, order, i, j);
    EntryStays(st, now, order[i], order[j]);
  }

  lemma HoldOneMore(src: map<Name, Info>, st: map<Name, Info>, now: map<Name, Info>, run: Run, order: seq<Name>, i: nat)
    requires forall a, b | 0 <= a < b < |order| :: order[a] != order[b]
    requires i < |order| && order[i] in src && HoldSoFar(src, st, run, order, i)
    requires now - {order[i]} == st - {order[i]} && order[i] in now
    requires Holds(Upstream(st, order, i), src[order[i]], now[order[i]], run, order[i])
    ensures HoldSoFar(src, now, run, order, i + 1)
  {
    UpstreamStays(st, now, order, i, i);
    assert HoldsAt(src, now, run, order, i);
    forall j: nat | j < i
      ensures HoldsAt(src, now, run, order, j)
    {
      HoldStays(src, st, now, run, order, i, j);
    }
  }

  /** The records hold what their references stand for among the records themselves. */
  ghost predicate AllHold(src: map<Name, Info>, st: map<Name, Info>, run: Run) {
    forall n | n in src :: n in st && Holds(st, src[n], st[n], run, n)
  }

  lemma AllHoldSoFar(src: map<Name, Info>, st: map<Name, Info>, run: Run, order: seq<Name>)
    requires InOrder(src, order) && st.Keys == src.Keys && HoldSoFar(src, st, run, order, |order|)
    ensures AllHold(src, st, run)
  {
    forall n | n in src
      ensures n in st && Holds(st, src[n], st[n], run, n)
    {
      assert n in order;
      var i :| 0 <= i < |order| && order[i] == n;
      assert HoldsAt(src, st, run, order, i);
      forall r | r in DepNames(src[n].deps) && r in st
        ensures r in Upstream(st, order, i)
      {
        DepIsUpstream(src, st, order, i, r);
      }
      HoldsAmong(Upstream(st, order, i), st, src[n], st[n], run, n);
    }
  }

  lemma MeantOneMore(src: map<Name, Info>, run: Run, rank: map<Name, nat>, st: map<Name, Info>, now: map<Name, Info>,
                     order: seq<Name>, i: nat)
    requires InOrder(src, order) && Ranked(src, rank) && i < |order| && MeantSoFar(src, run, rank, st, order, i)
    requires now - {order[i]} == st - {order[i]} && order[i] in now && Meant(src, run, rank, order[i], now[order[i]])
    ensures MeantSoFar(src, run, rank, now, order, i + 1)
  {
    forall j | 0 <= j < i
      ensures order[j] in src && order[j] in now && Meant(src, run, rank, order[j], now[order[j]])
    {
      assert order[j] != order[i] && order[j] in st - {order[i]};
      assert order[j] in now - {order[i]} && now[order[j]] == (now - {order[i]})[order[j]];
    }
  }

  lemma ResolvedIsOk(src: map<Name, Info>, st: map<Name, Info>, order: seq<Name>)
    requires InOrder(src, order) && Created(src, st, order, |order|) && ResolvedSoFar(src, st, order, |order|)
    ensures AllWellReferenced(src)
  {
    forall n | n in src
      ensures WellReferenced(src, src[n])
    {
      assert n in order;
      var i :| 0 <= i < |order| && order[i] == n;
      assert ResolvesAt(src, st, order, i);
      ResolvedStepIsOk(src, st, order, i);
    }
  }

  lemma ResolvedStepIsOk(src: map<Name, Info>, st: map<Name, Info>, order: seq<Name>, i: nat)
    requires InOrder(src, order) && Created(src, st, order, |order|) && ResolvesAt(src, st, order, i)
    ensures WellReferenced(src, src[order[i]])
  {
    var up := Upstream(st, order, i);
    StepOkResolves(up, RankOf(order), i, src[order[i]]);
    forall m | m in up
      ensures m in src && SameKeys(up[m], src[m])
    {
      var j :| 0 <= j < i + 1 && order[j] == m;
    }
    WellReferencedMoves(up, src, src[order[i]]);
  }

  /** Solving the sorted steps one after the other succeeds exactly if the references of each resolve in
      what solving has made of the steps before it; then every reference has given way to what it stands
      for among the solved records. On a sound workflow it does succeed, and leaves the meanings behind. */
  method NewSteps(source: Source, order: seq<Name>, run: Run) returns (r: Outcome<()>)
    requires InOrder(source.infos, order)
    modifies source
    ensures Ranked(old(source.infos), RankOf(order))
    ensures r.Done? <==> forall i: nat | i < |order| :: ResolvesAt(old(source.infos), source.infos, order, i)
    ensures r.Done? ==> AllWellReferenced(old(source.infos)) && AllHold(old(source.infos), source.infos, run)
    ensures Sound(old(source.infos), run, RankOf(order)) ==>
              && r.Done?
              && forall n | n in old(source.infos) ::
                   n in source.infos && Meant(old(source.infos), run, RankOf(order), n, source.infos[n])
  {
    ghost var src, rank := source.infos, RankOf(order);
    OrderRanks(src, order);
    ghost var sound := Sound(src, run, rank);
    for i := 0 to |order|
      invariant Created(src, source.infos, order, i) && ResolvedSoFar(src, source.infos, order, i)
      invariant HoldSoFar(src, source.infos, run, order, i)
      invariant sound ==> MeantSoFar(src, run, rank, source.infos, order, i)
    {
      ghost var st, outcome := source.infos, Error;
      r, outcome := CreateStep(source, order, i, run, src, sound);
      if !r.Done? {
        StepFailed(src, run, st, source.infos, order, i, sound, outcome);
        return;
      }
      StepDone(src, run, st, source.infos, order, i, sound, outcome);
    }
    ResolvedIsOk(src, source.infos, order);
    AllHoldSoFar(src, source.infos, run, order);
    AllMeantSoFar(src, run, rank, source.infos, order);
    r := Done(());
  }

  lemma StepFailed(src: map<Name, Info>, run: Run, st: map<Name, Info>, now: map<Name, Info>, order: seq<Name>, i: nat,
                   sound: bool, outcome: Outcome<Info>)
    requires InOrder(src, order) && Created(src, st, order, i) && i < |order| && Ranked(src, RankOf(order))
    requires OutcomeFits(src, run, st, order, i, sound, outcome) && StepTaken(st, now, order[i], outcome, false)
    ensures !ResolvesAt(src, now, order, i) && !sound
  {
    UpstreamStays(st, now, order, i, i);
  }

  lemma StepDone(src: map<Name, Info>, run: Run, st: map<Name, Info>, now: map<Name, Info>, order: seq<Name>, i: nat,
                 sound: bool, outcome: Outcome<Info>)
    requires InOrder(src, order) && Created(src, st, order, i) && i < |order| && Ranked(src, RankOf(order))
    requires OutcomeFits(src, run, st, order, i, sound, outcome) && StepTaken(st, now, order[i], outcome, true)
    requires ResolvedSoFar(src, st, order, i) && HoldSoFar(src, st, run, order, i)
    requires sound ==> MeantSoFar(src, run, RankOf(order), st, order, i)
    ensures Created(src, now, order, i + 1) && ResolvedSoFar(src, now, order, i + 1)
    ensures HoldSoFar(src, now, run, order, i + 1)
    ensures sound ==> MeantSoFar(src, run, RankOf(order), now, order, i + 1)
  {
    PutBack(st, now, order[i]);
    CreatedOneMore(src, st, order, i, now[order[i]]);
    assert ResolvedSoFar(src, st, order, i + 1);
    ResolvedStays(src, st, now, order, i, i + 1);
    HoldOneMore(src, st, now, run, order, i);
    if sound {
      MeantOneMore(src, run, RankOf(order), st, now, order, i);
    }
  }

  lemma AllMeantSoFar(src: map<Name, Info>, run: Run, rank: map<Name, nat>, st: map<Name, Info>, order: seq<Name>)
    requires InOrder(src, order) && Ranked(src, rank)
    ensures MeantSoFar(src, run, rank, st, order, |order|) ==>
              forall n | n in src :: n in st && Meant(src, run, rank, n, st[n])
  {
    if MeantSoFar(src, run, rank, st, order, |order|) {
      forall n | n in src
        ensures n in st && Meant(src, run, rank, n, st[n])
      {
        assert n in order;
        var j :| 0 <= j < |order| && order[j] == n;
        assert Meant(src, run, rank, order[j], st[order[j]]);
      }
    }
  }
}
