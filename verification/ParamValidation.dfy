/** When a step can be solved, what checking and what replacing make of it. */
module ParamValidation {
  import opened Dependencies
  import opened Templates
  import opened ParamSolver
  import opened ParamMeaning
  import opened ParamSolving

  // ---- one step: when it can be solved ----

  predicate SameKeys(own: Info, other: Info) {
    && own.deps == other.deps && own.parameters.Keys == other.parameters.Keys
    && own.inputs.Keys == other.inputs.Keys && own.outputs.Keys == other.outputs.Keys
  }

  lemma TextOkByKeys(up: map<Name, Info>, own: Info, other: Info, s: string, field: Field)
    requires SameKeys(own, other)
    ensures TextOk(up, own, s, field) == TextOk(up, other, s, field)
  {
    forall m | m in Refs(Parse(s))
      ensures RefOk(up, own, m.inner, field) == RefOk(up, other, m.inner, field)
    {
    }
  }

  lemma RefByKeys(up: map<Name, Info>, rank: map<Name, nat>, k: nat, own: Info, other: Info, inner: string,
                  field: Field)
    requires Ranked(up, rank) && Under(up, rank, own, k) && SameKeys(own, other)
    ensures Resolves(up, rank, k, own, inner, field) == Resolves(up, rank, k, other, inner, field)
  {
    assert RefOk(up, own, inner, field) == RefOk(up, other, inner, field);
  }

  lemma ResolvesByKeys(up: map<Name, Info>, rank: map<Name, nat>, k: nat, own: Info, other: Info, s: string,
                       field: Field)
    requires Ranked(up, rank) && Under(up, rank, own, k) && SameKeys(own, other)
    ensures TextResolves(up, rank, k, own, s, field) == TextResolves(up, rank, k, other, s, field)
  {
    forall m | m in Refs(Parse(s))
      ensures Resolves(up, rank, k, own, m.inner, field) == Resolves(up, rank, k, other, m.inner, field)
    {
      RefByKeys(up, rank, k, own, other, m.inner, field);
    }
  }

  ghost predicate ParamsResolve(up: map<Name, Info>, rank: map<Name, nat>, k: nat, own: Info)
    requires Ranked(up, rank) && Under(up, rank, own, k)
  {
    forall a | a in own.parameters :: NameOk(a) && ValueResolves(up, rank, k, own, own.parameters[a], Parameters)
  }

  ghost predicate TextsResolve(up: map<Name, Info>, rank: map<Name, nat>, k: nat, own: Info,
                               m: map<string, string>, field: Field)
    requires Ranked(up, rank) && Under(up, rank, own, k)
  {
    forall a | a in m :: NameOk(a) && TextResolves(up, rank, k, own, m[a], field)
  }

  /** All names of the step are well formed, and all its references resolve. */
  ghost predicate StepResolves(up: map<Name, Info>, rank: map<Name, nat>, k: nat, own: Info)
    requires Ranked(up, rank) && Under(up, rank, own, k)
  {
    && ParamsResolve(up, rank, k, own)
    && TextsResolve(up, rank, k, own, own.inputs, Inputs) && TextsResolve(up, rank, k, own, own.outputs, Outputs)
    && TextsResolve(up, rank, k, own, own.env, Env) && TextResolves(up, rank, k, own, own.command, Command)
  }

  lemma ParamsIffResolve(ctx: Context, rank: map<Name, nat>, k: nat, own: Info)
    requires Ranked(ctx.up, rank) && Under(ctx.up, rank, own, k) && ctx.sys.Keys == SYS_NAMES
    ensures ParamsSolvable(ctx, rank, k, own, own.parameters) <==> ParamsResolve(ctx.up, rank, k, own)
  {
    forall a | a in own.parameters
      ensures CheckValue(ctx, rank, k, own, own.parameters[a], Parameters).Done?
         <==> ValueResolves(ctx.up, rank, k, own, own.parameters[a], Parameters)
    {
      ValueIffResolves(ctx, rank, k, own, own.parameters[a], Parameters);
    }
  }

  lemma TextsIffResolve(ctx: Context, rank: map<Name, nat>, k: nat, own: Info, other: Info,
                        m: map<string, string>, field: Field)
    requires Ranked(ctx.up, rank) && Under(ctx.up, rank, own, k) && ctx.sys.Keys == SYS_NAMES
    requires SameKeys(own, other)
    ensures TextsSolvable(ctx, rank, k, own, m, field) <==> TextsResolve(ctx.up, rank, k, other, m, field)
  {
    forall a | a in m
      ensures Resolve(ctx, rank, k, own, m[a], field).Done? <==> TextResolves(ctx.up, rank, k, other, m[a], field)
    {
      TextIffResolves(ctx, rank, k, own, m[a], field);
      ResolvesByKeys(ctx.up, rank, k, own, other, m[a], field);
    }
  }

  lemma MapsIffResolve(ctx: Context, rank: map<Name, nat>, k: nat, own: Info, other: Info)
    requires Ranked(ctx.up, rank) && Under(ctx.up, rank, own, k) && ctx.sys.Keys == SYS_NAMES
    requires SameKeys(own, other) && own.inputs == other.inputs && own.outputs == other.outputs && own.env == other.env
    ensures MapsSolvable(ctx, rank, k, own) <==>
            && TextsResolve(ctx.up, rank, k, other, other.inputs, Inputs)
            && TextsResolve(ctx.up, rank, k, other, other.outputs, Outputs)
            && TextsResolve(ctx.up, rank, k, other, other.env, Env)
  {
    TextsIffResolve(ctx, rank, k, own, other, own.inputs, Inputs);
    TextsIffResolve(ctx, rank, k, own, other, own.outputs, Outputs);
    TextsIffResolve(ctx, rank, k, own, other, own.env, Env);
  }

  lemma CommandIffResolves(ctx: Context, rank: map<Name, nat>, k: nat, own: Info, other: Info)
    requires Ranked(ctx.up, rank) && Under(ctx.up, rank, own, k) && ctx.sys.Keys == SYS_NAMES
    requires SameKeys(own, other) && own.command == other.command
    ensures Resolve(ctx, rank, k, own, own.command, Command).Done?
       <==> TextResolves(ctx.up, rank, k, other, other.command, Command)
  {
    TextIffResolves(ctx, rank, k, own, own.command, Command);
    ResolvesByKeys(ctx.up, rank, k, own, other, own.command, Command);
  }

  /** Solve, in either mode and on any records, succeeds exactly on a step whose references resolve in
      the records of the steps it depends on, as they stand. */
  lemma StepIffResolves(ctx: Context, rank: map<Name, nat>, k: nat, own: Info)
    requires Ranked(ctx.up, rank) && Under(ctx.up, rank, own, k) && ctx.sys.Keys == SYS_NAMES
    ensures StepOutcome(ctx, rank, k, own).Done? <==> StepResolves(ctx.up, rank, k, own)
  {
    ParamsIffResolve(ctx, rank, k, own);
    if ParamsSolvable(ctx, rank, k, own, own.parameters) {
      var withParams := ParamsDone(ctx, rank, k, own);
      MapsIffResolve(ctx, rank, k, withParams, own);
      if MapsSolvable(ctx, rank, k, withParams) {
        CommandIffResolves(ctx, rank, k, MapsDone(ctx, rank, k, withParams), own);
      }
    }
  }

  lemma TextsOkResolve(up: map<Name, Info>, rank: map<Name, nat>, k: nat, own: Info, m: map<string, string>,
                       field: Field)
    requires Ranked(up, rank) && Under(up, rank, own, k)
    ensures TextsResolve(up, rank, k, own, m, field) ==> TextsOk(up, own, m, field)
    ensures ReadsOkBelow(up, rank, k) && TextsOk(up, own, m, field) ==> TextsResolve(up, rank, k, own, m, field)
  {
    if ReadsOkBelow(up, rank, k) && TextsOk(up, own, m, field) {
      forall a | a in m
        ensures TextResolves(up, rank, k, own, m[a], field)
      {
        TextOkResolves(up, rank, k, own, m[a], field);
      }
    }
    forall a | a in m && TextResolves(up, rank, k, own, m[a], field)
      ensures TextOk(up, own, m[a], field)
    {
      ResolvingIsOk(up, rank, k, own, m[a], field);
    }
  }

  lemma ResolvingIsOk(up: map<Name, Info>, rank: map<Name, nat>, k: nat, own: Info, s: string, field: Field)
    requires Ranked(up, rank) && Under(up, rank, own, k) && TextResolves(up, rank, k, own, s, field)
    ensures TextOk(up, own, s, field)
  {
    forall m | m in Refs(Parse(s))
      ensures RefOk(up, own, m.inner, field)
    {
      assert Resolves(up, rank, k, own, m.inner, field);
    }
  }

  lemma ParamsOkResolve(up: map<Name, Info>, rank: map<Name, nat>, k: nat, own: Info)
    requires Ranked(up, rank) && Under(up, rank, own, k)
    ensures ParamsResolve(up, rank, k, own) ==> ParamsOk(up, own, own.parameters)
    ensures ReadsOkBelow(up, rank, k) && ParamsOk(up, own, own.parameters) ==> ParamsResolve(up, rank, k, own)
  {
    forall a | a in own.parameters
      ensures ValueResolves(up, rank, k, own, own.parameters[a], Parameters) ==>
                ValueOk(up, own, own.parameters[a], Parameters)
      ensures ReadsOkBelow(up, rank, k) && ValueOk(up, own, own.parameters[a], Parameters) ==>
                ValueResolves(up, rank, k, own, own.parameters[a], Parameters)
    {
      ValueOkResolves(up, rank, k, own, own.parameters[a]);
    }
  }

  lemma ValueOkResolves(up: map<Name, Info>, rank: map<Name, nat>, k: nat, own: Info, v: Value)
    requires Ranked(up, rank) && Under(up, rank, own, k)
    ensures ValueResolves(up, rank, k, own, v, Parameters) ==> ValueOk(up, own, v, Parameters)
    ensures ReadsOkBelow(up, rank, k) && ValueOk(up, own, v, Parameters) ==>
              ValueResolves(up, rank, k, own, v, Parameters)
  {
    if v.Text? {
      if TextResolves(up, rank, k, own, v.text, Parameters) {
        ResolvingIsOk(up, rank, k, own, v.text, Parameters);
      }
      if ReadsOkBelow(up, rank, k) && TextOk(up, own, v.text, Parameters) {
        TextOkResolves(up, rank, k, own, v.text, Parameters);
      }
    }
  }

  /** A step whose references are in order resolves, if what it may read of the steps below is. */
  lemma StepOkResolves(up: map<Name, Info>, rank: map<Name, nat>, k: nat, own: Info)
    requires Ranked(up, rank) && Under(up, rank, own, k)
    ensures StepResolves(up, rank, k, own) ==> WellReferenced(up, own)
    ensures ReadsOkBelow(up, rank, k) && WellReferenced(up, own) ==> StepResolves(up, rank, k, own)
  {
    ParamsOkResolve(up, rank, k, own);
    TextsOkResolve(up, rank, k, own, own.inputs, Inputs);
    TextsOkResolve(up, rank, k, own, own.outputs, Outputs);
    TextsOkResolve(up, rank, k, own, own.env, Env);
    if TextResolves(up, rank, k, own, own.command, Command) {
      ResolvingIsOk(up, rank, k, own, own.command, Command);
    }
    if ReadsOkBelow(up, rank, k) && TextOk(up, own, own.command, Command) {
      TextOkResolves(up, rank, k, own, own.command, Command);
    }
  }

  /** So in either mode a step is solved only if it is well referenced, and if it is and what it may read
      of the steps below is in order, then it is solved. */
  lemma StepIffOk(ctx: Context, rank: map<Name, nat>, k: nat, own: Info)
    requires Ranked(ctx.up, rank) && Under(ctx.up, rank, own, k) && ctx.sys.Keys == SYS_NAMES
    ensures StepOutcome(ctx, rank, k, own).Done? ==> WellReferenced(ctx.up, own)
    ensures ReadsOkBelow(ctx.up, rank, k) && WellReferenced(ctx.up, own) ==> StepOutcome(ctx, rank, k, own).Done?
  {
    StepIffResolves(ctx, rank, k, own);
    StepOkResolves(ctx.up, rank, k, own);
  }

  lemma WellReferencedMoves(a: map<Name, Info>, b: map<Name, Info>, own: Info)
    requires forall r | r in DepNames(own.deps) && r in a :: r in b && SameKeys(a[r], b[r])
    requires WellReferenced(a, own)
    ensures WellReferenced(b, own)
  {
    TextsMove(a, b, own, own.inputs, Inputs);
    TextsMove(a, b, own, own.outputs, Outputs);
    TextsMove(a, b, own, own.env, Env);
    TextMoves(a, b, own, own.command, Command);
    forall p | p in own.parameters
      ensures ValueOk(b, own, own.parameters[p], Parameters)
    {
      assert ValueOk(a, own, own.parameters[p], Parameters);
      if own.parameters[p].Text? {
        TextMoves(a, b, own, own.parameters[p].text, Parameters);
      }
    }
  }

  lemma TextMoves(a: map<Name, Info>, b: map<Name, Info>, own: Info, s: string, field: Field)
    requires forall r | r in DepNames(own.deps) && r in a :: r in b && SameKeys(a[r], b[r])
    requires TextOk(a, own, s, field)
    ensures TextOk(b, own, s, field)
  {
    forall m | m in Refs(Parse(s))
      ensures RefOk(b, own, m.inner, field)
    {
      assert RefOk(a, own, m.inner, field);
    }
  }

  lemma TextsMove(a: map<Name, Info>, b: map<Name, Info>, own: Info, m: map<string, string>, field: Field)
    requires forall r | r in DepNames(own.deps) && r in a :: r in b && SameKeys(a[r], b[r])
    requires TextsOk(a, own, m, field)
    ensures TextsOk(b, own, m, field)
  {
    forall k | k in m
      ensures TextOk(b, own, m[k], field)
    {
      TextMoves(a, b, own, m[k], field);
    }
  }

  // ---- checking only: dictionaries give way to their defaults, nothing else changes ----

  function DefaultOf(v: Value): Value { if v.Dict? && CheckDict(v).Done? then v.preset else v }

  function Defaulted(own: Info): Info {
    own.(parameters := map a | a in own.parameters :: DefaultOf(own.parameters[a]))
  }

  lemma {:induction false} CheckingKeepsRows(ctx: Context, rank: map<Name, nat>, k: nat, own: Info,
                                             rows: seq<Match>, result: string, field: Field)
    requires Ranked(ctx.up, rank) && Under(ctx.up, rank, own, k) && !ctx.replace
    requires forall m | m in rows :: IsMatch(m)
    ensures var r := ResolveRows(ctx, rank, k, own, rows, result, field);
            r.Done? ==> r.value == result
    decreases |rows|
  {
    if rows != [] {
      assert IsMatch(rows[0]);
      CheckingKeepsRows(ctx, rank, k, own, rows[1..], result, field);
    }
  }

  lemma CheckingKeepsText(ctx: Context, rank: map<Name, nat>, k: nat, own: Info, s: string, field: Field)
    requires Ranked(ctx.up, rank) && Under(ctx.up, rank, own, k) && !ctx.replace
    ensures var r := Resolve(ctx, rank, k, own, s, field);
            r.Done? ==> r.value == s
  {
    RefsAreMatches(s);
    CheckingKeepsRows(ctx, rank, k, own, Refs(Parse(s)), s, field);
  }

  lemma CheckingKeepsTexts(ctx: Context, rank: map<Name, nat>, k: nat, own: Info, m: map<string, string>, field: Field)
    requires Ranked(ctx.up, rank) && Under(ctx.up, rank, own, k) && !ctx.replace
    requires TextsSolvable(ctx, rank, k, own, m, field)
    ensures TextsSolved(ctx, rank, k, own, m, field) == m
  {
    forall a | a in m
      ensures Resolve(ctx, rank, k, own, m[a], field).value == m[a]
    {
      CheckingKeepsText(ctx, rank, k, own, m[a], field);
    }
  }

  lemma CheckingDefaultsParams(ctx: Context, rank: map<Name, nat>, k: nat, own: Info)
    requires Ranked(ctx.up, rank) && Under(ctx.up, rank, own, k) && !ctx.replace
    requires ParamsSolvable(ctx, rank, k, own, own.parameters)
    ensures ParamsDone(ctx, rank, k, own) == Defaulted(own)
  {
    forall a | a in own.parameters
      ensures CheckValue(ctx, rank, k, own, own.parameters[a], Parameters).value == DefaultOf(own.parameters[a])
    {
      if own.parameters[a].Text? {
        CheckingKeepsText(ctx, rank, k, own, own.parameters[a].text, Parameters);
      }
    }
  }

  lemma CheckingDefaults(ctx: Context, rank: map<Name, nat>, k: nat, own: Info)
    requires Ranked(ctx.up, rank) && Under(ctx.up, rank, own, k) && !ctx.replace
    requires StepOutcome(ctx, rank, k, own).Done?
    ensures StepOutcome(ctx, rank, k, own).value == Defaulted(own)
  {
    CheckingDefaultsParams(ctx, rank, k, own);
    var withParams := ParamsDone(ctx, rank, k, own);
    CheckingKeepsTexts(ctx, rank, k, withParams, own.inputs, Inputs);
    CheckingKeepsTexts(ctx, rank, k, withParams, own.outputs, Outputs);
    CheckingKeepsTexts(ctx, rank, k, withParams, own.env, Env);
    CheckingKeepsText(ctx, rank, k, MapsDone(ctx, rank, k, withParams), own.command, Command);
  }

  // ---- replacing: the step gets its meaning ----

  lemma SolvedReadsOk(src: map<Name, Info>, run: Run, rank: map<Name, nat>, n: Name, ctx: Context, m: Name)
    requires n in src && Sound(src, run, rank) && UpstreamSolved(src, run, rank, n, ctx) && m in ctx.up
    ensures ReadsOk(ctx.up, ctx.up[m])
  {
    var up, info := ctx.up, ctx.up[m];
    assert Meant(src, run, rank, m, info) && WellReferenced(src, src[m]);
    forall a | a in info.parameters
      ensures NameOk(a) && ValueOk(up, info, info.parameters[a], Parameters)
    {
      SettledParameter(src, run, rank, m, a);
      assert info.parameters[a] == ValueMeaning(src, run, rank, m, src[m].parameters[a]);
      if info.parameters[a].Text? {
        UndoubledHasNoRefs(info.parameters[a].text);
      }
    }
    SolvedOutputsOk(src, run, rank, m, up, info);
  }

  lemma SolvedOutputsOk(src: map<Name, Info>, run: Run, rank: map<Name, nat>, m: Name, up: map<Name, Info>, info: Info)
    requires m in src && Sound(src, run, rank) && Meant(src, run, rank, m, info)
    ensures TextsOk(up, info, info.outputs, Outputs)
  {
    assert WellReferenced(src, src[m]) && SettledStep(src, run, rank, m);
    forall a | a in info.outputs
      ensures NameOk(a) && TextOk(up, info, info.outputs[a], Outputs)
    {
      UndoubledHasNoRefs(info.outputs[a]);
    }
  }

  lemma MeantKeys(src: map<Name, Info>, run: Run, rank: map<Name, nat>, m: Name, info: Info)
    requires m in src && Ranked(src, rank) && Meant(src, run, rank, m, info)
    ensures SameKeys(info, src[m]) && SameKeys(src[m], info)
  {
  }

  /** After its upstream steps have been solved, a well-referenced step is solved as well. */
  lemma SoundStepIsSolved(src: map<Name, Info>, run: Run, rank: map<Name, nat>, n: Name, ctx: Context)
    requires n in src && Sound(src, run, rank) && UpstreamSolved(src, run, rank, n, ctx)
    requires Ranked(ctx.up, rank) && Under(ctx.up, rank, src[n], rank[n])
    ensures StepOutcome(ctx, rank, rank[n], src[n]).Done?
  {
    forall m | m in ctx.up
      ensures ReadsOk(ctx.up, ctx.up[m]) && SameKeys(src[m], ctx.up[m])
    {
      SolvedReadsOk(src, run, rank, n, ctx, m);
      MeantKeys(src, run, rank, m, ctx.up[m]);
    }
    assert WellReferenced(src, src[n]);
    WellReferencedMoves(src, ctx.up, src[n]);
    StepIffOk(ctx, rank, rank[n], src[n]);
  }

  lemma ParamsGiveMeaning(src: map<Name, Info>, run: Run, rank: map<Name, nat>, n: Name, ctx: Context)
    requires n in src && Sound(src, run, rank) && UpstreamSolved(src, run, rank, n, ctx)
    requires Ranked(ctx.up, rank) && Under(ctx.up, rank, src[n], rank[n])
    requires ParamsSolvable(ctx, rank, rank[n], src[n], src[n].parameters)
    ensures ParamsSolved(ctx, rank, rank[n], src[n], src[n].parameters) == ParamsMeaning(src, run, rank, n)
  {
    var got := ParamsSolved(ctx, rank, rank[n], src[n], src[n].parameters);
    var want := ParamsMeaning(src, run, rank, n);
    forall a | a in src[n].parameters
      ensures got[a] == want[a]
    {
      ParamGivesMeaning(src, run, rank, n, ctx, a);
    }
    SameMap(got, want);
  }

  lemma SameMap<K, V>(a: map<K, V>, b: map<K, V>)
    requires a.Keys == b.Keys && forall k | k in a :: a[k] == b[k]
    ensures a == b
  {
  }

  lemma ParamGivesMeaning(src: map<Name, Info>, run: Run, rank: map<Name, nat>, n: Name, ctx: Context, a: string)
    requires n in src && Sound(src, run, rank) && UpstreamSolved(src, run, rank, n, ctx)
    requires Ranked(ctx.up, rank) && Under(ctx.up, rank, src[n], rank[n]) && a in src[n].parameters
    ensures CheckValue(ctx, rank, rank[n], src[n], src[n].parameters[a], Parameters)
         == Done(ValueMeaning(src, run, rank, n, src[n].parameters[a]))
  {
    var v := src[n].parameters[a];
    SettledParameter(src, run, rank, n, a);
    assert NoDicts(src[n]) && WellReferenced(src, src[n]) && ValueOk(src, src[n], v, Parameters);
    if v.Text? {
      ResolveGivesMeaning(src, run, rank, n, ctx, src[n], v.text, Parameters);
    }
  }

  lemma TextsGiveMeaning(src: map<Name, Info>, run: Run, rank: map<Name, nat>, n: Name,
                         ctx: Context, own: Info, m: map<string, string>, field: Field)
    requires n in src && Sound(src, run, rank) && TextsOk(src, src[n], m, field)
    requires UpstreamSolved(src, run, rank, n, ctx) && OwnSolved(src, run, rank, n, own, field)
    requires Ranked(ctx.up, rank) && Under(ctx.up, rank, own, rank[n])
    requires TextsSolvable(ctx, rank, rank[n], own, m, field)
    ensures TextsMeant(src, run, rank, n, m, field, TextsSolved(ctx, rank, rank[n], own, m, field))
  {
    forall a | a in m && Undoubled(TextMeaning(src, run, rank, n, m[a], field))
      ensures Resolve(ctx, rank, rank[n], own, m[a], field) == Done(TextMeaning(src, run, rank, n, m[a], field))
    {
      ResolveGivesMeaning(src, run, rank, n, ctx, own, m[a], field);
    }
  }

  lemma AllMeant(src: map<Name, Info>, run: Run, rank: map<Name, nat>, n: Name,
                 m: map<string, string>, field: Field, solved: map<string, string>)
    requires n in src && Ranked(src, rank) && TextsMeant(src, run, rank, n, m, field, solved)
    requires AllUndoubled(TextsMeaning(src, run, rank, n, m, field))
    ensures solved == TextsMeaning(src, run, rank, n, m, field)
  {
    var want := TextsMeaning(src, run, rank, n, m, field);
    forall a | a in m
      ensures solved[a] == want[a]
    {
      assert Undoubled(want[a]);
    }
    SameMap(solved, want);
  }

  /** The maps of a step whose parameters are solved. */
  lemma MapsGiveMeaning(src: map<Name, Info>, run: Run, rank: map<Name, nat>, n: Name, ctx: Context, own: Info)
    requires n in src && Sound(src, run, rank) && UpstreamSolved(src, run, rank, n, ctx)
    requires own == src[n].(parameters := ParamsMeaning(src, run, rank, n))
    requires Ranked(ctx.up, rank) && Under(ctx.up, rank, own, rank[n]) && MapsSolvable(ctx, rank, rank[n], own)
    ensures var solved := MapsDone(ctx, rank, rank[n], own);
            && TextsMeant(src, run, rank, n, src[n].inputs, Inputs, solved.inputs)
            && TextsMeant(src, run, rank, n, src[n].env, Env, solved.env)
            && solved.outputs == TextsMeaning(src, run, rank, n, src[n].outputs, Outputs)
  {
    assert WellReferenced(src, src[n]) && SettledStep(src, run, rank, n);
    TextsGiveMeaning(src, run, rank, n, ctx, own, src[n].inputs, Inputs);
    TextsGiveMeaning(src, run, rank, n, ctx, own, src[n].outputs, Outputs);
    TextsGiveMeaning(src, run, rank, n, ctx, own, src[n].env, Env);
    AllMeant(src, run, rank, n, src[n].outputs, Outputs,
             TextsSolved(ctx, rank, rank[n], own, src[n].outputs, Outputs));
  }

  lemma CommandGivesMeaning(src: map<Name, Info>, run: Run, rank: map<Name, nat>, n: Name, ctx: Context, own: Info)
    requires n in src && Sound(src, run, rank) && UpstreamSolved(src, run, rank, n, ctx)
    requires own.deps == src[n].deps && own.parameters == ParamsMeaning(src, run, rank, n)
    requires own.outputs == TextsMeaning(src, run, rank, n, src[n].outputs, Outputs)
    requires TextsMeant(src, run, rank, n, src[n].inputs, Inputs, own.inputs)
    requires AllUndoubled(TextsMeaning(src, run, rank, n, src[n].inputs, Inputs))
    requires Undoubled(TextMeaning(src, run, rank, n, src[n].command, Command))
    requires Ranked(ctx.up, rank) && Under(ctx.up, rank, own, rank[n])
    ensures Resolve(ctx, rank, rank[n], own, src[n].command, Command)
         == Done(TextMeaning(src, run, rank, n, src[n].command, Command))
  {
    assert WellReferenced(src, src[n]);
    AllMeant(src, run, rank, n, src[n].inputs, Inputs, own.inputs);
    ResolveGivesMeaning(src, run, rank, n, ctx, own, src[n].command, Command);
  }

  /** Solving a step after its upstream steps gives its fields their meanings. */
  lemma StepGivesMeaning(src: map<Name, Info>, run: Run, rank: map<Name, nat>, n: Name, ctx: Context)
    requires n in src && Sound(src, run, rank) && UpstreamSolved(src, run, rank, n, ctx)
    requires Ranked(ctx.up, rank) && Under(ctx.up, rank, src[n], rank[n])
    ensures StepOutcome(ctx, rank, rank[n], src[n]).Done?
    ensures Meant(src, run, rank, n, StepOutcome(ctx, rank, rank[n], src[n]).value)
  {
    SoundStepIsSolved(src, run, rank, n, ctx);
    ParamsGiveMeaning(src, run, rank, n, ctx);
    var withParams := ParamsDone(ctx, rank, rank[n], src[n]);
    MapsGiveMeaning(src, run, rank, n, ctx, withParams);
    var withMaps := MapsDone(ctx, rank, rank[n], withParams);
    if AllUndoubled(TextsMeaning(src, run, rank, n, src[n].inputs, Inputs)) &&
       Undoubled(TextMeaning(src, run, rank, n, src[n].command, Command)) {
      CommandGivesMeaning(src, run, rank, n, ctx, withMaps);
    }
  }
}
