/** StepParamSolver at work on the shared step records: Solve rewrites the fields of one step in place,
    checkSteps does so for checking only, and newWorkflowRuntime step by step in sorted order. */
module ParamSolving {
  import opened Templates
  import opened ParamSolver

  /** The step records that the workflow and every solver point to. */
  class Source {
    var infos: map<Name, Info>

    constructor (infos: map<Name, Info>)
      ensures this.infos == infos
    {
      this.infos := infos;
    }
  }

  /** Does `field` see the same own fields in both? */
  predicate SameFor(own: Info, other: Info, field: Field) {
    && own.deps == other.deps
    && (!field.Parameters? ==> own.parameters == other.parameters)
    && (field.Command? ==> own.inputs == other.inputs && own.outputs == other.outputs)
  }

  lemma SameLookup(ctx: Context, rank: map<Name, nat>, k: nat, own: Info, other: Info, inner: string, field: Field)
    requires Ranked(ctx.up, rank) && Under(ctx.up, rank, own, k) && SameFor(own, other, field)
    ensures Lookup(ctx, rank, k, own, inner, field) == Lookup(ctx, rank, k, other, inner, field)
  {
    var (r, p) := ParseParamName(inner);
    assert RefParamExist(ctx, rank, k, own, r, p, field) == RefParamExist(ctx, rank, k, other, r, p, field);
  }

  lemma {:induction false} SameRows(ctx: Context, rank: map<Name, nat>, k: nat, own: Info, other: Info,
                                    rows: seq<Match>, result: string, field: Field)
    requires Ranked(ctx.up, rank) && Under(ctx.up, rank, own, k) && SameFor(own, other, field)
    requires forall m | m in rows :: IsMatch(m)
    ensures ResolveRows(ctx, rank, k, own, rows, result, field) == ResolveRows(ctx, rank, k, other, rows, result, field)
    decreases |rows|
  {
    if rows != [] {
      assert IsMatch(rows[0]);
      SameLookup(ctx, rank, k, own, other, rows[0].inner, field);
      var tmpVal := Lookup(ctx, rank, k, own, rows[0].inner, field);
      if tmpVal.Done? {
        var next := if ctx.replace then ReplaceAll(result, rows[0].raw, tmpVal.value) else result;
        SameRows(ctx, rank, k, own, other, rows[1..], next, field);
      }
    }
  }

  lemma SameResolve(ctx: Context, rank: map<Name, nat>, k: nat, own: Info, other: Info, s: string, field: Field)
    requires Ranked(ctx.up, rank) && Under(ctx.up, rank, own, k) && SameFor(own, other, field)
    ensures Resolve(ctx, rank, k, own, s, field) == Resolve(ctx, rank, k, other, s, field)
  {
    RefsAreMatches(s);
    SameRows(ctx, rank, k, own, other, Refs(Parse(s)), s, field);
  }

  // ---- the methods of the solver ----

  lemma ResolveNext(ctx: Context, rank: map<Name, nat>, k: nat, own: Info, rows: seq<Match>, i: nat, result: string,
                    field: Field)
    requires Ranked(ctx.up, rank) && Under(ctx.up, rank, own, k)
    requires i < |rows| && forall m | m in rows :: IsMatch(m)
    ensures rows[i].raw != "" && forall m | m in rows[i..] || m in rows[i + 1..] :: IsMatch(m)
    ensures var tmpVal := Lookup(ctx, rank, k, own, rows[i].inner, field);
            ResolveRows(ctx, rank, k, own, rows[i..], result, field) ==
              if !tmpVal.Done? then (if tmpVal.Error? then Error else NilDeref)
              else
                ResolveRows(ctx, rank, k, own, rows[i + 1..],
                            if ctx.replace then ReplaceAll(result, rows[i].raw, tmpVal.value) else result, field)
  {
    assert rows[i] in rows && IsMatch(rows[i]);
    assert rows[i..][1..] == rows[i + 1..];
  }

  /** resolveRefParam. */
  method ResolveRefParam(ctx: Context, ghost rank: map<Name, nat>, ghost k: nat, own: Info, param: string, field: Field)
      returns (r: Outcome<string>)
    requires Ranked(ctx.up, rank) && Under(ctx.up, rank, own, k)
    ensures r == Resolve(ctx, rank, k, own, param, field)
  {
    var matches := Refs(Parse(param));
    RefsAreMatches(param);
    var result := param;
    for index := 0 to |matches|
      invariant Resolve(ctx, rank, k, own, param, field)
             == ResolveRows(ctx, rank, k, own, matches[index..], result, field)
    {
      var row := matches[index];
      ResolveNext(ctx, rank, k, own, matches, index, result, field);
      var tmpVal := Lookup(ctx, rank, k, own, row.inner, field);
      match tmpVal {
        case Error => return Error;
        case NilDeref => return NilDeref;
        case Done(val) =>
          if ctx.replace {
            result := ReplaceAll(result, row.raw, val);
          }
      }
    }
    r := Done(result);
  }

  /** checkParamValue. */
  method CheckParamValue(ctx: Context, ghost rank: map<Name, nat>, ghost k: nat, own: Info, param: Value, field: Field)
      returns (r: Outcome<Value>)
    requires Ranked(ctx.up, rank) && Under(ctx.up, rank, own, k)
    ensures r == CheckValue(ctx, rank, k, own, param, field)
  {
    match param
    case Text(s) =>
      var resolved := ResolveRefParam(ctx, rank, k, own, s, field);
      r := match resolved case Done(text) => Done(Text(text)) case Error => Error case NilDeref => NilDeref;
    case Number(plain, _) => r := if plain then Done(param) else Error;
    case Dict(_, _, _) => r := CheckDict(param);
    case Other(_) => r := Error;
  }

  function TextsOf(info: Info, field: Field): map<string, string> {
    if field.Inputs? then info.inputs else if field.Outputs? then info.outputs else info.env
  }

  function WithTexts(info: Info, field: Field, texts: map<string, string>): Info {
    if field.Inputs? then info.(inputs := texts)
    else if field.Outputs? then info.(outputs := texts)
    else info.(env := texts)
  }

  // ---- what Solve does to a step ----

  ghost function ParamsDone(ctx: Context, rank: map<Name, nat>, k: nat, own: Info): Info
    requires Ranked(ctx.up, rank) && Under(ctx.up, rank, own, k) && ParamsSolvable(ctx, rank, k, own, own.parameters)
  {
    own.(parameters := ParamsSolved(ctx, rank, k, own, own.parameters))
  }

  ghost function TextsDone(ctx: Context, rank: map<Name, nat>, k: nat, own: Info, field: Field): Info
    requires Ranked(ctx.up, rank) && Under(ctx.up, rank, own, k)
    requires TextsSolvable(ctx, rank, k, own, TextsOf(own, field), field)
  {
    WithTexts(own, field, TextsSolved(ctx, rank, k, own, TextsOf(own, field), field))
  }

  ghost predicate MapsSolvable(ctx: Context, rank: map<Name, nat>, k: nat, own: Info)
    requires Ranked(ctx.up, rank) && Under(ctx.up, rank, own, k)
  {
    && TextsSolvable(ctx, rank, k, own, own.inputs, Inputs)
    && TextsSolvable(ctx, rank, k, own, own.outputs, Outputs)
    && TextsSolvable(ctx, rank, k, own, own.env, Env)
  }

  ghost function MapsDone(ctx: Context, rank: map<Name, nat>, k: nat, own: Info): Info
    requires Ranked(ctx.up, rank) && Under(ctx.up, rank, own, k) && MapsSolvable(ctx, rank, k, own)
  {
    own.(inputs := TextsSolved(ctx, rank, k, own, own.inputs, Inputs),
         outputs := TextsSolved(ctx, rank, k, own, own.outputs, Outputs),
         env := TextsSolved(ctx, rank, k, own, own.env, Env))
  }

  /** Parameters first, then the artifacts and the environment, then the command. */
  ghost function StepOutcome(ctx: Context, rank: map<Name, nat>, k: nat, own: Info): (r: Outcome<Info>)
    requires Ranked(ctx.up, rank) && Under(ctx.up, rank, own, k)
  {
    if !ParamsSolvable(ctx, rank, k, own, own.parameters) then Error
    else
      var withParams := ParamsDone(ctx, rank, k, own);
      if !MapsSolvable(ctx, rank, k, withParams) then Error
      else
        var withMaps := MapsDone(ctx, rank, k, withParams);
        match Resolve(ctx, rank, k, withMaps, withMaps.command, Command)
        case Done(command) => Done(withMaps.(command := command))
        case Error => Error
        case NilDeref => Error
  }

  lemma SameTexts(ctx: Context, rank: map<Name, nat>, k: nat, own: Info, other: Info, m: map<string, string>,
                  field: Field)
    requires Ranked(ctx.up, rank) && Under(ctx.up, rank, own, k) && SameFor(own, other, field)
    ensures TextsSolvable(ctx, rank, k, own, m, field) == TextsSolvable(ctx, rank, k, other, m, field)
    ensures TextsSolvable(ctx, rank, k, own, m, field) ==>
              TextsSolved(ctx, rank, k, own, m, field) == TextsSolved(ctx, rank, k, other, m, field)
  {
    forall a | a in m
      ensures Resolve(ctx, rank, k, own, m[a], field) == Resolve(ctx, rank, k, other, m[a], field)
    {
      SameResolve(ctx, rank, k, own, other, m[a], field);
    }
    TextsAgree(ctx, rank, k, own, other, m, field);
  }

  lemma TextsAgree(ctx: Context, rank: map<Name, nat>, k: nat, own: Info, other: Info, m: map<string, string>,
                   field: Field)
    requires Ranked(ctx.up, rank) && Under(ctx.up, rank, own, k) && Under(ctx.up, rank, other, k)
    requires forall a | a in m :: Resolve(ctx, rank, k, own, m[a], field) == Resolve(ctx, rank, k, other, m[a], field)
    ensures TextsSolvable(ctx, rank, k, own, m, field) == TextsSolvable(ctx, rank, k, other, m, field)
    ensures TextsSolvable(ctx, rank, k, own, m, field) ==>
              TextsSolved(ctx, rank, k, own, m, field) == TextsSolved(ctx, rank, k, other, m, field)
  {
  }

  /** The texts outside rest have been resolved. */
  ghost predicate TextsBut(ctx: Context, rank: map<Name, nat>, k: nat, own: Info, was: map<string, string>,
                           now: map<string, string>, rest: set<string>, field: Field)
    requires Ranked(ctx.up, rank) && Under(ctx.up, rank, own, k)
  {
    && now.Keys == was.Keys
    && (forall a | a in was && a in rest :: now[a] == was[a])
    && (forall a | a in was && a !in rest :: NameOk(a) && Resolve(ctx, rank, k, own, was[a], field) == Done(now[a]))
  }

  lemma TextsOneMore(ctx: Context, rank: map<Name, nat>, k: nat, own: Info, was: map<string, string>,
                     now: map<string, string>, rest: set<string>, field: Field, name: string, val: string)
    requires Ranked(ctx.up, rank) && Under(ctx.up, rank, own, k)
    requires TextsBut(ctx, rank, k, own, was, now, rest, field) && name in was && NameOk(name)
    requires Resolve(ctx, rank, k, own, was[name], field) == Done(val)
    ensures TextsBut(ctx, rank, k, own, was, now[name := val], rest - {name}, field)
  {
  }

  lemma TextsAll(ctx: Context, rank: map<Name, nat>, k: nat, own: Info, was: map<string, string>,
                 now: map<string, string>, field: Field)
    requires Ranked(ctx.up, rank) && Under(ctx.up, rank, own, k)
    requires TextsBut(ctx, rank, k, own, was, now, {}, field)
    ensures TextsSolvable(ctx, rank, k, own, was, field) && TextsSolved(ctx, rank, k, own, was, field) == now
  {
  }

  /** The parameters outside rest have been resolved. */
  ghost predicate ParamsBut(ctx: Context, rank: map<Name, nat>, k: nat, own: Info, was: map<string, Value>,
                            now: map<string, Value>, rest: set<string>)
    requires Ranked(ctx.up, rank) && Under(ctx.up, rank, own, k)
  {
    && now.Keys == was.Keys
    && (forall a | a in was && a in rest :: now[a] == was[a])
    && (forall a | a in was && a !in rest ::
          NameOk(a) && CheckValue(ctx, rank, k, own, was[a], Parameters) == Done(now[a]))
  }

  lemma ParamsOneMore(ctx: Context, rank: map<Name, nat>, k: nat, own: Info, was: map<string, Value>,
                      now: map<string, Value>, rest: set<string>, name: string, val: Value)
    requires Ranked(ctx.up, rank) && Under(ctx.up, rank, own, k)
    requires ParamsBut(ctx, rank, k, own, was, now, rest) && name in was && NameOk(name)
    requires CheckValue(ctx, rank, k, own, was[name], Parameters) == Done(val)
    ensures ParamsBut(ctx, rank, k, own, was, now[name := val], rest - {name})
  {
  }

  lemma ParamsAll(ctx: Context, rank: map<Name, nat>, k: nat, own: Info, was: map<string, Value>, now: map<string,
                  Value>)
    requires Ranked(ctx.up, rank) && Under(ctx.up, rank, own, k) && ParamsBut(ctx, rank, k, own, was, now, {})
    ensures ParamsSolvable(ctx, rank, k, own, was) && ParamsSolved(ctx, rank, k, own, was) == now
  {
  }

  class StepParamSolver {
    const source: Source
    const steps: set<Name> // the keys of the solver's map
    const sysParams: map<string, string>
    const needReplace: bool

    constructor (source: Source, steps: set<Name>, sysParams: map<string, string>, needReplace: bool)
      ensures this.source == source && this.steps == steps
      ensures this.sysParams == sysParams && this.needReplace == needReplace
    {
      this.source, this.steps, this.sysParams, this.needReplace := source, steps, sysParams, needReplace;
    }

    /** What the solver sees besides the step it is working on. */
    function Others(currentStep: Name): Context
      reads source
    {
      Context(map m | m in source.infos && m in steps && m != currentStep :: source.infos[m], sysParams, needReplace)
    }

    /** The record of the step and what its solver sees besides it. */
    ghost predicate At(currentStep: Name, ctx: Context, own: Info)
      reads source
    {
      currentStep in source.infos && source.infos[currentStep] == own && Others(currentStep) == ctx
    }

    method SetInfo(currentStep: Name, ghost ctx: Context, ghost own: Info, info: Info)
      requires At(currentStep, ctx, own)
      modifies source
      ensures At(currentStep, ctx, info) && source.infos - {currentStep} == old(source.infos) - {currentStep}
    {
      source.infos := source.infos[currentStep := info];
      assert source.infos - {currentStep} == old(source.infos) - {currentStep};
    }

    /** One parameter of the loop over the parameters. */
    method SolveParameter(currentStep: Name, ghost rank: map<Name, nat>, ghost k: nat, paramName: string,
                          ghost ctx: Context, ghost own: Info) returns (r: Outcome<Value>)
      requires At(currentStep, ctx, own) && Ranked(ctx.up, rank) && Under(ctx.up, rank, own, k)
      requires paramName in own.parameters
      modifies source
      ensures source.infos - {currentStep} == old(source.infos) - {currentStep}
      ensures r.Done? <==> NameOk(paramName)
                           && CheckValue(ctx, rank, k, own, own.parameters[paramName], Parameters).Done?
      ensures r.Done? ==> r == CheckValue(ctx, rank, k, own, own.parameters[paramName], Parameters)
      ensures r.Done? ==> At(currentStep, ctx, own.(parameters := own.parameters[paramName := r.value]))
    {
      if !NameOk(paramName) {
        return Error;
      }
      var step := source.infos[currentStep];
      r := CheckParamValue(Others(currentStep), rank, k, step, step.parameters[paramName], Parameters);
      if r.Done? {
        SetInfo(currentStep, ctx, own, step.(parameters := step.parameters[paramName := r.value]));
      }
    }

    method SolveParameters(currentStep: Name, ghost rank: map<Name, nat>, ghost k: nat,
                           ghost ctx: Context, ghost own: Info) returns (r: Outcome<()>)
      requires At(currentStep, ctx, own) && Ranked(ctx.up, rank) && Under(ctx.up, rank, own, k)
      modifies source
      ensures source.infos - {currentStep} == old(source.infos) - {currentStep}
      ensures r.Done? <==> ParamsSolvable(ctx, rank, k, own, own.parameters)
      ensures r.Done? ==> At(currentStep, ctx, ParamsDone(ctx, rank, k, own))
    {
      ghost var now := own.parameters;
      var rest := source.infos[currentStep].parameters.Keys;
      while rest != {}
        invariant At(currentStep, ctx, own.(parameters := now)) && rest <= own.parameters.Keys
        invariant source.infos - {currentStep} == old(source.infos) - {currentStep}
        invariant ParamsBut(ctx, rank, k, own, own.parameters, now, rest)
        decreases rest
      {
        var paramName :| paramName in rest;
        SameValue(ctx, rank, k, own, own.(parameters := now), own.parameters[paramName]);
        var realVal := SolveParameter(currentStep, rank, k, paramName, ctx, own.(parameters := now));
        if !realVal.Done? {
          return if realVal.Error? then Error else NilDeref;
        }
        ParamsOneMore(ctx, rank, k, own, own.parameters, now, rest, paramName, realVal.value);
        now, rest := now[paramName := realVal.value], rest - {paramName};
      }
      ParamsAll(ctx, rank, k, own, own.parameters, now);
      r := Done(());
    }

    /** One text of a loop over texts. */
    method SolveText(currentStep: Name, ghost rank: map<Name, nat>, ghost k: nat, field: Field, name: string,
                     ghost ctx: Context, ghost own: Info) returns (r: Outcome<string>)
      requires At(currentStep, ctx, own) && Ranked(ctx.up, rank) && Under(ctx.up, rank, own, k)
      requires name in TextsOf(own, field)
      modifies source
      ensures source.infos - {currentStep} == old(source.infos) - {currentStep}
      ensures r.Done? <==> NameOk(name) && Resolve(ctx, rank, k, own, TextsOf(own, field)[name], field).Done?
      ensures r.Done? ==> r == Resolve(ctx, rank, k, own, TextsOf(own, field)[name], field)
      ensures r.Done? ==> At(currentStep, ctx, WithTexts(own, field, TextsOf(own, field)[name := r.value]))
    {
      if !NameOk(name) {
        return Error;
      }
      var step := source.infos[currentStep];
      r := ResolveRefParam(Others(currentStep), rank, k, step, TextsOf(step, field)[name], field);
      if r.Done? {
        SetInfo(currentStep, ctx, own, WithTexts(step, field, TextsOf(step, field)[name := r.value]));
      }
    }

    /** The loops over input artifacts, output artifacts and environment variables. */
    method SolveTexts(currentStep: Name, ghost rank: map<Name, nat>, ghost k: nat, field: Field,
                      ghost ctx: Context, ghost own: Info) returns (r: Outcome<()>)
      requires At(currentStep, ctx, own) && Ranked(ctx.up, rank) && Under(ctx.up, rank, own, k)
      requires field.Inputs? || field.Outputs? || field.Env?
      modifies source
      ensures source.infos - {currentStep} == old(source.infos) - {currentStep}
      ensures r.Done? <==> TextsSolvable(ctx, rank, k, own, TextsOf(own, field), field)
      ensures r.Done? ==> At(currentStep, ctx, TextsDone(ctx, rank, k, own, field))
    {
      ghost var was, now := TextsOf(own, field), TextsOf(own, field);
      var rest := TextsOf(source.infos[currentStep], field).Keys;
      while rest != {}
        invariant At(currentStep, ctx, WithTexts(own, field, now)) && rest <= was.Keys
        invariant source.infos - {currentStep} == old(source.infos) - {currentStep}
        invariant TextsBut(ctx, rank, k, own, was, now, rest, field)
        decreases rest
      {
        var name :| name in rest;
        SameForLoop(own, field, now);
        SameResolve(ctx, rank, k, own, WithTexts(own, field, now), was[name], field);
        var realVal := SolveText(currentStep, rank, k, field, name, ctx, WithTexts(own, field, now));
        if !realVal.Done? {
          return if realVal.Error? then Error else NilDeref;
        }
        TextsOneMore(ctx, rank, k, own, was, now, rest, field, name, realVal.value);
        now, rest := now[name := realVal.value], rest - {name};
      }
      TextsAll(ctx, rank, k, own, was, now, field);
      r := Done(());
    }

    /** The three loops in turn. */
    method SolveMaps(currentStep: Name, ghost rank: map<Name, nat>, ghost k: nat,
                     ghost ctx: Context, ghost own: Info) returns (r: Outcome<()>)
      requires At(currentStep, ctx, own) && Ranked(ctx.up, rank) && Under(ctx.up, rank, own, k)
      modifies source
      ensures source.infos - {currentStep} == old(source.infos) - {currentStep}
      ensures r.Done? <==> MapsSolvable(ctx, rank, k, own)
      ensures r.Done? ==> At(currentStep, ctx, MapsDone(ctx, rank, k, own))
    {
      r := SolveTexts(currentStep, rank, k, Inputs, ctx, own);
      if !r.Done? {
        return;
      }
      ghost var withInputs := source.infos[currentStep];
      AfterInputs(ctx, rank, k, own, withInputs);
      r := SolveTexts(currentStep, rank, k, Outputs, ctx, withInputs);
      if !r.Done? {
        return;
      }
      ghost var withOutputs := source.infos[currentStep];
      AfterOutputs(ctx, rank, k, own, withInputs, withOutputs);
      r := SolveTexts(currentStep, rank, k, Env, ctx, withOutputs);
    }

    method SolveCommand(currentStep: Name, ghost rank: map<Name, nat>, ghost k: nat,
                        ghost ctx: Context, ghost own: Info) returns (r: Outcome<()>)
      requires At(currentStep, ctx, own) && Ranked(ctx.up, rank) && Under(ctx.up, rank, own, k)
      modifies source
      ensures source.infos - {currentStep} == old(source.infos) - {currentStep}
      ensures r.Done? <==> Resolve(ctx, rank, k, own, own.command, Command).Done?
      ensures r.Done? ==>
                At(currentStep, ctx, own.(command := Resolve(ctx, rank, k, own, own.command, Command).value))
    {
      var step := source.infos[currentStep];
      var realVal := ResolveRefParam(Others(currentStep), rank, k, step, step.command, Command);
      if !realVal.Done? {
        return if realVal.Error? then Error else NilDeref;
      }
      SetInfo(currentStep, ctx, own, step.(command := realVal.value));
      r := Done(());
    }

    /** Solve: the loops in turn, up to the first error. */
    method Solve(currentStep: Name, ghost rank: map<Name, nat>, ghost k: nat) returns (r: Outcome<()>)
      requires currentStep in source.infos && Ranked(Others(currentStep).up, rank)
      requires Under(Others(currentStep).up, rank, source.infos[currentStep], k)
      modifies source
      ensures source.infos - {currentStep} == old(source.infos) - {currentStep}
      ensures r.Done? <==> StepOutcome(old(Others(currentStep)), rank, k, old(source.infos[currentStep])).Done?
      ensures r.Done? ==>
                At(currentStep, old(Others(currentStep)),
                   StepOutcome(old(Others(currentStep)), rank, k, old(source.infos[currentStep])).value)
    {
      ghost var ctx, own := Others(currentStep), source.infos[currentStep];
      r := SolveParameters(currentStep, rank, k, ctx, own);
      if !r.Done? {
        return;
      }
      ghost var withParams := source.infos[currentStep];
      r := SolveMaps(currentStep, rank, k, ctx, withParams);
      if !r.Done? {
        return;
      }
      r := SolveCommand(currentStep, rank, k, ctx, source.infos[currentStep]);
    }
  }

  lemma SameForLoop(own: Info, field: Field, now: map<string, string>)
    requires field.Inputs? || field.Outputs? || field.Env?
    ensures SameFor(own, WithTexts(own, field, now), field) && TextsOf(WithTexts(own, field, now), field) == now
    ensures forall next :: WithTexts(WithTexts(own, field, now), field, next) == WithTexts(own, field, next)
  {
  }

  lemma AfterInputs(ctx: Context, rank: map<Name, nat>, k: nat, own: Info, withInputs: Info)
    requires Ranked(ctx.up, rank) && Under(ctx.up, rank, own, k)
    requires TextsSolvable(ctx, rank, k, own, own.inputs, Inputs) && withInputs == TextsDone(ctx, rank, k, own, Inputs)
    ensures TextsSolvable(ctx, rank, k, withInputs, withInputs.outputs, Outputs)
         == TextsSolvable(ctx, rank, k, own, own.outputs, Outputs)
    ensures TextsSolvable(ctx, rank, k, own, own.outputs, Outputs) ==>
              (TextsSolved(ctx, rank, k, withInputs, withInputs.outputs, Outputs)
               == TextsSolved(ctx, rank, k, own, own.outputs, Outputs))
  {
    SameTexts(ctx, rank, k, own, withInputs, own.outputs, Outputs);
  }

  lemma AfterOutputs(ctx: Context, rank: map<Name, nat>, k: nat, own: Info, withInputs: Info, withOutputs: Info)
    requires Ranked(ctx.up, rank) && Under(ctx.up, rank, own, k)
    requires TextsSolvable(ctx, rank, k, own, own.inputs, Inputs) && withInputs == TextsDone(ctx, rank, k, own, Inputs)
    requires TextsSolvable(ctx, rank, k, withInputs, withInputs.outputs, Outputs)
    requires withOutputs == TextsDone(ctx, rank, k, withInputs, Outputs)
    ensures TextsSolvable(ctx, rank, k, withOutputs, withOutputs.env, Env) == MapsSolvable(ctx, rank, k, own)
    ensures MapsSolvable(ctx, rank, k, own) ==>
              TextsDone(ctx, rank, k, withOutputs, Env) == MapsDone(ctx, rank, k, own)
  {
    AfterInputs(ctx, rank, k, own, withInputs);
    SameTexts(ctx, rank, k, own, withOutputs, own.env, Env);
  }

  lemma SameValue(ctx: Context, rank: map<Name, nat>, k: nat, own: Info, other: Info, v: Value)
    requires Ranked(ctx.up, rank) && Under(ctx.up, rank, own, k) && SameFor(own, other, Parameters)
    ensures CheckValue(ctx, rank, k, own, v, Parameters) == CheckValue(ctx, rank, k, other, v, Parameters)
  {
    if v.Text? {
      SameResolve(ctx, rank, k, own, other, v.text, Parameters);
    }
  }
}
