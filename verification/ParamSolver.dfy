/** StepParamSolver of pkg/pipeline/common.go on values: how a reference is looked up, what solving a
    step makes of its fields, and what the fields are meant to be. */
module ParamSolver {
  import opened Dependencies
  import opened Templates

  type Name = string

  /** A parameter: a string, a number (plain when checkParamValue accepts its type), a dictionary with
      `type` and `default`, or anything else. `shown` is what %v prints. */
  datatype Value =
    | Text(text: string)
    | Number(plain: bool, shown: string)
    | Dict(kind: string, preset: Value, shown: string)
    | Other(shown: string)

  datatype Info = Info(
    deps: string, parameters: map<string, Value>, inputs: map<string, string>,
    outputs: map<string, string>, env: map<string, string>, command: string)

  datatype Field = Parameters | Inputs | Outputs | Env | Command

  /** NilDeref: the step looked up is not in the solver's map, and its fields are read all the same. */
  datatype Outcome<T> = Done(value: T) | Error | NilDeref

  function Show(v: Value): string { if v.Text? then v.text else v.shown }

  predicate NameOk(name: string) { name != "" && forall c | c in name :: IsWord(c) }

  predicate IsPath(text: string) { text != "" && forall c | c in text :: IsWord(c) || c == '/' || c == '-' }

  function CheckDict(d: Value): (r: Outcome<Value>)
    requires d.Dict?
    ensures r.Done? ==> r.value == d.preset
    ensures r.Done? <==> || (d.kind == "string" && d.preset.Text? && d.preset.text != "")
                         || (d.kind == "float" && d.preset.Number?)
                         || (d.kind == "path" && d.preset.Text? && IsPath(d.preset.text))
  {
    if d.kind == "" || d.preset == Text("") then Error
    else if d.kind == "string" then (if d.preset.Text? then Done(d.preset) else Error)
    else if d.kind == "float" then (if d.preset.Number? then Done(d.preset) else Error)
    else if d.kind == "path" then (if d.preset.Text? && IsPath(d.preset.text) then Done(d.preset) else Error)
    else Error
  }

  /** parseParamName: the step and the parameter of a reference; without a dot there is no step. */
  function ParseParamName(inner: string): (string, string) {
    var parts := Split(inner, '.');
    if |parts| == 1 then ("", parts[0]) else (parts[0], parts[1])
  }

  // ---- looking a reference up ----

  const SYS_NAMES: set<string> := {"PF_RUN_ID", "PF_FS_ID", "PF_STEP_NAME", "PF_FS_NAME", "PF_USER_NAME"}

  /** What a solver knows besides the step being solved: the other steps, the system values, and
      whether it is to replace references or only to check them. */
  datatype Context = Context(up: map<Name, Info>, sys: map<string, string>, replace: bool)

  /** The listed dependencies of a step have ranks below k. */
  ghost predicate Under(up: map<Name, Info>, rank: map<Name, nat>, own: Info, k: nat) {
    forall d | d in DepNames(own.deps) && d in up :: d in rank && rank[d] < k
  }

  ghost predicate Ranked(up: map<Name, Info>, rank: map<Name, nat>) {
    forall n | n in up :: n in rank && Under(up, rank, up[n], rank[n])
  }

  /** A reference without a step name. */
  function OwnLookup(ctx: Context, own: Info, p: string, field: Field): Outcome<string> {
    if p in ctx.sys then Done(ctx.sys[p])
    else if field.Parameters? then Error
    else if p in own.parameters then Done(Show(own.parameters[p]))
    else if !field.Command? then Error
    else if p in own.inputs then Done(own.inputs[p])
    else if p in own.outputs then Done(own.outputs[p])
    else Error
  }

  function Lookup(ctx: Context, ghost rank: map<Name, nat>, ghost k: nat, own: Info, inner: string, field: Field)
      : Outcome<string>
    requires Ranked(ctx.up, rank) && Under(ctx.up, rank, own, k)
    decreases k, 1, 0
  {
    var (r, p) := ParseParamName(inner);
    if r == "" then OwnLookup(ctx, own, p, field)
    else
      match RefParamExist(ctx, rank, k, own, r, p, field)
      case Done(v) => Done(Show(v))
      case Error => Error
      case NilDeref => NilDeref
  }

  function RefParamExist(ctx: Context, ghost rank: map<Name, nat>, ghost k: nat, own: Info,
                         refStep: Name, p: string, field: Field): Outcome<Value>
    requires Ranked(ctx.up, rank) && Under(ctx.up, rank, own, k)
    decreases k, 0, 0
  {
    if field.Outputs? || refStep !in DepNames(own.deps) then Error
    else if refStep !in ctx.up then NilDeref
    else
      var up := ctx.up[refStep];
      if field.Inputs? then
        (if p in up.outputs then CheckValue(ctx, rank, rank[refStep], up, Text(up.outputs[p]), field) else Error)
      else
        (if p in up.parameters then CheckValue(ctx, rank, rank[refStep], up, up.parameters[p], field) else Error)
  }

  function CheckValue(ctx: Context, ghost rank: map<Name, nat>, ghost k: nat, own: Info, v: Value, field: Field)
      : Outcome<Value>
    requires Ranked(ctx.up, rank) && Under(ctx.up, rank, own, k)
    decreases k, 4, 0
  {
    match v
    case Number(plain, _) => if plain then Done(v) else Error
    case Other(_) => Error
    case Dict(_, _, _) => CheckDict(v)
    case Text(s) =>
      match Resolve(ctx, rank, k, own, s, field)
      case Done(result) => Done(Text(result))
      case Error => Error
      case NilDeref => NilDeref
  }

  function Resolve(ctx: Context, ghost rank: map<Name, nat>, ghost k: nat, own: Info, s: string, field: Field)
      : Outcome<string>
    requires Ranked(ctx.up, rank) && Under(ctx.up, rank, own, k)
    decreases k, 3, 0
  {
    RefsAreMatches(s);
    ResolveRows(ctx, rank, k, own, Refs(Parse(s)), s, field)
  }

  function ResolveRows(ctx: Context, ghost rank: map<Name, nat>, ghost k: nat, own: Info,
                       rows: seq<Match>, result: string, field: Field): Outcome<string>
    requires Ranked(ctx.up, rank) && Under(ctx.up, rank, own, k)
    requires forall m | m in rows :: IsMatch(m)
    decreases k, 2, |rows|
  {
    if rows == [] then Done(result)
    else
      match Lookup(ctx, rank, k, own, rows[0].inner, field)
      case Error => Error
      case NilDeref => NilDeref
      case Done(tmpVal) =>
        assert IsMatch(rows[0]);
        var next := if ctx.replace then ReplaceAll(result, rows[0].raw, tmpVal) else result;
        ResolveRows(ctx, rank, k, own, rows[1..], next, field)
  }

  // ---- solving one step ----

  ghost predicate ParamsSolvable(ctx: Context, rank: map<Name, nat>, k: nat, own: Info, m: map<string, Value>)
    requires Ranked(ctx.up, rank) && Under(ctx.up, rank, own, k)
  {
    forall a | a in m :: NameOk(a) && CheckValue(ctx, rank, k, own, m[a], Parameters).Done?
  }

  ghost function ParamsSolved(ctx: Context, rank: map<Name, nat>, k: nat, own: Info,
                              m: map<string, Value>): map<string, Value>
    requires Ranked(ctx.up, rank) && Under(ctx.up, rank, own, k) && ParamsSolvable(ctx, rank, k, own, m)
  {
    map a | a in m :: CheckValue(ctx, rank, k, own, m[a], Parameters).value
  }

  ghost predicate TextsSolvable(ctx: Context, rank: map<Name, nat>, k: nat, own: Info, m: map<string, string>,
                                field: Field)
    requires Ranked(ctx.up, rank) && Under(ctx.up, rank, own, k)
  {
    forall a | a in m :: NameOk(a) && Resolve(ctx, rank, k, own, m[a], field).Done?
  }

  ghost function TextsSolved(ctx: Context, rank: map<Name, nat>, k: nat, own: Info,
                             m: map<string, string>, field: Field): map<string, string>
    requires Ranked(ctx.up, rank) && Under(ctx.up, rank, own, k) && TextsSolvable(ctx, rank, k, own, m, field)
  {
    map a | a in m :: Resolve(ctx, rank, k, own, m[a], field).value
  }

  // ---- what is checked: every reference names something that its field may refer to ----

  predicate RefOk(up: map<Name, Info>, own: Info, inner: string, field: Field) {
    var (r, p) := ParseParamName(inner);
    if r == "" then
      || p in SYS_NAMES
      || (!field.Parameters? && p in own.parameters)
      || (field.Command? && (p in own.inputs || p in own.outputs))
    else
      && !field.Outputs? && r in DepNames(own.deps) && r in up
      && (if field.Inputs? then p in up[r].outputs else p in up[r].parameters)
  }

  predicate TextOk(up: map<Name, Info>, own: Info, s: string, field: Field) {
    forall m | m in Refs(Parse(s)) :: RefOk(up, own, m.inner, field)
  }

  predicate ValueOk(up: map<Name, Info>, own: Info, v: Value, field: Field) {
    match v
    case Text(s) => TextOk(up, own, s, field)
    case Number(plain, _) => plain
    case Dict(_, _, _) => CheckDict(v).Done?
    case Other(_) => false
  }

  predicate TextsOk(up: map<Name, Info>, own: Info, m: map<string, string>, field: Field) {
    forall a | a in m :: NameOk(a) && TextOk(up, own, m[a], field)
  }

  predicate ParamsOk(up: map<Name, Info>, own: Info, m: map<string, Value>) {
    forall a | a in m :: NameOk(a) && ValueOk(up, own, m[a], Parameters)
  }

  predicate WellReferenced(up: map<Name, Info>, own: Info) {
    && ParamsOk(up, own, own.parameters)
    && TextsOk(up, own, own.inputs, Inputs) && TextsOk(up, own, own.outputs, Outputs)
    && TextsOk(up, own, own.env, Env) && TextOk(up, own, own.command, Command)
  }

  ghost predicate AllWellReferenced(up: map<Name, Info>) { forall n | n in up :: WellReferenced(up, up[n]) }

  /** The parameters and output artifacts, which later steps may read again, are in order. */
  predicate ReadsOk(up: map<Name, Info>, own: Info) {
    ParamsOk(up, own, own.parameters) && TextsOk(up, own, own.outputs, Outputs)
  }

  ghost predicate ReadsOkBelow(up: map<Name, Info>, rank: map<Name, nat>, k: nat) {
    forall n | n in up && n in rank && rank[n] < k :: ReadsOk(up, up[n])
  }

  // ---- what a lookup needs, exactly ----

  /** The parameter or output artifact of another step that a reference leads to. */
  function UpstreamValue(up: map<Name, Info>, r: Name, p: string, field: Field): Value
    requires r in up && (if field.Inputs? then p in up[r].outputs else p in up[r].parameters)
  {
    if field.Inputs? then Text(up[r].outputs[p]) else up[r].parameters[p]
  }

  /** The reference names something its field may refer to, and so do, for the same field, all the
      references in the text that it leads to, as that text stands now. */
  ghost predicate Resolves(up: map<Name, Info>, rank: map<Name, nat>, k: nat, own: Info, inner: string, field: Field)
    requires Ranked(up, rank) && Under(up, rank, own, k)
    decreases k, 0
  {
    && RefOk(up, own, inner, field)
    && var (r, p) := ParseParamName(inner);
       (r != "" ==> ValueResolves(up, rank, rank[r], up[r], UpstreamValue(up, r, p, field), field))
  }

  ghost predicate TextResolves(up: map<Name, Info>, rank: map<Name, nat>, k: nat, own: Info, s: string, field: Field)
    requires Ranked(up, rank) && Under(up, rank, own, k)
    decreases k, 1
  {
    forall m | m in Refs(Parse(s)) :: Resolves(up, rank, k, own, m.inner, field)
  }

  ghost predicate ValueResolves(up: map<Name, Info>, rank: map<Name, nat>, k: nat, own: Info, v: Value, field: Field)
    requires Ranked(up, rank) && Under(up, rank, own, k)
    decreases k, 2
  {
    match v
    case Text(s) => TextResolves(up, rank, k, own, s, field)
    case Number(plain, _) => plain
    case Dict(_, _, _) => CheckDict(v).Done?
    case Other(_) => false
  }

  /** In either mode a lookup succeeds exactly if the reference resolves: errors depend on names alone,
      never on the values that are put in. */
  lemma {:induction false} LookupIffResolves(ctx: Context, rank: map<Name, nat>, k: nat, own: Info,
                                             inner: string, field: Field)
    requires Ranked(ctx.up, rank) && Under(ctx.up, rank, own, k) && ctx.sys.Keys == SYS_NAMES
    ensures Lookup(ctx, rank, k, own, inner, field).Done? <==> Resolves(ctx.up, rank, k, own, inner, field)
    decreases k, 1, 0
  {
    var (r, p) := ParseParamName(inner);
    if r == "" {
      OwnIffOk(ctx, own, inner, field);
    } else if RefOk(ctx.up, own, inner, field) {
      FoundUpstream(ctx, rank, k, own, inner, field);
      ValueIffResolves(ctx, rank, rank[r], ctx.up[r], UpstreamValue(ctx.up, r, p, field), field);
    }
  }

  lemma OwnIffOk(ctx: Context, own: Info, inner: string, field: Field)
    requires ParseParamName(inner).0 == "" && ctx.sys.Keys == SYS_NAMES
    ensures OwnLookup(ctx, own, ParseParamName(inner).1, field).Done? <==> RefOk(ctx.up, own, inner, field)
  {
  }

  lemma FoundUpstream(ctx: Context, rank: map<Name, nat>, k: nat, own: Info, inner: string, field: Field)
    requires Ranked(ctx.up, rank) && Under(ctx.up, rank, own, k)
    requires ParseParamName(inner).0 != "" && RefOk(ctx.up, own, inner, field)
    ensures var (r, p) := ParseParamName(inner);
            RefParamExist(ctx, rank, k, own, r, p, field)
              == CheckValue(ctx, rank, rank[r], ctx.up[r], UpstreamValue(ctx.up, r, p, field), field)
  {
  }

  lemma {:induction false} ValueIffResolves(ctx: Context, rank: map<Name, nat>, k: nat, own: Info, v: Value,
                                            field: Field)
    requires Ranked(ctx.up, rank) && Under(ctx.up, rank, own, k) && ctx.sys.Keys == SYS_NAMES
    ensures CheckValue(ctx, rank, k, own, v, field).Done? <==> ValueResolves(ctx.up, rank, k, own, v, field)
    decreases k, 4, 0
  {
    if v.Text? {
      TextIffResolves(ctx, rank, k, own, v.text, field);
    }
  }

  lemma {:induction false} TextIffResolves(ctx: Context, rank: map<Name, nat>, k: nat, own: Info, s: string,
                                           field: Field)
    requires Ranked(ctx.up, rank) && Under(ctx.up, rank, own, k) && ctx.sys.Keys == SYS_NAMES
    ensures Resolve(ctx, rank, k, own, s, field).Done? <==> TextResolves(ctx.up, rank, k, own, s, field)
    decreases k, 3, 0
  {
    RefsAreMatches(s);
    RowsIffResolve(ctx, rank, k, own, Refs(Parse(s)), s, field);
  }

  lemma {:induction false} RowsIffResolve(ctx: Context, rank: map<Name, nat>, k: nat, own: Info,
                                          rows: seq<Match>, result: string, field: Field)
    requires Ranked(ctx.up, rank) && Under(ctx.up, rank, own, k) && ctx.sys.Keys == SYS_NAMES
    requires forall m | m in rows :: IsMatch(m)
    ensures ResolveRows(ctx, rank, k, own, rows, result, field).Done? <==>
            forall m | m in rows :: Resolves(ctx.up, rank, k, own, m.inner, field)
    decreases k, 2, |rows|
  {
    if rows != [] {
      assert IsMatch(rows[0]);
      var tmpVal := Lookup(ctx, rank, k, own, rows[0].inner, field);
      LookupIffResolves(ctx, rank, k, own, rows[0].inner, field);
      if tmpVal.Done? {
        var next := if ctx.replace then ReplaceAll(result, rows[0].raw, tmpVal.value) else result;
        RowsIffResolve(ctx, rank, k, own, rows[1..], next, field);
      }
    }
  }

  // ---- where looking at the reference itself is enough ----

  /** With what may be read again in order in the steps below, a reference resolves if it is in order. */
  lemma {:induction false} OkResolves(up: map<Name, Info>, rank: map<Name, nat>, k: nat, own: Info,
                                      inner: string, field: Field)
    requires Ranked(up, rank) && Under(up, rank, own, k)
    requires ReadsOkBelow(up, rank, k) && RefOk(up, own, inner, field)
    ensures Resolves(up, rank, k, own, inner, field)
    decreases k, 0
  {
    var (r, p) := ParseParamName(inner);
    if r != "" {
      assert ReadsOk(up, up[r]);
      var v := UpstreamValue(up, r, p, field);
      if v.Text? {
        if field.Inputs? {
          OutputsOkForInputs(up, up[r], v.text);
        } else {
          ParametersOkForOthers(up, up[r], v.text, field);
        }
        TextOkResolves(up, rank, rank[r], up[r], v.text, field);
      }
    }
  }

  lemma {:induction false} TextOkResolves(up: map<Name, Info>, rank: map<Name, nat>, k: nat, own: Info,
                                          s: string, field: Field)
    requires Ranked(up, rank) && Under(up, rank, own, k)
    requires ReadsOkBelow(up, rank, k) && TextOk(up, own, s, field)
    ensures TextResolves(up, rank, k, own, s, field)
    decreases k, 1
  {
    forall m | m in Refs(Parse(s))
      ensures Resolves(up, rank, k, own, m.inner, field)
    {
      OkResolves(up, rank, k, own, m.inner, field);
    }
  }

  /** An output artifact may refer to less than an input artifact, so the upstream text that an input
      artifact leads to is never rejected for the field it is now read for. */
  lemma OutputsOkForInputs(up: map<Name, Info>, own: Info, s: string)
    requires TextOk(up, own, s, Outputs)
    ensures TextOk(up, own, s, Inputs)
  {
    forall m | m in Refs(Parse(s))
      ensures RefOk(up, own, m.inner, Inputs)
    {
      assert RefOk(up, own, m.inner, Outputs);
    }
  }

  lemma ParametersOkForOthers(up: map<Name, Info>, own: Info, s: string, field: Field)
    requires TextOk(up, own, s, Parameters) && (field.Parameters? || field.Env? || field.Command?)
    ensures TextOk(up, own, s, field)
  {
    forall m | m in Refs(Parse(s))
      ensures RefOk(up, own, m.inner, field)
    {
      assert RefOk(up, own, m.inner, Parameters);
    }
  }
}
