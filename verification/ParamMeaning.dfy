/** What the templates of a workflow mean, each reference read in the context of the step that owns the
    text, and the proof that solving the steps one after the other in place gives just that. */
module ParamMeaning {
  import opened Dependencies
  import opened Templates
  import opened ParamSolver

  datatype Run = Run(runId: string, fsId: string, fsName: string, userName: string)

  /** The system values of updateJob: all but the step's name belong to the run. */
  function SysParams(run: Run, n: Name): (sys: map<string, string>)
    ensures sys.Keys == SYS_NAMES
  {
    map["PF_RUN_ID" := run.runId, "PF_FS_ID" := run.fsId, "PF_STEP_NAME" := n,
        "PF_FS_NAME" := run.fsName, "PF_USER_NAME" := run.userName]
  }

  /** The system names and what each of them stands for. Two steps of a run differ in PF_STEP_NAME alone. */
  lemma SystemValues(run: Run, n: Name)
    ensures SysParams(run, n).Keys == {"PF_RUN_ID", "PF_FS_ID", "PF_STEP_NAME", "PF_FS_NAME", "PF_USER_NAME"}
    ensures SysParams(run, n)["PF_RUN_ID"] == run.runId && SysParams(run, n)["PF_FS_ID"] == run.fsId
    ensures SysParams(run, n)["PF_FS_NAME"] == run.fsName && SysParams(run, n)["PF_USER_NAME"] == run.userName
    ensures SysParams(run, n)["PF_STEP_NAME"] == n
    ensures forall m, k | k in SysParams(run, n) && k != "PF_STEP_NAME" :: SysParams(run, m)[k] == SysParams(run, n)[k]
  {
  }

  // ---- the meaning of a text ----

  ghost function Level(field: Field): nat { if field.Parameters? then 0 else if field.Command? then 2 else 1 }

  /** A text with every reference replaced by what it means. */
  ghost function Meaning(src: map<Name, Info>, run: Run, rank: map<Name, nat>, n: Name, ps: seq<Piece>,
                         field: Field): string
    requires n in src && Ranked(src, rank)
    decreases rank[n], Level(field), |ps|
  {
    if ps == [] then ""
    else
      (if ps[0].Lit? then [ps[0].c] else RefMeaning(src, run, rank, n, ps[0].m.inner, field))
      + Meaning(src, run, rank, n, ps[1..], field)
  }

  ghost function TextMeaning(src: map<Name, Info>, run: Run, rank: map<Name, nat>, n: Name, s: string,
                             field: Field): string
    requires n in src && Ranked(src, rank)
    decreases rank[n], Level(field), |Parse(s)| + 1
  {
    Meaning(src, run, rank, n, Parse(s), field)
  }

  /** A parameter keeps its kind; a dictionary stands for its default, read like any parameter. */
  ghost function ValueMeaning(src: map<Name, Info>, run: Run, rank: map<Name, nat>, n: Name, v: Value): Value
    requires n in src && Ranked(src, rank)
    decreases rank[n], 0, ReadingSize(v)
  {
    match v
    case Text(s) => Text(TextMeaning(src, run, rank, n, s, Parameters))
    case Dict(_, preset, _) =>
      if preset.Text? then Text(TextMeaning(src, run, rank, n, preset.text, Parameters)) else preset
    case _ => v
  }

  ghost function ReadingSize(v: Value): nat {
    if v.Text? then |Parse(v.text)| + 2
    else if v.Dict? && v.preset.Text? then |Parse(v.preset.text)| + 2
    else 0
  }

  /** What a reference in a field of step n means: values of the run, of n itself, or of the step it
      names, whose text is read as that step's own. */
  ghost function RefMeaning(src: map<Name, Info>, run: Run, rank: map<Name, nat>, n: Name, inner: string,
                            field: Field): string
    requires n in src && Ranked(src, rank)
    decreases rank[n], Level(field), 0, 1
  {
    var (r, p) := ParseParamName(inner);
    if r == "" then OwnMeaning(src, run, rank, n, p, field)
    else if r !in DepNames(src[n].deps) || r !in src then ""
    else if field.Inputs? then
      (if p in src[r].outputs then TextMeaning(src, run, rank, r, src[r].outputs[p], Outputs) else "")
    else
      (if p in src[r].parameters then Show(ValueMeaning(src, run, rank, r, src[r].parameters[p])) else "")
  }

  ghost function OwnMeaning(src: map<Name, Info>, run: Run, rank: map<Name, nat>, n: Name, p: string,
                            field: Field): string
    requires n in src && Ranked(src, rank)
    decreases rank[n], Level(field), 0, 0
  {
    if p in SysParams(run, n) then SysParams(run, n)[p]
    else if !field.Parameters? && p in src[n].parameters then
      Show(ValueMeaning(src, run, rank, n, src[n].parameters[p]))
    else if field.Command? && p in src[n].inputs then TextMeaning(src, run, rank, n, src[n].inputs[p], Inputs)
    else if field.Command? && p in src[n].outputs then TextMeaning(src, run, rank, n, src[n].outputs[p], Outputs)
    else ""
  }

  ghost function TextsMeaning(src: map<Name, Info>, run: Run, rank: map<Name, nat>, n: Name,
                              m: map<string, string>, field: Field): map<string, string>
    requires n in src && Ranked(src, rank)
  {
    map a | a in m :: TextMeaning(src, run, rank, n, m[a], field)
  }

  ghost function ParamsMeaning(src: map<Name, Info>, run: Run, rank: map<Name, nat>, n: Name): map<string, Value>
    requires n in src && Ranked(src, rank)
  {
    map a | a in src[n].parameters :: ValueMeaning(src, run, rank, n, src[n].parameters[a])
  }

  // ---- what solving is to leave behind ----

  /** The texts whose meanings have no doubled braces hold their meanings. */
  ghost predicate TextsMeant(src: map<Name, Info>, run: Run, rank: map<Name, nat>, n: Name,
                             m: map<string, string>, field: Field, solved: map<string, string>)
    requires n in src && Ranked(src, rank)
  {
    && solved.Keys == m.Keys
    && forall a | a in m ::
         Undoubled(TextMeaning(src, run, rank, n, m[a], field)) ==>
           solved[a] == TextMeaning(src, run, rank, n, m[a], field)
  }

  ghost predicate AllUndoubled(m: map<string, string>) { forall a | a in m :: Undoubled(m[a]) }

  /** Step n has been solved: parameters and output artifacts hold their meanings, and so does every
      other text in which no doubled braces arise. */
  ghost predicate Meant(src: map<Name, Info>, run: Run, rank: map<Name, nat>, n: Name, info: Info)
    requires n in src && Ranked(src, rank)
  {
    && info.deps == src[n].deps
    && info.parameters == ParamsMeaning(src, run, rank, n)
    && info.outputs == TextsMeaning(src, run, rank, n, src[n].outputs, Outputs)
    && TextsMeant(src, run, rank, n, src[n].inputs, Inputs, info.inputs)
    && TextsMeant(src, run, rank, n, src[n].env, Env, info.env)
    && (AllUndoubled(TextsMeaning(src, run, rank, n, src[n].inputs, Inputs)) &&
        Undoubled(TextMeaning(src, run, rank, n, src[n].command, Command)) ==>
          info.command == TextMeaning(src, run, rank, n, src[n].command, Command))
  }

  /** In what later steps may read again, no doubled braces arise: neither in the meaning of a parameter
      nor in that of an output artifact. */
  ghost predicate SettledStep(src: map<Name, Info>, run: Run, rank: map<Name, nat>, n: Name)
    requires n in src && Ranked(src, rank)
  {
    && (forall p | p in src[n].parameters ::
          var v := ValueMeaning(src, run, rank, n, src[n].parameters[p]); v.Text? ==> Undoubled(v.text))
    && AllUndoubled(TextsMeaning(src, run, rank, n, src[n].outputs, Outputs))
  }

  ghost predicate Settled(src: map<Name, Info>, run: Run, rank: map<Name, nat>)
    requires Ranked(src, rank)
  {
    forall n | n in src :: SettledStep(src, run, rank, n)
  }

  predicate NoDicts(own: Info) { forall p | p in own.parameters :: !own.parameters[p].Dict? }

  /** What the theorem on meanings starts from. */
  ghost predicate Sound(src: map<Name, Info>, run: Run, rank: map<Name, nat>) {
    && Ranked(src, rank) && AllWellReferenced(src) && Settled(src, run, rank)
    && forall n | n in src :: NoDicts(src[n])
  }

  // ---- replacing gives the meaning ----

  lemma UndoubledResolves(ctx: Context, rank: map<Name, nat>, k: nat, own: Info, s: string, field: Field)
    requires Ranked(ctx.up, rank) && Under(ctx.up, rank, own, k) && Undoubled(s)
    ensures Resolve(ctx, rank, k, own, s, field) == Done(s)
  {
    UndoubledHasNoRefs(s);
  }

  /** Step n is being solved after all the steps it depends on. */
  ghost predicate UpstreamSolved(src: map<Name, Info>, run: Run, rank: map<Name, nat>, n: Name, ctx: Context)
    requires n in src && Ranked(src, rank)
  {
    && ctx.replace && ctx.sys == SysParams(run, n)
    && (forall m | m in ctx.up :: m in src && Meant(src, run, rank, m, ctx.up[m]))
    && (forall d | d in DepNames(src[n].deps) && d in src :: d in ctx.up)
  }

  /** Those fields of the step itself that `field` may refer to have been solved. */
  ghost predicate OwnSolved(src: map<Name, Info>, run: Run, rank: map<Name, nat>, n: Name, own: Info, field: Field)
    requires n in src && Ranked(src, rank)
  {
    && own.deps == src[n].deps
    && (!field.Parameters? ==> own.parameters == ParamsMeaning(src, run, rank, n))
    && (field.Command? ==>
          && own.inputs == TextsMeaning(src, run, rank, n, src[n].inputs, Inputs)
          && own.outputs == TextsMeaning(src, run, rank, n, src[n].outputs, Outputs))
  }

  /** The meaning of a parameter that a later step reads resolves to itself. */
  lemma SettledParameter(src: map<Name, Info>, run: Run, rank: map<Name, nat>, r: Name, p: string)
    requires Sound(src, run, rank) && r in src && p in src[r].parameters
    ensures var v := ValueMeaning(src, run, rank, r, src[r].parameters[p]);
            (v.Text? && Undoubled(v.text)) || (v.Number? && v.plain)
  {
    assert SettledStep(src, run, rank, r) && NoDicts(src[r]);
    assert WellReferenced(src, src[r]) && ValueOk(src, src[r], src[r].parameters[p], Parameters);
  }

  lemma LookupGivesMeaning(src: map<Name, Info>, run: Run, rank: map<Name, nat>, n: Name,
                           ctx: Context, own: Info, inner: string, field: Field)
    requires n in src && Sound(src, run, rank) && RefOk(src, src[n], inner, field)
    requires UpstreamSolved(src, run, rank, n, ctx) && OwnSolved(src, run, rank, n, own, field)
    requires Ranked(ctx.up, rank) && Under(ctx.up, rank, own, rank[n])
    ensures Lookup(ctx, rank, rank[n], own, inner, field) == Done(RefMeaning(src, run, rank, n, inner, field))
  {
    var (r, p) := ParseParamName(inner);
    if r == "" {
    } else if field.Inputs? {
      UpstreamOutput(src, run, rank, n, ctx, own, r, p);
    } else {
      UpstreamParameter(src, run, rank, n, ctx, own, r, p, field);
    }
  }

  lemma UpstreamOutput(src: map<Name, Info>, run: Run, rank: map<Name, nat>, n: Name,
                       ctx: Context, own: Info, r: Name, p: string)
    requires n in src && Sound(src, run, rank)
    requires r in DepNames(own.deps) && r in src && r in ctx.up && p in src[r].outputs
    requires UpstreamSolved(src, run, rank, n, ctx)
    requires Ranked(ctx.up, rank) && Under(ctx.up, rank, own, rank[n])
    ensures RefParamExist(ctx, rank, rank[n], own, r, p, Inputs)
         == Done(Text(TextMeaning(src, run, rank, r, src[r].outputs[p], Outputs)))
  {
    var s := TextMeaning(src, run, rank, r, src[r].outputs[p], Outputs);
    assert Meant(src, run, rank, r, ctx.up[r]) && ctx.up[r].outputs[p] == s;
    assert SettledStep(src, run, rank, r);
    assert TextsMeaning(src, run, rank, r, src[r].outputs, Outputs)[p] == s;
    UndoubledResolves(ctx, rank, rank[r], ctx.up[r], s, Inputs);
    assert CheckValue(ctx, rank, rank[r], ctx.up[r], Text(s), Inputs) == Done(Text(s));
  }

  lemma UpstreamParameter(src: map<Name, Info>, run: Run, rank: map<Name, nat>, n: Name,
                          ctx: Context, own: Info, r: Name, p: string, field: Field)
    requires n in src && Sound(src, run, rank) && !field.Inputs? && !field.Outputs?
    requires r in DepNames(own.deps) && r in src && r in ctx.up && p in src[r].parameters
    requires UpstreamSolved(src, run, rank, n, ctx)
    requires Ranked(ctx.up, rank) && Under(ctx.up, rank, own, rank[n])
    ensures RefParamExist(ctx, rank, rank[n], own, r, p, field)
         == Done(ValueMeaning(src, run, rank, r, src[r].parameters[p]))
  {
    var v := ValueMeaning(src, run, rank, r, src[r].parameters[p]);
    SettledParameter(src, run, rank, r, p);
    assert Meant(src, run, rank, r, ctx.up[r]) && ctx.up[r].parameters[p] == v;
    if v.Text? {
      UndoubledResolves(ctx, rank, rank[r], ctx.up[r], v.text, field);
    }
    assert CheckValue(ctx, rank, rank[r], ctx.up[r], v, field) == Done(v);
  }

  lemma {:induction false} RowsReplaced(ctx: Context, rank: map<Name, nat>, k: nat, own: Info, rows: seq<Match>,
                                        result: string, field: Field, vals: map<Match, string>)
    requires Ranked(ctx.up, rank) && Under(ctx.up, rank, own, k) && ctx.replace
    requires forall m | m in rows :: IsMatch(m) && m.raw != "" && m in vals
    requires forall m | m in rows :: Lookup(ctx, rank, k, own, m.inner, field) == Done(vals[m])
    ensures ResolveRows(ctx, rank, k, own, rows, result, field) == Done(ReplaceRows(result, rows, vals))
    decreases |rows|
  {
    if rows != [] {
      assert rows[0] in rows;
      RowsReplaced(ctx, rank, k, own, rows[1..], ReplaceAll(result, rows[0].raw, vals[rows[0]]), field, vals);
    }
  }

  lemma {:induction false} SubstIsMeaning(src: map<Name, Info>, run: Run, rank: map<Name, nat>, n: Name,
                                          ps: seq<Piece>, field: Field, vals: map<Match, string>)
    requires n in src && Ranked(src, rank)
    requires forall m | m in Refs(ps) :: m in vals && vals[m] == RefMeaning(src, run, rank, n, m.inner, field)
    ensures Render(SubstAll(ps, vals)) == Meaning(src, run, rank, n, ps, field)
    decreases |ps|
  {
    if ps != [] {
      assert forall m | m in Refs(ps[1..]) :: m in Refs(ps);
      SubstIsMeaning(src, run, rank, n, ps[1..], field, vals);
      assert ps[0].Ref? ==> Refs(ps)[0] == ps[0].m;
      RenderHead(ps, vals);
    }
  }

  /** Resolving a text of step n, once its upstream steps and the fields it may refer to are solved,
      gives the meaning of the text, if that has no doubled braces. */
  lemma ResolveGivesMeaning(src: map<Name, Info>, run: Run, rank: map<Name, nat>, n: Name,
                            ctx: Context, own: Info, s: string, field: Field)
    requires n in src && Sound(src, run, rank) && TextOk(src, src[n], s, field)
    requires Undoubled(TextMeaning(src, run, rank, n, s, field))
    requires UpstreamSolved(src, run, rank, n, ctx) && OwnSolved(src, run, rank, n, own, field)
    requires Ranked(ctx.up, rank) && Under(ctx.up, rank, own, rank[n])
    ensures Resolve(ctx, rank, rank[n], own, s, field) == Done(TextMeaning(src, run, rank, n, s, field))
  {
    var rows := Refs(Parse(s));
    RefsAreMatches(s);
    var vals := map m | m in rows :: RefMeaning(src, run, rank, n, m.inner, field);
    forall m | m in rows
      ensures Lookup(ctx, rank, rank[n], own, m.inner, field) == Done(vals[m])
    {
      LookupGivesMeaning(src, run, rank, n, ctx, own, m.inner, field);
    }
    SubstIsMeaning(src, run, rank, n, Parse(s), field, vals);
    ReplacingInTurn(s, vals);
    RowsReplaced(ctx, rank, rank[n], own, rows, s, field, vals);
  }
}
