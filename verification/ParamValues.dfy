/** What the records of a created workflow hold, told from the records alone: a reference in the text of a
    step has given way to the value of the run, of the step itself or of the step it names. */
module ParamValues {
  import opened Dependencies
  import opened Templates
  import opened ParamSolver
  import opened ParamMeaning
  import opened ParamSolving

  // ---- a text with one reference ----

  /** Where s is a text around one reference to `inner`, t is that text around v. */
  ghost predicate Says(s: string, t: string, inner: string, v: string) {
    forall pre, m: Match, post | IsMatch(m) && m.inner == inner && Undoubled(pre) && Undoubled(post) &&
                                 s == pre + m.raw + post ::
      t == pre + v + post
  }

  lemma AroundIsTame(pre: string, m: Match, post: string)
    requires IsMatch(m) && Undoubled(pre) && Undoubled(post)
    ensures Tame(Lits(pre) + ([Ref(m)] + Lits(post)))
  {
    var ps := Lits(pre) + ([Ref(m)] + Lits(post));
    forall i | 0 <= i < |ps| - 1
      ensures !(ps[i] == Lit('{') && ps[i + 1] == Lit('{'))
    {
      if i + 1 < |pre| {
        assert ps[i] == Lit(pre[i]) && ps[i + 1] == Lit(pre[i + 1]);
      } else if i > |pre| {
        var j := i - |pre| - 1;
        assert ps[i] == Lit(post[j]) && ps[i + 1] == Lit(post[j + 1]);
      }
    }
  }

  lemma RenderAround(pre: string, m: Match, post: string)
    ensures Render(Lits(pre) + ([Ref(m)] + Lits(post))) == pre + m.raw + post
  {
    RenderLits(pre, [Ref(m)] + Lits(post));
    assert ([Ref(m)] + Lits(post))[1..] == Lits(post);
    RenderLits(post, []);
    assert Lits(post) + [] == Lits(post) && post + "" == post;
  }

  lemma {:induction false} LitsHaveNoRefs(s: string, ps: seq<Piece>)
    ensures Refs(Lits(s) + ps) == Refs(ps)
    decreases |s|
  {
    if s == "" {
      assert Lits(s) + ps == ps;
    } else {
      assert (Lits(s) + ps)[1..] == Lits(s[1..]) + ps;
      LitsHaveNoRefs(s[1..], ps);
    }
  }

  lemma AroundIsParsed(pre: string, m: Match, post: string)
    requires IsMatch(m) && Undoubled(pre) && Undoubled(post)
    ensures Parse(pre + m.raw + post) == Lits(pre) + ([Ref(m)] + Lits(post))
    ensures Refs(Parse(pre + m.raw + post)) == [m]
  {
    AroundIsTame(pre, m, post);
    RenderAround(pre, m, post);
    TameIsParsed(Lits(pre) + ([Ref(m)] + Lits(post)));
    LitsHaveNoRefs(pre, [Ref(m)] + Lits(post));
    assert ([Ref(m)] + Lits(post))[1..] == Lits(post);
    LitsHaveNoRefs(post, []);
    assert Lits(post) + [] == Lits(post);
  }

  lemma SubstAround(pre: string, m: Match, post: string, v: string)
    ensures SubstAll(Lits(pre) + ([Ref(m)] + Lits(post)), map[m := v]) == Lits(pre) + (Lits(v) + Lits(post))
  {
    SubstConcat(Lits(pre), [Ref(m)] + Lits(post), map[m := v]);
    SubstLits(pre, map[m := v]);
    SubstFirst(m, post, v);
  }

  lemma SubstFirst(m: Match, post: string, v: string)
    ensures SubstAll([Ref(m)] + Lits(post), map[m := v]) == Lits(v) + Lits(post)
  {
    assert ([Ref(m)] + Lits(post))[1..] == Lits(post);
    SubstLits(post, map[m := v]);
  }

  lemma RenderThree(a: string, b: string, c: string)
    ensures Render(Lits(a) + (Lits(b) + Lits(c))) == a + b + c
  {
    RenderLits(a, Lits(b) + Lits(c));
    RenderLits(b, Lits(c));
    RenderLits(c, []);
    assert Lits(c) + [] == Lits(c) && c + "" == c;
    assert a + (b + c) == a + b + c;
  }

  lemma AroundIsReplaced(pre: string, m: Match, post: string, v: string)
    requires IsMatch(m) && Undoubled(pre) && Undoubled(post)
    ensures ReplaceAll(pre + m.raw + post, m.raw, v) == pre + v + post
  {
    AroundIsParsed(pre, m, post);
    ReplaceIsSubst(pre + m.raw + post, m, v);
    SubstAround(pre, m, post, v);
    RenderThree(pre, v, post);
  }

  lemma ResolvedAround(ctx: Context, rank: map<Name, nat>, k: nat, own: Info, pre: string, m: Match, post: string,
                       field: Field)
    requires Ranked(ctx.up, rank) && Under(ctx.up, rank, own, k) && ctx.replace
    requires IsMatch(m) && Undoubled(pre) && Undoubled(post)
    ensures var found, r := Lookup(ctx, rank, k, own, m.inner, field),
                            Resolve(ctx, rank, k, own, pre + m.raw + post, field);
            && (r.Done? <==> found.Done?)
            && (r.Done? ==> r.value == pre + found.value + post)
  {
    AroundIsParsed(pre, m, post);
    OneRow(ctx, rank, k, own, m, pre + m.raw + post, field);
    var found := Lookup(ctx, rank, k, own, m.inner, field);
    if found.Done? {
      AroundIsReplaced(pre, m, post, found.value);
    }
  }

  lemma OneRow(ctx: Context, rank: map<Name, nat>, k: nat, own: Info, m: Match, s: string, field: Field)
    requires Ranked(ctx.up, rank) && Under(ctx.up, rank, own, k) && ctx.replace && IsMatch(m) && Refs(Parse(s)) == [m]
    ensures m.raw != ""
    ensures var found := Lookup(ctx, rank, k, own, m.inner, field);
            Resolve(ctx, rank, k, own, s, field) ==
              match found
              case Done(v) => Done(ReplaceAll(s, m.raw, v))
              case Error => Error
              case NilDeref => NilDeref
  {
    var rows := [m];
    assert rows[1..] == [];
    RefsAreMatches(s);
    assert Resolve(ctx, rank, k, own, s, field) == ResolveRows(ctx, rank, k, own, rows, s, field);
  }

  lemma ResolvedSays(ctx: Context, rank: map<Name, nat>, k: nat, own: Info, s: string, t: string, field: Field,
                     inner: string, v: string)
    requires Ranked(ctx.up, rank) && Under(ctx.up, rank, own, k) && ctx.replace
    requires Resolve(ctx, rank, k, own, s, field) == Done(t)
    requires var found := Lookup(ctx, rank, k, own, inner, field); found.Done? ==> found.value == v
    ensures Says(s, t, inner, v)
  {
    forall pre, m: Match, post | IsMatch(m) && m.inner == inner && Undoubled(pre) && Undoubled(post) &&
                                 s == pre + m.raw + post
      ensures t == pre + v + post
    {
      ResolvedAround(ctx, rank, k, own, pre, m, post, field);
    }
  }

  // ---- what a reference holds ----

  /** The five values of the run, and text without a reference. */
  ghost predicate SystemSays(run: Run, n: Name, s: string, t: string) {
    && Says(s, t, "PF_RUN_ID", run.runId)
    && Says(s, t, "PF_FS_ID", run.fsId)
    && Says(s, t, "PF_STEP_NAME", n)
    && Says(s, t, "PF_FS_NAME", run.fsName)
    && Says(s, t, "PF_USER_NAME", run.userName)
    && (Undoubled(s) ==> t == s)
  }

  predicate OwnName(w: string) {
    '.' !in w && w !in ["PF_RUN_ID", "PF_FS_ID", "PF_STEP_NAME", "PF_FS_NAME", "PF_USER_NAME"]
  }

  /** The solved parameters of the step itself. */
  ghost predicate ParametersSay(info: Info, s: string, t: string) {
    forall w | OwnName(w) && w in info.parameters :: Says(s, t, w, Show(info.parameters[w]))
  }

  /** Its solved artifacts: inputs before outputs, and parameters before both. */
  ghost predicate ArtifactsSay(info: Info, s: string, t: string) {
    && (forall w | OwnName(w) && w !in info.parameters && w in info.inputs :: Says(s, t, w, info.inputs[w]))
    && (forall w | OwnName(w) && w !in info.parameters && w !in info.inputs && w in info.outputs ::
          Says(s, t, w, info.outputs[w]))
  }

  /** The solved output artifacts of the steps it depends on. */
  ghost predicate OutputsSay(up: map<Name, Info>, deps: seq<Name>, s: string, t: string) {
    forall r, p | r in deps && r in up && r != "" && '.' !in r && '.' !in p && p in up[r].outputs &&
                  Undoubled(up[r].outputs[p]) ::
      Says(s, t, r + "." + p, up[r].outputs[p])
  }

  /** A value that reads as itself. */
  predicate Settles(v: Value) { !v.Dict? && (v.Text? ==> Undoubled(v.text)) }

  /** Their solved parameters. */
  ghost predicate UpstreamSay(up: map<Name, Info>, deps: seq<Name>, s: string, t: string) {
    forall r, p | r in deps && r in up && r != "" && '.' !in r && '.' !in p && p in up[r].parameters &&
                  Settles(up[r].parameters[p]) ::
      Says(s, t, r + "." + p, Show(up[r].parameters[p]))
  }

  ghost predicate ValueHolds(up: map<Name, Info>, own: Info, run: Run, n: Name, v: Value, w: Value) {
    match v
    case Text(s) => w.Text? && SystemSays(run, n, s, w.text) && UpstreamSay(up, DepNames(own.deps), s, w.text)
    case Number(_, _) => w == v
    case Dict(_, preset, _) => w == preset
    case Other(_) => false
  }

  /** `info` is what the step `own` named n has become after the steps in `up`. */
  ghost predicate Holds(up: map<Name, Info>, own: Info, info: Info, run: Run, n: Name) {
    && info.deps == own.deps && info.parameters.Keys == own.parameters.Keys && info.inputs.Keys == own.inputs.Keys
    && info.outputs.Keys == own.outputs.Keys && info.env.Keys == own.env.Keys
    && (forall a | a in own.parameters :: ValueHolds(up, own, run, n, own.parameters[a], info.parameters[a]))
    && (forall a | a in own.inputs :: InputHolds(up, own, info, run, n, own.inputs[a], info.inputs[a]))
    && (forall a | a in own.outputs :: OutputHolds(info, run, n, own.outputs[a], info.outputs[a]))
    && (forall a | a in own.env :: EnvHolds(up, own, info, run, n, own.env[a], info.env[a]))
    && EnvHolds(up, own, info, run, n, own.command, info.command) && ArtifactsSay(info, own.command, info.command)
  }

  ghost predicate InputHolds(up: map<Name, Info>, own: Info, info: Info, run: Run, n: Name, s: string, t: string) {
    SystemSays(run, n, s, t) && ParametersSay(info, s, t) && OutputsSay(up, DepNames(own.deps), s, t)
  }

  ghost predicate OutputHolds(info: Info, run: Run, n: Name, s: string, t: string) {
    SystemSays(run, n, s, t) && ParametersSay(info, s, t)
  }

  ghost predicate EnvHolds(up: map<Name, Info>, own: Info, info: Info, run: Run, n: Name, s: string, t: string) {
    SystemSays(run, n, s, t) && ParametersSay(info, s, t) && UpstreamSay(up, DepNames(own.deps), s, t)
  }

  // ---- solving makes it so ----

  lemma WordIsOwn(w: string)
    requires '.' !in w
    ensures ParseParamName(w) == ("", w)
  {
    SplitLastWord(w, '.');
  }

  lemma DotIsUpstream(r: Name, p: string)
    requires '.' !in r && '.' !in p
    ensures ParseParamName(r + "." + p) == (r, p)
  {
    SplitWord(r, p, '.');
    SplitLastWord(p, '.');
  }

  lemma SystemLookup(ctx: Context, rank: map<Name, nat>, k: nat, own: Info, name: string, field: Field)
    requires Ranked(ctx.up, rank) && Under(ctx.up, rank, own, k) && name in ctx.sys && '.' !in name
    ensures Lookup(ctx, rank, k, own, name, field) == Done(ctx.sys[name])
  {
    WordIsOwn(name);
  }

  lemma ResolvedSystem(ctx: Context, rank: map<Name, nat>, k: nat, own: Info, s: string, t: string, field: Field,
                       run: Run, n: Name)
    requires Ranked(ctx.up, rank) && Under(ctx.up, rank, own, k) && ctx.replace && ctx.sys == SysParams(run, n)
    requires Resolve(ctx, rank, k, own, s, field) == Done(t)
    ensures SystemSays(run, n, s, t)
  {
    SystemSaysOne(ctx, rank, k, own, s, t, field, "PF_RUN_ID");
    SystemSaysOne(ctx, rank, k, own, s, t, field, "PF_FS_ID");
    SystemSaysOne(ctx, rank, k, own, s, t, field, "PF_STEP_NAME");
    SystemSaysOne(ctx, rank, k, own, s, t, field, "PF_FS_NAME");
    SystemSaysOne(ctx, rank, k, own, s, t, field, "PF_USER_NAME");
    if Undoubled(s) {
      UndoubledResolves(ctx, rank, k, own, s, field);
    }
  }

  lemma SystemSaysOne(ctx: Context, rank: map<Name, nat>, k: nat, own: Info, s: string, t: string, field: Field,
                      name: string)
    requires Ranked(ctx.up, rank) && Under(ctx.up, rank, own, k) && ctx.replace && name in ctx.sys && '.' !in name
    requires Resolve(ctx, rank, k, own, s, field) == Done(t)
    ensures Says(s, t, name, ctx.sys[name])
  {
    SystemLookup(ctx, rank, k, own, name, field);
    ResolvedSays(ctx, rank, k, own, s, t, field, name, ctx.sys[name]);
  }

  lemma ResolvedParameters(ctx: Context, rank: map<Name, nat>, k: nat, own: Info, s: string, t: string, field: Field)
    requires Ranked(ctx.up, rank) && Under(ctx.up, rank, own, k) && ctx.replace && ctx.sys.Keys == SYS_NAMES
    requires Resolve(ctx, rank, k, own, s, field) == Done(t) && !field.Parameters?
    ensures ParametersSay(own, s, t)
  {
    forall w | OwnName(w) && w in own.parameters
      ensures Says(s, t, w, Show(own.parameters[w]))
    {
      WordIsOwn(w);
      ResolvedSays(ctx, rank, k, own, s, t, field, w, Show(own.parameters[w]));
    }
  }

  lemma ResolvedArtifacts(ctx: Context, rank: map<Name, nat>, k: nat, own: Info, s: string, t: string)
    requires Ranked(ctx.up, rank) && Under(ctx.up, rank, own, k) && ctx.replace && ctx.sys.Keys == SYS_NAMES
    requires Resolve(ctx, rank, k, own, s, Command) == Done(t)
    ensures ArtifactsSay(own, s, t)
  {
    forall w | OwnName(w) && w !in own.parameters && w in own.inputs
      ensures Says(s, t, w, own.inputs[w])
    {
      WordIsOwn(w);
      ResolvedSays(ctx, rank, k, own, s, t, Command, w, own.inputs[w]);
    }
    forall w | OwnName(w) && w !in own.parameters && w !in own.inputs && w in own.outputs
      ensures Says(s, t, w, own.outputs[w])
    {
      WordIsOwn(w);
      ResolvedSays(ctx, rank, k, own, s, t, Command, w, own.outputs[w]);
    }
  }

  lemma OutputLookup(ctx: Context, rank: map<Name, nat>, k: nat, own: Info, r: Name, p: string)
    requires Ranked(ctx.up, rank) && Under(ctx.up, rank, own, k)
    requires r in DepNames(own.deps) && r in ctx.up && p in ctx.up[r].outputs && Undoubled(ctx.up[r].outputs[p])
    ensures RefParamExist(ctx, rank, k, own, r, p, Inputs) == Done(Text(ctx.up[r].outputs[p]))
  {
    UndoubledResolves(ctx, rank, rank[r], ctx.up[r], ctx.up[r].outputs[p], Inputs);
    assert CheckValue(ctx, rank, rank[r], ctx.up[r], Text(ctx.up[r].outputs[p]), Inputs)
        == Done(Text(ctx.up[r].outputs[p]));
  }

  lemma ParameterLookup(ctx: Context, rank: map<Name, nat>, k: nat, own: Info, r: Name, p: string, field: Field)
    requires Ranked(ctx.up, rank) && Under(ctx.up, rank, own, k) && !field.Inputs? && !field.Outputs?
    requires r in DepNames(own.deps) && r in ctx.up && p in ctx.up[r].parameters && Settles(ctx.up[r].parameters[p])
    ensures var found := RefParamExist(ctx, rank, k, own, r, p, field);
            found.Done? ==> found.value == ctx.up[r].parameters[p]
  {
    var v := ctx.up[r].parameters[p];
    if v.Text? {
      UndoubledResolves(ctx, rank, rank[r], ctx.up[r], v.text, field);
    }
    assert var c := CheckValue(ctx, rank, rank[r], ctx.up[r], v, field); c.Done? ==> c.value == v;
  }

  lemma ResolvedOutputs(ctx: Context, rank: map<Name, nat>, k: nat, own: Info, s: string, t: string)
    requires Ranked(ctx.up, rank) && Under(ctx.up, rank, own, k) && ctx.replace
    requires Resolve(ctx, rank, k, own, s, Inputs) == Done(t)
    ensures OutputsSay(ctx.up, DepNames(own.deps), s, t)
  {
    forall r, p | r in DepNames(own.deps) && r in ctx.up && r != "" && '.' !in r && '.' !in p
                  && p in ctx.up[r].outputs && Undoubled(ctx.up[r].outputs[p])
      ensures Says(s, t, r + "." + p, ctx.up[r].outputs[p])
    {
      DotIsUpstream(r, p);
      OutputLookup(ctx, rank, k, own, r, p);
      ResolvedSays(ctx, rank, k, own, s, t, Inputs, r + "." + p, ctx.up[r].outputs[p]);
    }
  }

  lemma ResolvedUpstream(ctx: Context, rank: map<Name, nat>, k: nat, own: Info, s: string, t: string, field: Field)
    requires Ranked(ctx.up, rank) && Under(ctx.up, rank, own, k) && ctx.replace && !field.Inputs? && !field.Outputs?
    requires Resolve(ctx, rank, k, own, s, field) == Done(t)
    ensures UpstreamSay(ctx.up, DepNames(own.deps), s, t)
  {
    forall r, p | r in DepNames(own.deps) && r in ctx.up && r != "" && '.' !in r && '.' !in p
                  && p in ctx.up[r].parameters && Settles(ctx.up[r].parameters[p])
      ensures Says(s, t, r + "." + p, Show(ctx.up[r].parameters[p]))
    {
      DotIsUpstream(r, p);
      ParameterLookup(ctx, rank, k, own, r, p, field);
      ResolvedSays(ctx, rank, k, own, s, t, field, r + "." + p, Show(ctx.up[r].parameters[p]));
    }
  }

  lemma CheckedHolds(ctx: Context, rank: map<Name, nat>, k: nat, own: Info, run: Run, n: Name, v: Value)
    requires Ranked(ctx.up, rank) && Under(ctx.up, rank, own, k) && ctx.replace && ctx.sys == SysParams(run, n)
    requires CheckValue(ctx, rank, k, own, v, Parameters).Done?
    ensures ValueHolds(ctx.up, own, run, n, v, CheckValue(ctx, rank, k, own, v, Parameters).value)
  {
    if v.Text? {
      var t := Resolve(ctx, rank, k, own, v.text, Parameters).value;
      ResolvedSystem(ctx, rank, k, own, v.text, t, Parameters, run, n);
      ResolvedUpstream(ctx, rank, k, own, v.text, t, Parameters);
    }
  }

  /** The maps of texts and the command, once the parameters are solved. */
  lemma TextHolds(ctx: Context, rank: map<Name, nat>, k: nat, own: Info, run: Run, n: Name, s: string, t: string,
                  field: Field)
    requires Ranked(ctx.up, rank) && Under(ctx.up, rank, own, k) && ctx.replace && ctx.sys == SysParams(run, n)
    requires Resolve(ctx, rank, k, own, s, field) == Done(t) && !field.Parameters?
    ensures SystemSays(run, n, s, t) && ParametersSay(own, s, t)
    ensures field.Inputs? ==> OutputsSay(ctx.up, DepNames(own.deps), s, t)
    ensures field.Env? || field.Command? ==> UpstreamSay(ctx.up, DepNames(own.deps), s, t)
    ensures field.Command? ==> ArtifactsSay(own, s, t)
  {
    ResolvedSystem(ctx, rank, k, own, s, t, field, run, n);
    ResolvedParameters(ctx, rank, k, own, s, t, field);
    if field.Inputs? {
      ResolvedOutputs(ctx, rank, k, own, s, t);
    } else if !field.Outputs? {
      ResolvedUpstream(ctx, rank, k, own, s, t, field);
      if field.Command? {
        ResolvedArtifacts(ctx, rank, k, own, s, t);
      }
    }
  }

  /** `own` is the step `base` with its parameters solved. */
  lemma MapsHold(ctx: Context, rank: map<Name, nat>, k: nat, own: Info, base: Info, run: Run, n: Name, info: Info)
    requires Ranked(ctx.up, rank) && Under(ctx.up, rank, own, k) && ctx.replace && ctx.sys == SysParams(run, n)
    requires MapsSolvable(ctx, rank, k, own) && base == own.(parameters := base.parameters)
    requires info == MapsDone(ctx, rank, k, own).(command := info.command)
    ensures forall a | a in base.inputs :: InputHolds(ctx.up, base, info, run, n, base.inputs[a], info.inputs[a])
    ensures forall a | a in base.outputs :: OutputHolds(info, run, n, base.outputs[a], info.outputs[a])
    ensures forall a | a in base.env :: EnvHolds(ctx.up, base, info, run, n, base.env[a], info.env[a])
  {
    forall a | a in base.inputs
      ensures InputHolds(ctx.up, base, info, run, n, base.inputs[a], info.inputs[a])
    {
      TextHolds(ctx, rank, k, own, run, n, own.inputs[a], info.inputs[a], Inputs);
    }
    forall a | a in base.outputs
      ensures OutputHolds(info, run, n, base.outputs[a], info.outputs[a])
    {
      TextHolds(ctx, rank, k, own, run, n, own.outputs[a], info.outputs[a], Outputs);
    }
    forall a | a in base.env
      ensures EnvHolds(ctx.up, base, info, run, n, base.env[a], info.env[a])
    {
      TextHolds(ctx, rank, k, own, run, n, own.env[a], info.env[a], Env);
    }
  }

  lemma ParamsHold(ctx: Context, rank: map<Name, nat>, k: nat, own: Info, run: Run, n: Name)
    requires Ranked(ctx.up, rank) && Under(ctx.up, rank, own, k) && ctx.replace && ctx.sys == SysParams(run, n)
    requires ParamsSolvable(ctx, rank, k, own, own.parameters)
    ensures forall a | a in own.parameters ::
              ValueHolds(ctx.up, own, run, n, own.parameters[a], ParamsDone(ctx, rank, k, own).parameters[a])
  {
    forall a | a in own.parameters
      ensures ValueHolds(ctx.up, own, run, n, own.parameters[a], ParamsDone(ctx, rank, k, own).parameters[a])
    {
      CheckedHolds(ctx, rank, k, own, run, n, own.parameters[a]);
    }
  }

  lemma CommandHolds(ctx: Context, rank: map<Name, nat>, k: nat, own: Info, base: Info, run: Run, n: Name, info: Info)
    requires Ranked(ctx.up, rank) && Under(ctx.up, rank, own, k) && ctx.replace && ctx.sys == SysParams(run, n)
    requires Resolve(ctx, rank, k, own, base.command, Command) == Done(info.command)
    requires own == info.(command := base.command) && own.deps == base.deps
    ensures EnvHolds(ctx.up, base, info, run, n, base.command, info.command)
    ensures ArtifactsSay(info, base.command, info.command)
  {
    TextHolds(ctx, rank, k, own, run, n, base.command, info.command, Command);
  }

  /** A step that was solved in a run holds the values its references stand for. */
  lemma SolvedHolds(ctx: Context, rank: map<Name, nat>, k: nat, own: Info, run: Run, n: Name, info: Info)
    requires Ranked(ctx.up, rank) && Under(ctx.up, rank, own, k) && ctx.replace && ctx.sys == SysParams(run, n)
    requires StepOutcome(ctx, rank, k, own) == Done(info)
    ensures Holds(ctx.up, own, info, run, n)
  {
    var withParams := ParamsDone(ctx, rank, k, own);
    var withMaps := MapsDone(ctx, rank, k, withParams);
    assert info == withMaps.(command := info.command);
    ParamsHold(ctx, rank, k, own, run, n);
    MapsHold(ctx, rank, k, withParams, own, run, n, info);
    CommandHolds(ctx, rank, k, withMaps, own, run, n, info);
  }

  /** It is enough to look at the steps it depends on. */
  lemma HoldsAmong(up: map<Name, Info>, st: map<Name, Info>, own: Info, info: Info, run: Run, n: Name)
    requires Holds(up, own, info, run, n)
    requires forall r | r in DepNames(own.deps) && r in st :: r in up && up[r] == st[r]
    ensures Holds(st, own, info, run, n)
  {
    forall s, t | UpstreamSay(up, DepNames(own.deps), s, t)
      ensures UpstreamSay(st, DepNames(own.deps), s, t)
    {
    }
    forall s, t | OutputsSay(up, DepNames(own.deps), s, t)
      ensures OutputsSay(st, DepNames(own.deps), s, t)
    {
    }
    forall a | a in own.parameters
      ensures ValueHolds(st, own, run, n, own.parameters[a], info.parameters[a])
    {
      assert ValueHolds(up, own, run, n, own.parameters[a], info.parameters[a]);
    }
    forall a | a in own.inputs
      ensures InputHolds(st, own, info, run, n, own.inputs[a], info.inputs[a])
    {
      assert InputHolds(up, own, info, run, n, own.inputs[a], info.inputs[a]);
    }
    forall a | a in own.env
      ensures EnvHolds(st, own, info, run, n, own.env[a], info.env[a])
    {
      assert EnvHolds(up, own, info, run, n, own.env[a], info.env[a]);
    }
  }

  lemma SystemReference(name: string)
    requires name in SYS_NAMES
    ensures IsMatch(RefTo(name)) && RefTo(name).inner == name
  {
    RefToMatches(name);
  }

  /** For instance `echo {{PF_RUN_ID}}`: what any text around a reference to a system value becomes. */
  lemma SystemValuesArePutIn(run: Run, n: Name, s: string, t: string, pre: string, post: string)
    requires SystemSays(run, n, s, t) && Undoubled(pre) && Undoubled(post)
    ensures s == pre + ("{{" + "PF_RUN_ID" + "}}") + post ==> t == pre + run.runId + post
    ensures s == pre + ("{{" + "PF_FS_ID" + "}}") + post ==> t == pre + run.fsId + post
    ensures s == pre + ("{{" + "PF_STEP_NAME" + "}}") + post ==> t == pre + n + post
    ensures s == pre + ("{{" + "PF_FS_NAME" + "}}") + post ==> t == pre + run.fsName + post
    ensures s == pre + ("{{" + "PF_USER_NAME" + "}}") + post ==> t == pre + run.userName + post
  {
    PutIn(s, t, pre, post, "PF_RUN_ID", run.runId);
    PutIn(s, t, pre, post, "PF_FS_ID", run.fsId);
    PutIn(s, t, pre, post, "PF_STEP_NAME", n);
    PutIn(s, t, pre, post, "PF_FS_NAME", run.fsName);
    PutIn(s, t, pre, post, "PF_USER_NAME", run.userName);
  }

  lemma PutIn(s: string, t: string, pre: string, post: string, name: string, v: string)
    requires name in SYS_NAMES && Says(s, t, name, v) && Undoubled(pre) && Undoubled(post)
    ensures s == pre + ("{{" + name + "}}") + post ==> t == pre + v + post
  {
    SystemReference(name);
  }
}
