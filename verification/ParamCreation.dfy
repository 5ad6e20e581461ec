/** NewWorkflow as a whole: checkSteps first, then the solving of the sorted steps. When does what was
    accepted get created, and as what? */
module ParamCreation {
  import opened Dependencies
  import opened Templates
  import opened ParamSolver
  import opened ParamMeaning
  import opened ParamSolving
  import opened ParamValues
  import opened ParamValidation
  import opened ParamWorkflow

  // ---- defaults and meanings ----

  ghost predicate BothRanked(src: map<Name, Info>, d: map<Name, Info>, rank: map<Name, nat>) {
    Ranked(src, rank) && Ranked(d, rank) && DefaultedBut(src, d, {})
  }

  /** Putting the default in place of a dictionary changes no meaning. */
  lemma {:induction false} DefaultsMean(src: map<Name, Info>, d: map<Name, Info>, run: Run, rank: map<Name, nat>,
                                        n: Name, ps: seq<Piece>, field: Field)
    requires n in src && BothRanked(src, d, rank)
    ensures Meaning(d, run, rank, n, ps, field) == Meaning(src, run, rank, n, ps, field)
    decreases rank[n], Level(field), |ps|
  {
    if ps != [] {
      DefaultsMean(src, d, run, rank, n, ps[1..], field);
      if ps[0].Ref? {
        RefDefaultsMean(src, d, run, rank, n, ps[0].m.inner, field);
      }
    }
  }

  lemma {:induction false} TextDefaultsMean(src: map<Name, Info>, d: map<Name, Info>, run: Run, rank: map<Name, nat>,
                                            n: Name, s: string, field: Field)
    requires n in src && BothRanked(src, d, rank)
    ensures TextMeaning(d, run, rank, n, s, field) == TextMeaning(src, run, rank, n, s, field)
    decreases rank[n], Level(field), |Parse(s)| + 1
  {
    DefaultsMean(src, d, run, rank, n, Parse(s), field);
  }

  lemma {:induction false} ParamDefaultsMean(src: map<Name, Info>, d: map<Name, Info>, run: Run,
                                             rank: map<Name, nat>, n: Name, p: string)
    requires n in src && BothRanked(src, d, rank)
    requires p in src[n].parameters
    ensures ValueMeaning(d, run, rank, n, Defaulted(src[n]).parameters[p])
         == ValueMeaning(src, run, rank, n, src[n].parameters[p])
    decreases rank[n], 0, ReadingSize(src[n].parameters[p])
  {
    var v := src[n].parameters[p];
    if v.Text? {
      TextDefaultsMean(src, d, run, rank, n, v.text, Parameters);
    } else if v.Dict? && v.preset.Text? {
      TextDefaultsMean(src, d, run, rank, n, v.preset.text, Parameters);
    }
  }

  lemma {:induction false} RefDefaultsMean(src: map<Name, Info>, d: map<Name, Info>, run: Run, rank: map<Name, nat>,
                                           n: Name, inner: string, field: Field)
    requires n in src && BothRanked(src, d, rank)
    ensures RefMeaning(d, run, rank, n, inner, field) == RefMeaning(src, run, rank, n, inner, field)
    decreases rank[n], Level(field), 0, 1
  {
    var (r, p) := ParseParamName(inner);
    if r == "" {
      OwnDefaultsMean(src, d, run, rank, n, p, field);
    } else if r in DepNames(src[n].deps) && r in src {
      if field.Inputs? && p in src[r].outputs {
        TextDefaultsMean(src, d, run, rank, r, src[r].outputs[p], Outputs);
      } else if !field.Inputs? && p in src[r].parameters {
        ParamDefaultsMean(src, d, run, rank, r, p);
      }
    }
  }

  lemma {:induction false} OwnDefaultsMean(src: map<Name, Info>, d: map<Name, Info>, run: Run, rank: map<Name, nat>,
                                           n: Name, p: string, field: Field)
    requires n in src && BothRanked(src, d, rank)
    ensures OwnMeaning(d, run, rank, n, p, field) == OwnMeaning(src, run, rank, n, p, field)
    decreases rank[n], Level(field), 0, 0
  {
    assert d[n] == Defaulted(src[n]);
    if p in SYS_NAMES {
    } else if !field.Parameters? && p in src[n].parameters {
      ParamDefaultsMean(src, d, run, rank, n, p);
    } else if field.Command? && p in src[n].inputs {
      TextDefaultsMean(src, d, run, rank, n, src[n].inputs[p], Inputs);
    } else if field.Command? && p in src[n].outputs {
      TextDefaultsMean(src, d, run, rank, n, src[n].outputs[p], Outputs);
    }
  }

  lemma ParamsDefaultsMean(src: map<Name, Info>, d: map<Name, Info>, run: Run, rank: map<Name, nat>, n: Name)
    requires n in src && BothRanked(src, d, rank)
    ensures ParamsMeaning(d, run, rank, n) == ParamsMeaning(src, run, rank, n)
  {
    var was, now := ParamsMeaning(src, run, rank, n), ParamsMeaning(d, run, rank, n);
    assert d[n] == Defaulted(src[n]);
    forall a | a in src[n].parameters
      ensures now[a] == was[a]
    {
      ParamDefaultsMean(src, d, run, rank, n, a);
    }
    SameMap(now, was);
  }

  lemma TextsDefaultsMean(src: map<Name, Info>, d: map<Name, Info>, run: Run, rank: map<Name, nat>, n: Name,
                          m: map<string, string>, field: Field)
    requires n in src && BothRanked(src, d, rank)
    ensures TextsMeaning(d, run, rank, n, m, field) == TextsMeaning(src, run, rank, n, m, field)
  {
    var was, now := TextsMeaning(src, run, rank, n, m, field), TextsMeaning(d, run, rank, n, m, field);
    forall a | a in m
      ensures now[a] == was[a]
    {
      TextDefaultsMean(src, d, run, rank, n, m[a], field);
    }
    SameMap(now, was);
  }

  lemma DefaultsAreMeant(src: map<Name, Info>, d: map<Name, Info>, run: Run, rank: map<Name, nat>, n: Name, info: Info)
    requires n in src && BothRanked(src, d, rank) && Meant(d, run, rank, n, info)
    ensures Meant(src, run, rank, n, info)
  {
    assert d[n] == Defaulted(src[n]);
    ParamsDefaultsMean(src, d, run, rank, n);
    TextsDefaultsMean(src, d, run, rank, n, src[n].outputs, Outputs);
    TextsDefaultsMean(src, d, run, rank, n, src[n].inputs, Inputs);
    MeantTexts(src, d, run, rank, n, src[n].inputs, Inputs, info.inputs);
    MeantTexts(src, d, run, rank, n, src[n].env, Env, info.env);
    TextDefaultsMean(src, d, run, rank, n, src[n].command, Command);
  }

  lemma MeantTexts(src: map<Name, Info>, d: map<Name, Info>, run: Run, rank: map<Name, nat>, n: Name,
                   m: map<string, string>, field: Field, solved: map<string, string>)
    requires n in src && BothRanked(src, d, rank) && TextsMeant(d, run, rank, n, m, field, solved)
    ensures TextsMeant(src, run, rank, n, m, field, solved)
  {
    forall a | a in m && Undoubled(TextMeaning(src, run, rank, n, m[a], field))
      ensures solved[a] == TextMeaning(src, run, rank, n, m[a], field)
    {
      TextDefaultsMean(src, d, run, rank, n, m[a], field);
    }
  }

  lemma DefaultsAreSettled(src: map<Name, Info>, d: map<Name, Info>, run: Run, rank: map<Name, nat>, n: Name)
    requires n in src && BothRanked(src, d, rank) && SettledStep(src, run, rank, n)
    ensures SettledStep(d, run, rank, n)
  {
    assert d[n] == Defaulted(src[n]);
    TextsDefaultsMean(src, d, run, rank, n, src[n].outputs, Outputs);
    forall p | p in d[n].parameters
      ensures var v := ValueMeaning(d, run, rank, n, d[n].parameters[p]); v.Text? ==> Undoubled(v.text)
    {
      ParamDefaultsMean(src, d, run, rank, n, p);
    }
  }

  lemma DefaultedHasNoDicts(up: map<Name, Info>, own: Info)
    requires WellReferenced(up, own)
    ensures NoDicts(Defaulted(own))
  {
    forall p | p in own.parameters
      ensures !Defaulted(own).parameters[p].Dict?
    {
      assert ValueOk(up, own, own.parameters[p], Parameters);
    }
  }

  lemma AllDefaultedIs(src: map<Name, Info>, rank: map<Name, nat>)
    requires Ranked(src, rank)
    ensures BothRanked(src, AllDefaulted(src), rank)
    ensures forall n | n in src :: SameKeys(src[n], AllDefaulted(src)[n]) && SameKeys(AllDefaulted(src)[n], src[n])
  {
    forall n | n in src
      ensures SameKeys(src[n], Defaulted(src[n]))
    {
      DefaultedKeys(src[n]);
    }
    RankedByDeps(src, AllDefaulted(src), rank);
  }

  /** Every step with its defaults in place is in order exactly if all of them would pass as parameters. */
  lemma AllDefaultedOkIff(src: map<Name, Info>, rank: map<Name, nat>)
    requires Ranked(src, rank) && AllWellReferenced(src)
    ensures AllWellReferenced(AllDefaulted(src)) <==> AllPresetsOk(src)
  {
    var d := AllDefaulted(src);
    AllDefaultedIs(src, rank);
    forall n | n in src
      ensures WellReferenced(d, d[n]) <==> PresetsOk(src, src[n])
    {
      assert WellReferenced(src, src[n]);
      DefaultsStayOkIff(src, src[n]);
      if WellReferenced(src, Defaulted(src[n])) {
        WellReferencedMoves(src, d, Defaulted(src[n]));
      }
      if WellReferenced(d, Defaulted(src[n])) {
        WellReferencedMoves(d, src, Defaulted(src[n]));
      }
    }
  }

  lemma DefaultsAreSound(src: map<Name, Info>, run: Run, rank: map<Name, nat>)
    requires Ranked(src, rank) && AllWellReferenced(src) && AllPresetsOk(src) && Settled(src, run, rank)
    ensures Sound(AllDefaulted(src), run, rank)
  {
    var d := AllDefaulted(src);
    AllDefaultedIs(src, rank);
    AllDefaultedOkIff(src, rank);
    forall n | n in d
      ensures SettledStep(d, run, rank, n) && NoDicts(d[n])
    {
      assert WellReferenced(src, src[n]) && SettledStep(src, run, rank, n);
      DefaultsAreSettled(src, d, run, rank, n);
      DefaultedHasNoDicts(src, src[n]);
    }
  }

  // ---- validation and creation ----

  lemma DefaultedInOrder(src: map<Name, Info>, order: seq<Name>)
    requires InOrder(src, order)
    ensures InOrder(AllDefaulted(src), order)
  {
  }

  /** What validation and creation promise together.
      - Exactly: what was accepted is created if and only if the references of each step resolve in what
        solving has made of the steps before it.
      - If doubled braces arise in no parameter and no output artifact, then what was accepted is created
        if and only if each default would have passed as a parameter; without defaults that hold
        references, always.
      - What is created holds, for every reference of the original steps with their defaults in place, the
        value it stands for among the created steps; and the meanings of the original texts. */
  method ValidateAndCreate(source: Source, order: seq<Name>, run: Run)
      returns (checked: Outcome<()>, created: Outcome<()>)
    requires InOrder(source.infos, order)
    modifies source
    ensures Ranked(old(source.infos), RankOf(order))
    ensures checked.Done? ==> AllWellReferenced(old(source.infos))
    ensures AllWellReferenced(old(source.infos)) && AllPresetsOk(old(source.infos)) ==> checked.Done?
    ensures created.Done? ==> checked.Done? && AllPresetsOk(old(source.infos))
    ensures checked.Done? ==>
              (created.Done? <==>
               forall i: nat | i < |order| :: ResolvesAt(AllDefaulted(old(source.infos)), source.infos, order, i))
    ensures checked.Done? && Settled(old(source.infos), run, RankOf(order)) ==>
              (created.Done? <==> AllPresetsOk(old(source.infos)))
    ensures created.Done? ==> AllHold(AllDefaulted(old(source.infos)), source.infos, run)
    ensures created.Done? && Settled(old(source.infos), run, RankOf(order)) ==>
              forall n | n in old(source.infos) ::
                n in source.infos && Meant(old(source.infos), run, RankOf(order), n, source.infos[n])
  {
    ghost var src, rank := source.infos, RankOf(order);
    OrderRanks(src, order);
    created := Error;
    checked := CheckSteps(source, rank);
    if checked.Done? {
      DefaultedInOrder(src, order);
      created := NewSteps(source, order, run);
      AllDefaultedOkIff(src, rank);
      if AllPresetsOk(src) && Settled(src, run, rank) {
        DefaultsAreSound(src, run, rank);
        AllAreMeant(src, run, rank, source.infos);
      }
    }
  }

  lemma AllAreMeant(src: map<Name, Info>, run: Run, rank: map<Name, nat>, st: map<Name, Info>)
    requires Ranked(src, rank) && Ranked(AllDefaulted(src), rank)
    requires forall n | n in src :: n in st && Meant(AllDefaulted(src), run, rank, n, st[n])
    ensures forall n | n in src :: Meant(src, run, rank, n, st[n])
  {
    AllDefaultedIs(src, rank);
    forall n | n in src
      ensures Meant(src, run, rank, n, st[n])
    {
      DefaultsAreMeant(src, AllDefaulted(src), run, rank, n, st[n]);
    }
  }

  // ---- when no doubled braces arise ----

  predicate NoBrace(s: string) { '{' !in s }

  predicate BraceFree(s: string) { forall p | p in Parse(s) && p.Lit? :: p.c != '{' }

  predicate BraceFreeValue(v: Value) {
    match v
    case Text(s) => BraceFree(s)
    case Dict(_, preset, shown) => BraceFreeValue(preset) && NoBrace(shown)
    case Number(_, shown) => NoBrace(shown)
    case Other(shown) => NoBrace(shown)
  }

  /** A condition that can be read off the workflow: no opening brace outside references in parameters
      and output artifacts, and none in the system values and step names. Inputs, environment and
      commands may hold any. */
  predicate BraceFreeReads(src: map<Name, Info>, run: Run) {
    && NoBrace(run.runId) && NoBrace(run.fsId) && NoBrace(run.fsName) && NoBrace(run.userName)
    && forall n | n in src ::
         && NoBrace(n)
         && (forall p | p in src[n].parameters :: BraceFreeValue(src[n].parameters[p]))
         && (forall a | a in src[n].outputs :: BraceFree(src[n].outputs[a]))
  }

  lemma {:induction false} BraceFreeMeaning(src: map<Name, Info>, run: Run, rank: map<Name, nat>, n: Name,
                                            ps: seq<Piece>, field: Field)
    requires n in src && Ranked(src, rank) && BraceFreeReads(src, run) && (field.Parameters? || field.Outputs?)
    requires forall p | p in ps && p.Lit? :: p.c != '{'
    ensures NoBrace(Meaning(src, run, rank, n, ps, field))
    decreases rank[n], Level(field), |ps|
  {
    if ps != [] {
      assert forall p | p in ps[1..] :: p in ps;
      BraceFreeMeaning(src, run, rank, n, ps[1..], field);
      if ps[0].Ref? {
        BraceFreeRef(src, run, rank, n, ps[0].m.inner, field);
      }
    }
  }

  lemma {:induction false} BraceFreeText(src: map<Name, Info>, run: Run, rank: map<Name, nat>, n: Name, s: string,
                                         field: Field)
    requires n in src && Ranked(src, rank) && BraceFreeReads(src, run) && (field.Parameters? || field.Outputs?)
    requires BraceFree(s)
    ensures NoBrace(TextMeaning(src, run, rank, n, s, field))
    decreases rank[n], Level(field), |Parse(s)| + 1
  {
    BraceFreeMeaning(src, run, rank, n, Parse(s), field);
  }

  lemma {:induction false} BraceFreeParam(src: map<Name, Info>, run: Run, rank: map<Name, nat>, n: Name, p: string)
    requires n in src && Ranked(src, rank) && BraceFreeReads(src, run) && p in src[n].parameters
    ensures NoBrace(Show(ValueMeaning(src, run, rank, n, src[n].parameters[p])))
    decreases rank[n], 0, ReadingSize(src[n].parameters[p])
  {
    var v := src[n].parameters[p];
    BraceFreeShows(v);
    if v.Text? {
      BraceFreeText(src, run, rank, n, v.text, Parameters);
    } else if v.Dict? && v.preset.Text? {
      BraceFreeText(src, run, rank, n, v.preset.text, Parameters);
    } else {
      assert ValueMeaning(src, run, rank, n, v) == if v.Dict? then v.preset else v;
    }
  }

  lemma BraceFreeShows(v: Value)
    requires BraceFreeValue(v)
    ensures !v.Text? ==> NoBrace(v.shown)
    ensures v.Dict? && !v.preset.Text? ==> NoBrace(v.preset.shown)
    ensures v.Dict? && v.preset.Text? ==> BraceFree(v.preset.text)
  {
    if v.Dict? {
      assert BraceFreeValue(v.preset);
    }
  }

  lemma {:induction false} BraceFreeRef(src: map<Name, Info>, run: Run, rank: map<Name, nat>, n: Name, inner: string,
                                        field: Field)
    requires n in src && Ranked(src, rank) && BraceFreeReads(src, run) && (field.Parameters? || field.Outputs?)
    ensures NoBrace(RefMeaning(src, run, rank, n, inner, field))
    decreases rank[n], Level(field), 0, 1
  {
    var (r, p) := ParseParamName(inner);
    if r == "" {
      if p !in SYS_NAMES && field.Outputs? && p in src[n].parameters {
        BraceFreeParam(src, run, rank, n, p);
      }
    } else if r in DepNames(src[n].deps) && r in src && p in src[r].parameters {
      BraceFreeParam(src, run, rank, r, p);
    }
  }

  lemma BraceFreeIsSettled(src: map<Name, Info>, run: Run, rank: map<Name, nat>)
    requires Ranked(src, rank) && BraceFreeReads(src, run)
    ensures Settled(src, run, rank)
  {
    forall n | n in src
      ensures SettledStep(src, run, rank, n)
    {
      forall p | p in src[n].parameters
        ensures NoBrace(Show(ValueMeaning(src, run, rank, n, src[n].parameters[p])))
      {
        BraceFreeParam(src, run, rank, n, p);
      }
      forall a | a in src[n].outputs
        ensures NoBrace(TextMeaning(src, run, rank, n, src[n].outputs[a], Outputs))
      {
        BraceFreeText(src, run, rank, n, src[n].outputs[a], Outputs);
      }
    }
  }

  // ---- a parameter between braces: accepted, solved, and then in the way ----

  function TextStep(deps: string, p: string, text: string): Info {
    Info(deps, map[p := Text(text)], map[], map[], map[], "")
  }

  /** Step a with p = "{{{{name}}}}", and step b, which depends on it, with q = "{{a.p}}". */
  datatype Braces = Braces(a: Name, p: string, b: Name, q: string, name: string) {
    predicate Ok() { NameOk(a) && NameOk(p) && NameOk(b) && NameOk(q) && a != b && name in SYS_NAMES }

    function First(): Info { TextStep("", p, Braced(RefTo(name).raw)) }

    function Second(): Info { TextStep(a, q, RefTo(a + "." + p).raw) }

    function Steps(): map<Name, Info> { map[a := First(), b := Second()] }

    /** What the second step finds when it is solved, for a value of the system name. */
    function Solved(value: string): map<Name, Info> { map[a := TextStep("", p, Braced(value))] }

    function Ranks(): map<Name, nat> { map[a := 0, b := 1] }
  }

  lemma TextStepIsOk(up: map<Name, Info>, deps: string, p: string, text: string, m: Match)
    requires NameOk(p) && Refs(Parse(text)) == [m] && RefOk(up, TextStep(deps, p, text), m.inner, Parameters)
    ensures WellReferenced(up, TextStep(deps, p, text)) && PresetsOk(up, TextStep(deps, p, text))
  {
    UndoubledHasNoRefs("");
    assert TextStep(deps, p, text).parameters[p] == Text(text);
  }

  /** A step with one text parameter, solved. */
  lemma TextStepOutcome(ctx: Context, rank: map<Name, nat>, k: nat, deps: string, p: string, text: string)
    requires Ranked(ctx.up, rank) && Under(ctx.up, rank, TextStep(deps, p, text), k) && NameOk(p)
    requires Resolve(ctx, rank, k, TextStep(deps, p, text), text, Parameters).Done?
    ensures StepOutcome(ctx, rank, k, TextStep(deps, p, text)) ==
            Done(TextStep(deps, p, Resolve(ctx, rank, k, TextStep(deps, p, text), text, Parameters).value))
  {
    var own := TextStep(deps, p, text);
    var solved := TextStep(deps, p, Resolve(ctx, rank, k, own, text, Parameters).value);
    assert own.parameters[p] == Text(text);
    assert ParamsSolvable(ctx, rank, k, own, own.parameters);
    assert ParamsSolved(ctx, rank, k, own, own.parameters) == solved.parameters;
    assert ParamsDone(ctx, rank, k, own) == solved;
    assert TextsSolved(ctx, rank, k, solved, map[], Inputs) == map[];
    assert TextsSolved(ctx, rank, k, solved, map[], Outputs) == map[];
    assert TextsSolved(ctx, rank, k, solved, map[], Env) == map[];
    UndoubledResolves(ctx, rank, k, MapsDone(ctx, rank, k, solved), "", Command);
  }

  lemma NameIsRead(a: Name)
    requires NameOk(a)
    ensures DepNames("") == [] && DepNames(a) == [a] && '.' !in a
  {
    assert Split("", ',') == [""];
    assert forall i | 0 <= i < |a| :: IsWord(a[i]);
    assert IsListable(a, IsSpace);
    ListedNamesAreRead([a]);
    assert Listed([a]) == a;
  }

  lemma DottedName(a: Name, p: string)
    requires NameOk(a) && NameOk(p)
    ensures ParseParamName(a + "." + p) == (a, p)
    ensures Refs(Parse(RefTo(a + "." + p).raw)) == [RefTo(a + "." + p)]
  {
    NameIsRead(a);
    NameIsRead(p);
    SplitWord(a, p, '.');
    SplitLastWord(p, '.');
    DottedIsRefName(a, p);
    RefToMatches(a + "." + p);
    OnlyReference(RefTo(a + "." + p));
  }

  lemma DottedIsRefName(a: Name, p: string)
    requires NameOk(a) && NameOk(p)
    ensures IsRefName(a + "." + p) && forall c | c in a + "." + p :: IsNameChar(c)
  {
    var s := a + "." + p;
    assert s[|s| - 1] == p[|p| - 1];
    forall i | 0 <= i < |s|
      ensures if i == |a| then s[i] == '.' else IsWord(s[i])
    {
      assert i != |a| ==> s[i] == if i < |a| then a[i] else p[i - |a| - 1];
    }
  }

  lemma SysNamesAreNames()
    ensures forall name | name in SYS_NAMES :: NameOk(name)
  {
    assert NameOk("PF_RUN_ID") && NameOk("PF_FS_ID") && NameOk("PF_STEP_NAME") && NameOk("PF_FS_NAME")
        && NameOk("PF_USER_NAME");
  }

  lemma FirstIsOk(x: Braces, up: map<Name, Info>)
    requires x.Ok()
    ensures WellReferenced(up, x.First()) && PresetsOk(up, x.First())
  {
    SysNamesAreNames();
    NameRefersToItself(x.name);
    BracedReference(RefTo(x.name), "");
    TextStepIsOk(up, "", x.p, Braced(RefTo(x.name).raw), RefTo(x.name));
  }

  lemma SecondIsOk(x: Braces, up: map<Name, Info>)
    requires x.Ok() && x.a in up && x.p in up[x.a].parameters
    ensures WellReferenced(up, x.Second()) && PresetsOk(up, x.Second())
  {
    NameIsRead(x.a);
    DottedName(x.a, x.p);
    TextStepIsOk(up, x.a, x.q, RefTo(x.a + "." + x.p).raw, RefTo(x.a + "." + x.p));
  }

  lemma BothAreOk(src: map<Name, Info>, a: Name, b: Name, first: Info, second: Info)
    requires src == map[a := first, b := second] && WellReferenced(src, first) && WellReferenced(src, second)
    requires PresetsOk(src, first) && PresetsOk(src, second)
    ensures AllWellReferenced(src) && AllPresetsOk(src)
  {
  }

  lemma StepsAreOk(x: Braces)
    requires x.Ok()
    ensures AllWellReferenced(x.Steps()) && AllPresetsOk(x.Steps())
  {
    FirstIsOk(x, x.Steps());
    SecondIsOk(x, x.Steps());
    BothAreOk(x.Steps(), x.a, x.b, x.First(), x.Second());
  }

  lemma StepsInOrder(x: Braces)
    requires x.Ok()
    ensures InOrder(x.Steps(), [x.a, x.b])
  {
    NameIsRead(x.a);
    assert [x.a, x.b][..1] == [x.a];
  }

  /** Solving the first step: the only match is the inner reference, and what stood around it now makes
      a reference of its value. */
  lemma FirstIsSolved(x: Braces, ctx: Context, rank: map<Name, nat>)
    requires x.Ok() && ctx.up == map[] && ctx.replace && ctx.sys.Keys == SYS_NAMES
    ensures StepOutcome(ctx, rank, 0, x.First()) == Done(TextStep("", x.p, Braced(ctx.sys[x.name])))
  {
    var text := Braced(RefTo(x.name).raw);
    SysNamesAreNames();
    NameRefersToItself(x.name);
    BracedReference(RefTo(x.name), ctx.sys[x.name]);
    OneRow(ctx, rank, 0, x.First(), RefTo(x.name), text, Parameters);
    TextStepOutcome(ctx, rank, 0, "", x.p, text);
  }

  lemma ParamResolves(up: map<Name, Info>, rank: map<Name, nat>, k: nat, own: Info, q: string)
    requires Ranked(up, rank) && Under(up, rank, own, k) && StepResolves(up, rank, k, own) && q in own.parameters
    ensures ValueResolves(up, rank, k, own, own.parameters[q], Parameters)
  {
    assert ParamsResolve(up, rank, k, own);
  }

  lemma UpstreamResolves(up: map<Name, Info>, rank: map<Name, nat>, k: nat, own: Info, m: Match, r: Name, p: string,
                         s: string)
    requires Ranked(up, rank) && Under(up, rank, own, k) && Resolves(up, rank, k, own, m.inner, Parameters)
    requires r != "" && ParseParamName(m.inner) == (r, p) && r in up && up[r].parameters == map[p := Text(s)]
    ensures TextOk(up, up[r], s, Parameters)
  {
    assert ValueResolves(up, rank, rank[r], up[r], up[r].parameters[p], Parameters);
    ResolvingIsOk(up, rank, rank[r], up[r], s, Parameters);
  }

  /** A reference that leads to a text whose own reference names nothing. */
  lemma LeadsNowhere(up: map<Name, Info>, rank: map<Name, nat>, k: nat, own: Info, m: Match, r: Name, p: string,
                     name: string)
    requires Ranked(up, rank) && Under(up, rank, own, k)
    requires r != "" && ParseParamName(m.inner) == (r, p) && r in up
    requires up[r].parameters == map[p := Text(RefTo(name).raw)] && NameOk(name) && name !in SYS_NAMES
    ensures !Resolves(up, rank, k, own, m.inner, Parameters)
  {
    UnknownName(up, up[r], name);
    if Resolves(up, rank, k, own, m.inner, Parameters) {
      UpstreamResolves(up, rank, k, own, m, r, p, RefTo(name).raw);
    }
  }

  lemma OnlyParamResolves(up: map<Name, Info>, rank: map<Name, nat>, k: nat, deps: string, q: string, text: string,
                          m: Match)
    requires Ranked(up, rank) && Under(up, rank, TextStep(deps, q, text), k)
    requires StepResolves(up, rank, k, TextStep(deps, q, text)) && Refs(Parse(text)) == [m]
    ensures Resolves(up, rank, k, TextStep(deps, q, text), m.inner, Parameters)
  {
    var own := TextStep(deps, q, text);
    ParamResolves(up, rank, k, own, q);
    assert TextResolves(up, rank, k, own, text, Parameters);
    assert m in Refs(Parse(text));
  }

  lemma StepLeadsNowhere(ctx: Context, rank: map<Name, nat>, own: Info, deps: string, q: string, m: Match, r: Name,
                         p: string, name: string)
    requires Ranked(ctx.up, rank) && Under(ctx.up, rank, own, 1) && ctx.sys.Keys == SYS_NAMES
    requires own == TextStep(deps, q, m.raw) && Refs(Parse(m.raw)) == [m]
    requires r != "" && ParseParamName(m.inner) == (r, p)
    requires r in ctx.up && ctx.up[r] == TextStep("", p, RefTo(name).raw)
    requires NameOk(name) && name !in SYS_NAMES
    ensures !StepOutcome(ctx, rank, 1, own).Done?
  {
    LeadsNowhere(ctx.up, rank, 1, own, m, r, p, name);
    if StepResolves(ctx.up, rank, 1, own) {
      OnlyParamResolves(ctx.up, rank, 1, deps, q, m.raw, m);
    }
    StepIffResolves(ctx, rank, 1, own);
  }

  lemma SolvedRanked(x: Braces, value: string)
    requires x.Ok()
    ensures Ranked(x.Solved(value), x.Ranks()) && Under(x.Solved(value), x.Ranks(), x.Second(), 1)
  {
    NameIsRead(x.a);
  }

  lemma SecondFails(x: Braces, ctx: Context, value: string)
    requires x.Ok() && NameOk(value) && value !in SYS_NAMES && ctx.up == x.Solved(value) && ctx.sys.Keys == SYS_NAMES
    requires Ranked(ctx.up, x.Ranks()) && Under(ctx.up, x.Ranks(), x.Second(), 1)
    ensures !StepOutcome(ctx, x.Ranks(), 1, x.Second()).Done?
  {
    var inner := x.a + "." + x.p;
    DottedName(x.a, x.p);
    BracedIsRaw(value);
    StepLeadsNowhere(ctx, x.Ranks(), x.Second(), x.a, x.q, RefTo(inner), x.a, x.p, value);
  }

  lemma BracedIsRaw(value: string)
    ensures RefTo(value).raw == Braced(value)
  {
  }

  /** Validation accepts these two steps, whatever the system value is. Creation solves the first one and
      then fails at the second, whenever the value is a word that names no system value, as the name of
      a user is. */
  lemma BracedParameterFailsLater(x: Braces, run: Run)
    requires x.Ok()
    ensures InOrder(x.Steps(), [x.a, x.b]) && AllWellReferenced(x.Steps()) && AllPresetsOk(x.Steps())
    ensures var value := SysParams(run, x.a)[x.name];
            && Ranked(x.Solved(value), x.Ranks()) && Under(x.Solved(value), x.Ranks(), x.Second(), 1)
            && StepOutcome(Context(map[], SysParams(run, x.a), true), x.Ranks(), 0, x.First())
                 == Done(x.Solved(value)[x.a])
            && (NameOk(value) && value !in SYS_NAMES ==>
                  !StepOutcome(Context(x.Solved(value), SysParams(run, x.b), true), x.Ranks(), 1, x.Second()).Done?)
  {
    var value := SysParams(run, x.a)[x.name];
    StepsInOrder(x);
    StepsAreOk(x);
    FirstIsSolved(x, Context(map[], SysParams(run, x.a), true), x.Ranks());
    SolvedRanked(x, value);
    if NameOk(value) && value !in SYS_NAMES {
      SecondFails(x, Context(x.Solved(value), SysParams(run, x.b), true), value);
    }
  }
}
