/** Parameters do not leave their scope: inside a call that binds a parameter, what is expanded does not
    name it any more. */
module InlinerHygiene {
  import opened Wrappers
  import opened InlinerSyntax
  import opened Inliner
  import opened InlinerReference
  import opened InlinerTheory
  import opened InlinerMeaning

  /** The bodies that the parser builds are one variable or one string. */
  predicate OneTermBody(body: seq<Arg>) {
    |body| == 1 && |body[0].terms| == 1 && (body[0].terms[0].Var? || body[0].terms[0].Value?)
  }

  ghost predicate Grammatical(t: Term) {
    match t
    case Xfm(mods, body) => (forall m :: m in mods ==> GrammaticalArgs(m.args)) && OneTermBody(body)
    case Call(_, params) => forall a :: a in params ==> GrammaticalScript(a.value)
    case If(cond, yes, no) => Grammatical(cond) && GrammaticalArgs(yes.args) && GrammaticalArgs(no.args)
    case _ => true
  }

  ghost predicate GrammaticalTerms(ts: seq<Term>) {
    forall t :: t in ts ==> Grammatical(t)
  }

  ghost predicate GrammaticalArgs(b: seq<Arg>) {
    forall a :: a in b ==> GrammaticalTerms(a.terms)
  }

  ghost predicate GrammaticalScript(s: Script) {
    forall c :: c in s ==> GrammaticalArgs(c.args)
  }

  ghost predicate ParserGrammatical(cfg: Config) {
    forall text :: GrammaticalScript(cfg.parse(text))
  }

  ghost predicate ProgramGrammatical(cfg: Config) {
    ParserGrammatical(cfg) && forall v :: GrammaticalScript(DefinitionOf(cfg, v))
  }

  lemma ConstantGrammatical(value: nat)
    ensures GrammaticalScript(Constant(value))
  {
    assert GrammaticalTerms([Value(value)]);
    assert GrammaticalArgs([Arg([Value(value)])]);
  }

  lemma DefinitionsGrammatical(cfg: Config)
    requires ParserGrammatical(cfg)
    ensures ProgramGrammatical(cfg)
  {
    forall v
      ensures GrammaticalScript(DefinitionOf(cfg, v))
    {
      if v.Values? { ConstantGrammatical(cfg.lateGlobs(Names(v.parts))); }
    }
  }

  /** A finished term: values, variables and transformations, none of which is named `x`. */
  ghost predicate Avoids(x: VarId, t: Term) {
    match t
    case Value(_) => true
    case Var(id) => id != x
    case Xfm(mods, body) => (forall m :: m in mods ==> AvoidsArgs(x, m.args)) && AvoidsArgs(x, body)
    case _ => false
  }

  ghost predicate AvoidsTerms(x: VarId, ts: seq<Term>) {
    forall t :: t in ts ==> Avoids(x, t)
  }

  ghost predicate AvoidsArgs(x: VarId, b: seq<Arg>) {
    forall a :: a in b ==> AvoidsTerms(x, a.terms)
  }

  ghost predicate AvoidsScript(x: VarId, s: Script) {
    forall c :: c in s ==> AvoidsArgs(x, c.args)
  }

  ghost predicate DataAvoids(x: VarId, b: Bindings) {
    forall id :: id in b ==> AvoidsScript(x, b[id])
  }

  /** `x` is bound, and nothing that is bound mentions it. */
  ghost predicate Held(cfg: Config, b: Bindings, x: VarId) {
    ProgramGrammatical(cfg) && x in b && DataAvoids(x, b)
  }

  ghost predicate CleanExpansion(cfg: Config, x: VarId, e: Expansion) {
    match e
    case Itself => true
    case Finished(script) => AvoidsScript(x, script)
    case More(script, b, _) => GrammaticalScript(script) && Held(cfg, b, x)
  }

  // ---------------------------------------------------------------- calls

  lemma {:induction false} CleanBindings(cfg: Config, b: Bindings, depths: Depths, fuel: nat, fn: VarId, params: seq<MacroArg>, x: VarId)
    requires Held(cfg, b, x) && Grammatical(Call(fn, params))
    ensures var r := CallBindings(cfg, false, b, depths, fuel, fn, params); r.Ok? ==> Held(cfg, r.value.value, x)
    decreases fuel, 3, 0
  {
    CleanActuals(cfg, b, depths, fuel, params, map[], x);
  }

  lemma {:induction false} CleanActuals(cfg: Config, b: Bindings, depths: Depths, fuel: nat, params: seq<MacroArg>, done: Bindings, x: VarId)
    requires Held(cfg, b, x) && (forall a :: a in params ==> GrammaticalScript(a.value)) && DataAvoids(x, done)
    ensures var r := Actuals(cfg, false, b, depths, fuel, params, done); r.Ok? ==> DataAvoids(x, r.value.value)
    decreases fuel, 2, |params|
  {
    if params != [] {
      var name, value := params[0].name, Expand(cfg, false, b, depths, fuel, params[0].value);
      assert params[0] in params;
      CleanScript(cfg, b, depths, fuel, params[0].value, x);
      if value.Ok? {
        var before := if name in done then done[name] else [];
        CleanActuals(cfg, b, depths, fuel, params[1..], done[name := before + value.value.value], x);
      }
    }
  }

  lemma CleanVar(cfg: Config, b: Bindings, depths: Depths, id: VarId, x: VarId)
    requires Held(cfg, b, x)
    ensures var r := VarExpansion(cfg, b, depths, id); r.Ok? ==> CleanExpansion(cfg, x, r.value.value)
  {}

  lemma {:induction false} CleanStandalone(cfg: Config, b: Bindings, depths: Depths, fuel: nat, t: Term, x: VarId)
    requires Held(cfg, b, x) && Grammatical(t)
    ensures var r := ExpandStandalone(cfg, false, b, depths, fuel, t); r.Ok? ==> CleanExpansion(cfg, x, r.value.value)
    decreases fuel, 4, 0
  {
    match t
    case Var(id) => CleanVar(cfg, b, depths, id, x);
    case Xfm(mods, body) => if IsBareVar(mods, body) { CleanVar(cfg, b, depths, body[0].terms[0].id, x); }
    case Call(fn, params) => CleanBindings(cfg, b, depths, fuel, fn, params, x);
    case _ =>
  }

  // ---------------------------------------------------------------- commands and arguments

  lemma {:induction false} CleanScript(cfg: Config, b: Bindings, depths: Depths, fuel: nat, script: Script, x: VarId)
    requires Held(cfg, b, x) && GrammaticalScript(script)
    ensures var r := Expand(cfg, false, b, depths, fuel, script); r.Ok? ==> AvoidsScript(x, r.value.value)
    decreases fuel, 1, 0
  {
    if fuel > 0 { CleanList(cfg, b, depths, fuel - 1, script, x); }
  }

  lemma {:induction false} CleanList(cfg: Config, b: Bindings, depths: Depths, fuel: nat, script: Script, x: VarId)
    requires Held(cfg, b, x) && GrammaticalScript(script)
    ensures var r := ExpandList(cfg, false, b, depths, fuel, script); r.Ok? ==> AvoidsScript(x, r.value.value)
    decreases fuel, 6, |script|
  {
    if script != [] {
      assert script[0] in script;
      CleanCommand(cfg, b, depths, fuel, script[0], x);
      CleanList(cfg, b, depths, fuel, script[1..], x);
    }
  }

  lemma {:induction false} CleanCommand(cfg: Config, b: Bindings, depths: Depths, fuel: nat, cmd: Cmd, x: VarId)
    requires Held(cfg, b, x) && GrammaticalArgs(cmd.args)
    ensures var r := ExpandCommand(cfg, false, b, depths, fuel, cmd); r.Ok? ==> AvoidsScript(x, r.value.value)
    decreases fuel, 5, 0
  {
    var e: Outcome<Expansion> := Plain(Itself);
    if |cmd.args| == 1 && |cmd.args[0].terms| == 1 {
      var t := cmd.args[0].terms[0];
      assert cmd.args[0] in cmd.args && t in cmd.args[0].terms;
      CleanStandalone(cfg, b, depths, fuel, t, x);
      e := ExpandStandalone(cfg, false, b, depths, fuel, t);
    }
    if e.Ok? {
      match e.value.value
      case Itself => CleanArgs(cfg, b, depths, fuel, cmd.args, x);
      case Finished(_) =>
      case More(script, inner, deeper) => CleanScript(cfg, inner, deeper, fuel, script, x);
    }
  }

  lemma {:induction false} CleanArgs(cfg: Config, b: Bindings, depths: Depths, fuel: nat, args: seq<Arg>, x: VarId)
    requires Held(cfg, b, x) && GrammaticalArgs(args)
    ensures var r := ExpandArgs(cfg, false, b, depths, fuel, args); r.Ok? ==> AvoidsArgs(x, r.value.value)
    decreases fuel, 1, 0
  {
    if fuel > 0 { CleanArgList(cfg, b, depths, fuel - 1, args, x); }
  }

  lemma {:induction false} CleanArgList(cfg: Config, b: Bindings, depths: Depths, fuel: nat, args: seq<Arg>, x: VarId)
    requires Held(cfg, b, x) && GrammaticalArgs(args)
    ensures var r := ExpandArgList(cfg, false, b, depths, fuel, args); r.Ok? ==> AvoidsArgs(x, r.value.value)
    decreases fuel, 6, |args|
  {
    if args != [] {
      assert args[0] in args;
      CleanArg(cfg, b, depths, fuel, args[0], x);
      CleanArgList(cfg, b, depths, fuel, args[1..], x);
    }
  }

  lemma {:induction false} CleanArg(cfg: Config, b: Bindings, depths: Depths, fuel: nat, arg: Arg, x: VarId)
    requires Held(cfg, b, x) && GrammaticalTerms(arg.terms)
    ensures var r := ExpandArg(cfg, false, b, depths, fuel, arg); r.Ok? ==> AvoidsArgs(x, r.value.value)
    decreases fuel, 5, 0
  {
    var e: Outcome<Expansion> := Plain(Itself);
    if |arg.terms| == 1 {
      CleanStandalone(cfg, b, depths, fuel, arg.terms[0], x);
      e := ExpandStandalone(cfg, false, b, depths, fuel, arg.terms[0]);
    }
    if e.Ok? {
      match e.value.value
      case Itself => CleanTerms(cfg, b, depths, fuel, arg.terms, x);
      case Finished(script) => CleanOnly(script, x);
      case More(script, inner, deeper) =>
        if |script| == 1 {
          assert script[0] in script;
          CleanArgs(cfg, inner, deeper, fuel, script[0].args, x);
        }
    }
  }

  lemma CleanOnly(script: Script, x: VarId)
    requires AvoidsScript(x, script)
    ensures var r := OnlyCommand(script); r.Ok? ==> AvoidsArgs(x, r.value.value)
  {
    if |script| == 1 { assert script[0] in script; }
  }

  lemma CleanShape(script: Script, x: VarId)
    requires AvoidsScript(x, script) && ShapeOf(script).Single?
    ensures AvoidsTerms(x, ShapeOf(script).terms)
  {
    assert script[0] in script && script[0].args[0] in script[0].args;
  }

  lemma GrammaticalShape(script: Script)
    requires GrammaticalScript(script) && ShapeOf(script).Single?
    ensures GrammaticalTerms(ShapeOf(script).terms)
  {
    assert script[0] in script && script[0].args[0] in script[0].args;
  }

  // ---------------------------------------------------------------- terms

  lemma {:induction false} CleanTerms(cfg: Config, b: Bindings, depths: Depths, fuel: nat, ts: seq<Term>, x: VarId)
    requires Held(cfg, b, x) && GrammaticalTerms(ts)
    ensures var r := ExpandTerms(cfg, false, b, depths, fuel, ts); r.Ok? ==> AvoidsTerms(x, r.value.value)
    decreases fuel, 1, 0
  {
    if fuel > 0 { CleanTermList(cfg, b, depths, fuel - 1, ts, x); }
  }

  lemma {:induction false} CleanTermList(cfg: Config, b: Bindings, depths: Depths, fuel: nat, ts: seq<Term>, x: VarId)
    requires Held(cfg, b, x) && GrammaticalTerms(ts)
    ensures var r := ExpandTermList(cfg, false, b, depths, fuel, ts); r.Ok? ==> AvoidsTerms(x, r.value.value)
    decreases fuel, 6, |ts|
  {
    if ts != [] {
      CleanTerm(cfg, b, depths, fuel, ts[0], x);
      CleanTermList(cfg, b, depths, fuel, ts[1..], x);
    }
  }

  lemma {:induction false} CleanTerm(cfg: Config, b: Bindings, depths: Depths, fuel: nat, t: Term, x: VarId)
    requires Held(cfg, b, x) && Grammatical(t)
    ensures var r := ExpandTerm(cfg, false, b, depths, fuel, t); r.Ok? ==> AvoidsTerms(x, r.value.value)
    decreases fuel, 1, 0
  {
    if fuel > 0 {
      match t
      case Var(id) => CleanVariable(cfg, b, depths, fuel - 1, id, x);
      case Xfm(mods, body) => CleanXfm(cfg, b, depths, fuel - 1, mods, body, x);
      case Call(fn, params) =>
        CleanBindings(cfg, b, depths, fuel - 1, fn, params, x);
        var inner := CallBindings(cfg, false, b, depths, fuel - 1, fn, params);
        if inner.Ok? { CleanTermsIn(cfg, inner.value.value, depths, fuel - 1, cfg.parse(cfg.macros[fn]), x); }
      case If(cond, yes, no) =>
        var holds := ExpandCondition(cfg, false, b, depths, fuel - 1, cond);
        if holds.Ok? {
          var branch := if holds.value.value then yes else no;
          if |branch.args| == 1 {
            assert branch.args[0] in branch.args;
            CleanTerms(cfg, b, depths, fuel - 1, branch.args[0].terms, x);
          }
        }
      case _ =>
    }
  }

  lemma {:induction false} CleanTermsIn(cfg: Config, b: Bindings, depths: Depths, fuel: nat, script: Script, x: VarId)
    requires Held(cfg, b, x) && GrammaticalScript(script)
    ensures var r := ExpandTermsIn(cfg, false, b, depths, fuel, script); r.Ok? ==> AvoidsTerms(x, r.value.value)
    decreases fuel, 2, 0
  {
    if ShapeOf(script).Single? {
      GrammaticalShape(script);
      CleanTerms(cfg, b, depths, fuel, ShapeOf(script).terms, x);
    }
  }

  lemma {:induction false} CleanVariable(cfg: Config, b: Bindings, depths: Depths, fuel: nat, id: VarId, x: VarId)
    requires Held(cfg, b, x)
    ensures var r := ExpandVar(cfg, false, b, depths, fuel, id); r.Ok? ==> AvoidsTerms(x, r.value.value)
    decreases fuel, 3, 0
  {
    match MeaningOf(cfg, b, depths, id)
    case Data(script) => if ShapeOf(script).Single? { CleanShape(script, x); }
    case Code(script) =>
      if ShapeOf(script).Single? {
        GrammaticalShape(script);
        CleanTerms(cfg, b, Enter(depths, id, true), fuel, ShapeOf(script).terms, x);
      }
    case _ =>
  }

  // ---------------------------------------------------------------- transformations

  lemma {:induction false} CleanXfm(cfg: Config, b: Bindings, depths: Depths, fuel: nat, mods: seq<Modifier>, body: seq<Arg>, x: VarId)
    requires Held(cfg, b, x) && Grammatical(Xfm(mods, body))
    ensures var r := ExpandXfm(cfg, false, b, depths, fuel, mods, body); r.Ok? ==> Avoids(x, r.value.value)
    decreases fuel, 1, 0
  {
    if fuel > 0 {
      CleanMods(cfg, b, depths, fuel - 1, mods, x);
      CleanBody(cfg, b, depths, fuel - 1, body, x);
    }
  }

  lemma {:induction false} CleanBody(cfg: Config, b: Bindings, depths: Depths, fuel: nat, body: seq<Arg>, x: VarId)
    requires Held(cfg, b, x) && OneTermBody(body)
    ensures var r := ExpandBody(cfg, false, b, depths, fuel, body); r.Ok? ==> AvoidsArgs(x, r.value.value)
    decreases fuel, 3, 0
  {
    if IsVarBody(body) {
      var id := body[0].terms[0].id;
      match MeaningOf(cfg, b, depths, id)
      case Data(script) => CleanOnly(script, x);
      case Code(script) =>
        if |script| == 1 {
          CleanScript(cfg, b, Enter(depths, id, true), fuel, script, x);
          var r := Expand(cfg, false, b, Enter(depths, id, true), fuel, script);
          if r.Ok? { CleanOnly(r.value.value, x); }
        }
      case _ =>
    }
  }

  lemma {:induction false} CleanMods(cfg: Config, b: Bindings, depths: Depths, fuel: nat, mods: seq<Modifier>, x: VarId)
    requires Held(cfg, b, x) && forall m :: m in mods ==> GrammaticalArgs(m.args)
    ensures var r := ExpandMods(cfg, false, b, depths, fuel, mods); r.Ok? ==> forall m :: m in r.value.value ==> AvoidsArgs(x, m.args)
    decreases fuel, 6, |mods|
  {
    if mods != [] {
      assert mods[0] in mods;
      CleanModArgs(cfg, b, depths, fuel, mods[0].args, x);
      CleanMods(cfg, b, depths, fuel, mods[1..], x);
    }
  }

  lemma {:induction false} CleanModArgs(cfg: Config, b: Bindings, depths: Depths, fuel: nat, args: seq<Arg>, x: VarId)
    requires Held(cfg, b, x) && GrammaticalArgs(args)
    ensures var r := ExpandModArgs(cfg, false, b, depths, fuel, args); r.Ok? ==> AvoidsArgs(x, r.value.value)
    decreases fuel, 5, |args|
  {
    if args != [] {
      assert args[0] in args;
      CleanModTerms(cfg, b, depths, fuel, args[0].terms, x);
      CleanModArgs(cfg, b, depths, fuel, args[1..], x);
    }
  }

  lemma {:induction false} CleanModTerms(cfg: Config, b: Bindings, depths: Depths, fuel: nat, ts: seq<Term>, x: VarId)
    requires Held(cfg, b, x) && GrammaticalTerms(ts)
    ensures var r := ExpandModTerms(cfg, false, b, depths, fuel, ts); r.Ok? ==> AvoidsTerms(x, r.value.value)
    decreases fuel, 4, |ts|
  {
    if ts != [] {
      CleanModTerm(cfg, b, depths, fuel, ts[0], x);
      CleanModTerms(cfg, b, depths, fuel, ts[1..], x);
    }
  }

  lemma {:induction false} CleanModTerm(cfg: Config, b: Bindings, depths: Depths, fuel: nat, t: Term, x: VarId)
    requires Held(cfg, b, x) && Grammatical(t)
    ensures var r := ExpandModTerm(cfg, false, b, depths, fuel, t); r.Ok? ==> AvoidsTerms(x, r.value.value)
    decreases fuel, 1, 0
  {
    if fuel > 0 {
      match t
      case Xfm(mods, body) => CleanXfm(cfg, b, depths, fuel - 1, mods, body, x);
      case Var(id) =>
        var meaning := MeaningOf(cfg, b, depths, id);
        if meaning.Data? && ShapeOf(meaning.script).Single? {
          CleanShape(meaning.script, x);
        } else if meaning.Code? && ShapeOf(meaning.script).Single? {
          GrammaticalShape(meaning.script);
          CleanModTerms(cfg, b, Enter(depths, id, true), fuel - 1, ShapeOf(meaning.script).terms, x);
        }
      case _ =>
    }
  }

  // ---------------------------------------------------------------- calls leave no parameter behind

  /** Whatever the macro does: if the call binds `x`, and the arguments do not mention a variable of
      that name of the caller, then nothing named `x` is left of the call. */
  lemma NoParameterIsLeft(cfg: Config, b: Bindings, depths: Depths, fuel: nat, fn: VarId, params: seq<MacroArg>, x: VarId)
    requires ParserGrammatical(cfg) && fuel > 0
    requires var inner := CallBindings(cfg, false, b, depths, fuel - 1, fn, params);
      inner.Ok? ==> x in inner.value.value && DataAvoids(x, inner.value.value)
    ensures var r := Expand(cfg, false, b, depths, fuel, OneCall(fn, params)); r.Ok? ==> AvoidsScript(x, r.value.value)
  {
    DefinitionsGrammatical(cfg);
    var inner := CallBindings(cfg, false, b, depths, fuel - 1, fn, params);
    if inner.Ok? {
      CleanScript(cfg, inner.value.value, depths, fuel - 1, cfg.parse(cfg.macros[fn]), x);
    }
    OneCallExpands(cfg, false, b, depths, fuel, fn, params);
  }

  function OneCall(fn: VarId, params: seq<MacroArg>): Script { [Cmd([Arg([Call(fn, params)])])] }

  lemma OneCallExpands(cfg: Config, byName: bool, b: Bindings, depths: Depths, fuel: nat, fn: VarId, params: seq<MacroArg>)
    requires fuel > 0
    ensures var inner := CallBindings(cfg, byName, b, depths, fuel - 1, fn, params);
      Expand(cfg, byName, b, depths, fuel, OneCall(fn, params)) ==
        if inner.Err? then Err(inner.error)
        else After(inner.value.calls, Expand(cfg, byName, inner.value.value, depths, fuel - 1, cfg.parse(cfg.macros[fn])))
  {
    var script := OneCall(fn, params);
    OneCommandExpands(cfg, byName, b, depths, fuel, script[0]);
    assert ExpandStandalone(cfg, byName, b, depths, fuel - 1, Call(fn, params)) ==
      var inner := CallBindings(cfg, byName, b, depths, fuel - 1, fn, params);
      if inner.Err? then Err(inner.error)
      else Ok(Made(More(cfg.parse(cfg.macros[fn]), inner.value.value, depths), inner.value.calls));
  }

  lemma OneCommandExpands(cfg: Config, byName: bool, b: Bindings, depths: Depths, fuel: nat, cmd: Cmd)
    requires fuel > 0
    ensures Expand(cfg, byName, b, depths, fuel, [cmd]) == ExpandCommand(cfg, byName, b, depths, fuel - 1, cmd)
  {
    var first := ExpandCommand(cfg, byName, b, depths, fuel - 1, cmd);
    assert [cmd][1..] == [] && ExpandList(cfg, byName, b, depths, fuel - 1, []) == Plain([]);
    if first.Ok? { assert first.value.value + [] == first.value.value && first.value.calls + [] == first.value.calls; }
  }

  /** The same of the inliner, wherever the call has a meaning. */
  lemma NothingEscapes(cfg: Config, fn: VarId, params: seq<MacroArg>, x: VarId)
    requires ParserClean(cfg) && ParserGrammatical(cfg) && ParsedScript(OneCall(fn, params))
    requires var inner := CallBindings(cfg, false, map[], map[], MAX_DEPTH - 1, fn, params);
      inner.Ok? ==> x in inner.value.value && DataAvoids(x, inner.value.value)
    requires Means(cfg, OneCall(fn, params), MAX_DEPTH) != Err(ManyInModifier)
    ensures var r := Inlined(cfg, OneCall(fn, params)); r.Ok? ==> AvoidsScript(x, r.value.value)
  {
    InliningPreservesMeaning(cfg, OneCall(fn, params), MAX_DEPTH);
    NoParameterIsLeft(cfg, map[], map[], MAX_DEPTH, fn, params, x);
  }
}
