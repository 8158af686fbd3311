/** A condition on calls under which every script has a meaning: parameters that modifier arguments
    mention are given at most one argument. */
module InlinerSingles {
  import opened Wrappers
  import opened InlinerSyntax
  import opened Inliner
  import opened InlinerReference
  import opened InlinerTheory
  import opened InlinerMeaning

  // ---------------------------------------------------------------- scripts of at most one argument

  /** `names` are parameters, variables and macros that stand for at most one argument.  A term that
      may expand to more than itself has to be one of them. */
  ghost predicate NarrowTerm(names: set<VarId>, t: Term) {
    match t
    case Var(id) => id in names
    case Xfm(mods, body) => IsBareVar(mods, body) ==> body[0].terms[0].id in names
    case Call(fn, _) => fn in names
    case If(_, yes, no) => NarrowArgs(names, yes.args) && NarrowArgs(names, no.args)
    case _ => true
  }

  ghost predicate NarrowTerms(names: set<VarId>, ts: seq<Term>) {
    |ts| == 1 ==> NarrowTerm(names, ts[0])
  }

  ghost predicate NarrowArgs(names: set<VarId>, args: seq<Arg>) {
    |args| == 0 || (|args| == 1 && NarrowTerms(names, args[0].terms))
  }

  ghost predicate Narrow(names: set<VarId>, script: Script) {
    |script| == 0 || (|script| == 1 && NarrowArgs(names, script[0].args))
  }

  lemma NarrowLone(names: set<VarId>, args: seq<Arg>)
    requires |args| == 1 && |args[0].terms| == 1
    ensures NarrowArgs(names, args) <==> NarrowTerm(names, args[0].terms[0])
  {
    assert NarrowArgs(names, args) <==> NarrowTerms(names, args[0].terms);
  }

  predicate NotMany(script: Script) { !ShapeOf(script).ManyArguments? }

  // ---------------------------------------------------------------- calm scripts

  /** Modifier arguments mention only `names`, and calls give them narrow arguments. */
  ghost predicate Calm(names: set<VarId>, t: Term) {
    match t
    case Xfm(mods, _) => forall m :: m in mods ==> CalmInside(names, m.args)
    case Call(_, params) => forall a :: a in params ==> CalmScript(names, a.value) && (a.name in names ==> Narrow(names, a.value))
    case If(cond, yes, no) => Calm(names, cond) && CalmArgs(names, yes.args) && CalmArgs(names, no.args)
    case _ => true
  }

  ghost predicate CalmInside(names: set<VarId>, args: seq<Arg>) {
    forall a :: a in args ==> CalmModTerms(names, a.terms)
  }

  /** Terms of a modifier argument. */
  ghost predicate CalmModTerms(names: set<VarId>, ts: seq<Term>) {
    forall t :: t in ts ==> Calm(names, t) && (t.Var? ==> t.id in names)
  }

  ghost predicate CalmTerms(names: set<VarId>, ts: seq<Term>) {
    forall t :: t in ts ==> Calm(names, t)
  }

  ghost predicate CalmArgs(names: set<VarId>, args: seq<Arg>) {
    forall a :: a in args ==> CalmTerms(names, a.terms)
  }

  ghost predicate CalmScript(names: set<VarId>, script: Script) {
    forall c :: c in script ==> CalmArgs(names, c.args)
  }

  /** A definition of one of the `names` is narrow, and can be put into a modifier argument. */
  ghost predicate Fitting(names: set<VarId>, script: Script) {
    Narrow(names, script) && (ShapeOf(script).Single? ==> CalmModTerms(names, ShapeOf(script).terms))
  }

  ghost predicate CalmMacro(cfg: Config, names: set<VarId>, fn: VarId)
    requires fn in cfg.macros
  {
    CalmScript(names, cfg.parse(cfg.macros[fn])) && (fn in names ==> Narrow(names, cfg.parse(cfg.macros[fn])))
  }

  ghost predicate CalmVariable(cfg: Config, names: set<VarId>, id: VarId, k: nat)
    requires id in cfg.legacy && k < |cfg.legacy[id]|
  {
    var script := DefinitionOf(cfg, cfg.legacy[id][k]);
    CalmScript(names, script) && (id in names ==> Fitting(names, script))
  }

  /** All definitions of a configuration are calm. */
  ghost predicate CalmProgram(cfg: Config, names: set<VarId>) {
    && (forall fn :: fn in cfg.macros ==> CalmMacro(cfg, names, fn))
    && (forall id, k :: id in cfg.legacy && 0 <= k < |cfg.legacy[id]| ==> CalmVariable(cfg, names, id, k))
  }

  ghost predicate NarrowData(names: set<VarId>, b: Bindings) {
    forall id :: id in b && id in names ==> NotMany(b[id])
  }

  ghost predicate CalmExpansion(names: set<VarId>, e: Expansion, narrow: bool) {
    match e
    case Itself => true
    case Finished(script) => narrow ==> NotMany(script)
    case More(script, b, _) => CalmScript(names, script) && NarrowData(names, b) && (narrow ==> Narrow(names, script))
  }

  // ---------------------------------------------------------------- calls

  lemma {:induction false} CalmBindings(cfg: Config, names: set<VarId>, b: Bindings, depths: Depths, fuel: nat, fn: VarId, params: seq<MacroArg>)
    requires CalmProgram(cfg, names) && NarrowData(names, b) && Calm(names, Call(fn, params))
    ensures var r := CallBindings(cfg, false, b, depths, fuel, fn, params);
      r != Err(ManyInModifier) && (r.Ok? ==> NarrowData(names, r.value.value))
    decreases fuel, 3, 0
  {
    CalmActuals(cfg, names, b, depths, fuel, params, map[]);
  }

  lemma {:induction false} CalmActuals(cfg: Config, names: set<VarId>, b: Bindings, depths: Depths, fuel: nat, params: seq<MacroArg>, done: Bindings)
    requires CalmProgram(cfg, names) && NarrowData(names, b) && NarrowData(names, done)
    requires forall a :: a in params ==> CalmScript(names, a.value) && (a.name in names ==> Narrow(names, a.value))
    ensures var r := Actuals(cfg, false, b, depths, fuel, params, done);
      r != Err(ManyInModifier) && (r.Ok? ==> NarrowData(names, r.value.value))
    decreases fuel, 2, |params|
  {
    if params != [] {
      var name, value := params[0].name, Expand(cfg, false, b, depths, fuel, params[0].value);
      assert params[0] in params;
      CalmWhole(cfg, names, b, depths, fuel, params[0].value);
      if value.Ok? {
        var before := if name in done then done[name] else [];
        assert name in names ==> NotMany(before + value.value.value);
        CalmActuals(cfg, names, b, depths, fuel, params[1..], done[name := before + value.value.value]);
      }
    }
  }

  lemma CalmVar(cfg: Config, names: set<VarId>, b: Bindings, depths: Depths, id: VarId)
    requires CalmProgram(cfg, names) && NarrowData(names, b)
    ensures var r := VarExpansion(cfg, b, depths, id);
      r != Err(ManyInModifier) && (r.Ok? ==> CalmExpansion(names, r.value.value, id in names))
  {
    if id !in b && IsVariable(cfg, id) && DepthOf(depths, id) < |cfg.legacy[id]| {
      assert CalmVariable(cfg, names, id, DepthOf(depths, id));
    }
  }

  lemma {:induction false} CalmStandalone(cfg: Config, names: set<VarId>, b: Bindings, depths: Depths, fuel: nat, t: Term)
    requires CalmProgram(cfg, names) && NarrowData(names, b) && Calm(names, t)
    ensures var r := ExpandStandalone(cfg, false, b, depths, fuel, t);
      r != Err(ManyInModifier) && (r.Ok? ==> CalmExpansion(names, r.value.value, NarrowTerm(names, t)))
    decreases fuel, 4, 0
  {
    match t
    case Var(id) => CalmVar(cfg, names, b, depths, id);
    case Xfm(mods, body) => if IsBareVar(mods, body) { CalmVar(cfg, names, b, depths, body[0].terms[0].id); }
    case Call(fn, params) =>
      CalmBindings(cfg, names, b, depths, fuel, fn, params);
      if fn in cfg.macros { assert CalmMacro(cfg, names, fn); }
    case If(cond, yes, no) => CalmCondition(cfg, names, b, depths, fuel, cond);
    case _ =>
  }

  lemma {:induction false} CalmCondition(cfg: Config, names: set<VarId>, b: Bindings, depths: Depths, fuel: nat, cond: Term)
    requires CalmProgram(cfg, names) && NarrowData(names, b) && Calm(names, cond)
    ensures ExpandCondition(cfg, false, b, depths, fuel, cond) != Err(ManyInModifier)
    decreases fuel, 3, 0
  {
    CalmTerm(cfg, names, b, depths, fuel, cond);
  }

  // ---------------------------------------------------------------- commands and arguments

  lemma {:induction false} CalmWhole(cfg: Config, names: set<VarId>, b: Bindings, depths: Depths, fuel: nat, script: Script)
    requires CalmProgram(cfg, names) && NarrowData(names, b) && CalmScript(names, script)
    ensures var r := Expand(cfg, false, b, depths, fuel, script);
      r != Err(ManyInModifier) && (r.Ok? && Narrow(names, script) ==> NotMany(r.value.value))
    decreases fuel, 1, 0
  {
    if fuel > 0 { CalmList(cfg, names, b, depths, fuel - 1, script); }
  }

  lemma {:induction false} CalmList(cfg: Config, names: set<VarId>, b: Bindings, depths: Depths, fuel: nat, script: Script)
    requires CalmProgram(cfg, names) && NarrowData(names, b) && CalmScript(names, script)
    ensures var r := ExpandList(cfg, false, b, depths, fuel, script);
      r != Err(ManyInModifier) && (r.Ok? && Narrow(names, script) ==> NotMany(r.value.value))
    decreases fuel, 6, |script|
  {
    if script != [] {
      assert script[0] in script;
      CalmCommand(cfg, names, b, depths, fuel, script[0]);
      CalmList(cfg, names, b, depths, fuel, script[1..]);
      var first, rest := ExpandCommand(cfg, false, b, depths, fuel, script[0]), ExpandList(cfg, false, b, depths, fuel, script[1..]);
      if |script| == 1 && first.Ok? { assert rest == Plain([]) && first.value.value + [] == first.value.value; }
    }
  }

  lemma {:induction false} CalmCommand(cfg: Config, names: set<VarId>, b: Bindings, depths: Depths, fuel: nat, cmd: Cmd)
    requires CalmProgram(cfg, names) && NarrowData(names, b) && CalmArgs(names, cmd.args)
    ensures var r := ExpandCommand(cfg, false, b, depths, fuel, cmd);
      r != Err(ManyInModifier) && (r.Ok? && NarrowArgs(names, cmd.args) ==> NotMany(r.value.value))
    decreases fuel, 5, 0
  {
    var e: Outcome<Expansion> := Plain(Itself);
    if |cmd.args| == 1 && |cmd.args[0].terms| == 1 {
      var t := cmd.args[0].terms[0];
      assert cmd.args[0] in cmd.args && t in cmd.args[0].terms;
      CalmStandalone(cfg, names, b, depths, fuel, t);
      e := ExpandStandalone(cfg, false, b, depths, fuel, t);
    }
    if e.Ok? {
      match e.value.value
      case Itself => CalmArguments(cfg, names, b, depths, fuel, cmd.args);
      case Finished(_) => NarrowLone(names, cmd.args);
      case More(script, inner, deeper) =>
        NarrowLone(names, cmd.args);
        CalmWhole(cfg, names, inner, deeper, fuel, script);
    }
  }

  lemma {:induction false} CalmArguments(cfg: Config, names: set<VarId>, b: Bindings, depths: Depths, fuel: nat, args: seq<Arg>)
    requires CalmProgram(cfg, names) && NarrowData(names, b) && CalmArgs(names, args)
    ensures var r := ExpandArgs(cfg, false, b, depths, fuel, args);
      r != Err(ManyInModifier) && (r.Ok? && NarrowArgs(names, args) ==> |r.value.value| <= 1)
    decreases fuel, 1, 0
  {
    if fuel > 0 { CalmArgList(cfg, names, b, depths, fuel - 1, args); }
  }

  lemma {:induction false} CalmArgList(cfg: Config, names: set<VarId>, b: Bindings, depths: Depths, fuel: nat, args: seq<Arg>)
    requires CalmProgram(cfg, names) && NarrowData(names, b) && CalmArgs(names, args)
    ensures var r := ExpandArgList(cfg, false, b, depths, fuel, args);
      r != Err(ManyInModifier) && (r.Ok? && NarrowArgs(names, args) ==> |r.value.value| <= 1)
    decreases fuel, 6, |args|
  {
    if args != [] {
      assert args[0] in args;
      CalmArg(cfg, names, b, depths, fuel, args[0]);
      CalmArgList(cfg, names, b, depths, fuel, args[1..]);
      var rest := ExpandArgList(cfg, false, b, depths, fuel, args[1..]);
      if |args| == 1 { assert rest == Plain([]); }
    }
  }

  lemma {:induction false} CalmArg(cfg: Config, names: set<VarId>, b: Bindings, depths: Depths, fuel: nat, arg: Arg)
    requires CalmProgram(cfg, names) && NarrowData(names, b) && CalmTerms(names, arg.terms)
    ensures var r := ExpandArg(cfg, false, b, depths, fuel, arg);
      r != Err(ManyInModifier) && (r.Ok? && NarrowTerms(names, arg.terms) ==> |r.value.value| <= 1)
    decreases fuel, 5, 0
  {
    var e: Outcome<Expansion> := Plain(Itself);
    if |arg.terms| == 1 {
      CalmStandalone(cfg, names, b, depths, fuel, arg.terms[0]);
      e := ExpandStandalone(cfg, false, b, depths, fuel, arg.terms[0]);
    }
    if e.Ok? {
      match e.value.value
      case Itself => CalmScalars(cfg, names, b, depths, fuel, arg.terms);
      case Finished(_) =>
      case More(script, inner, deeper) =>
        if |script| == 1 {
          assert script[0] in script;
          CalmArguments(cfg, names, inner, deeper, fuel, script[0].args);
        }
    }
  }

  lemma CalmShape(names: set<VarId>, script: Script)
    requires CalmScript(names, script) && ShapeOf(script).Single?
    ensures CalmTerms(names, ShapeOf(script).terms)
  {
    assert script[0] in script && script[0].args[0] in script[0].args;
  }

  // ---------------------------------------------------------------- terms

  lemma {:induction false} CalmScalars(cfg: Config, names: set<VarId>, b: Bindings, depths: Depths, fuel: nat, ts: seq<Term>)
    requires CalmProgram(cfg, names) && NarrowData(names, b) && CalmTerms(names, ts)
    ensures ExpandTerms(cfg, false, b, depths, fuel, ts) != Err(ManyInModifier)
    decreases fuel, 1, 0
  {
    if fuel > 0 { CalmTermList(cfg, names, b, depths, fuel - 1, ts); }
  }

  lemma {:induction false} CalmTermList(cfg: Config, names: set<VarId>, b: Bindings, depths: Depths, fuel: nat, ts: seq<Term>)
    requires CalmProgram(cfg, names) && NarrowData(names, b) && CalmTerms(names, ts)
    ensures ExpandTermList(cfg, false, b, depths, fuel, ts) != Err(ManyInModifier)
    decreases fuel, 6, |ts|
  {
    if ts != [] {
      CalmTerm(cfg, names, b, depths, fuel, ts[0]);
      CalmTermList(cfg, names, b, depths, fuel, ts[1..]);
    }
  }

  lemma {:induction false} CalmTerm(cfg: Config, names: set<VarId>, b: Bindings, depths: Depths, fuel: nat, t: Term)
    requires CalmProgram(cfg, names) && NarrowData(names, b) && Calm(names, t)
    ensures ExpandTerm(cfg, false, b, depths, fuel, t) != Err(ManyInModifier)
    decreases fuel, 1, 0
  {
    if fuel > 0 {
      match t
      case Var(id) => CalmScalarVar(cfg, names, b, depths, fuel - 1, id);
      case Xfm(mods, body) => CalmXfm(cfg, names, b, depths, fuel - 1, mods, body);
      case Call(fn, params) =>
        CalmBindings(cfg, names, b, depths, fuel - 1, fn, params);
        var inner := CallBindings(cfg, false, b, depths, fuel - 1, fn, params);
        if inner.Ok? {
          assert CalmMacro(cfg, names, fn);
          CalmTermsIn(cfg, names, inner.value.value, depths, fuel - 1, cfg.parse(cfg.macros[fn]));
        }
      case If(cond, yes, no) =>
        CalmCondition(cfg, names, b, depths, fuel - 1, cond);
        var holds := ExpandCondition(cfg, false, b, depths, fuel - 1, cond);
        if holds.Ok? {
          var branch := if holds.value.value then yes else no;
          if |branch.args| == 1 {
            assert branch.args[0] in branch.args;
            CalmScalars(cfg, names, b, depths, fuel - 1, branch.args[0].terms);
          }
        }
      case _ =>
    }
  }

  lemma {:induction false} CalmTermsIn(cfg: Config, names: set<VarId>, b: Bindings, depths: Depths, fuel: nat, script: Script)
    requires CalmProgram(cfg, names) && NarrowData(names, b) && CalmScript(names, script)
    ensures ExpandTermsIn(cfg, false, b, depths, fuel, script) != Err(ManyInModifier)
    decreases fuel, 2, 0
  {
    if ShapeOf(script).Single? {
      CalmShape(names, script);
      CalmScalars(cfg, names, b, depths, fuel, ShapeOf(script).terms);
    }
  }

  lemma {:induction false} CalmScalarVar(cfg: Config, names: set<VarId>, b: Bindings, depths: Depths, fuel: nat, id: VarId)
    requires CalmProgram(cfg, names) && NarrowData(names, b)
    ensures ExpandVar(cfg, false, b, depths, fuel, id) != Err(ManyInModifier)
    decreases fuel, 3, 0
  {
    var meaning := MeaningOf(cfg, b, depths, id);
    if meaning.Code? && ShapeOf(meaning.script).Single? {
      assert CalmVariable(cfg, names, id, DepthOf(depths, id));
      CalmShape(names, meaning.script);
      CalmScalars(cfg, names, b, Enter(depths, id, true), fuel, ShapeOf(meaning.script).terms);
    }
  }

  // ---------------------------------------------------------------- transformations

  lemma {:induction false} CalmXfm(cfg: Config, names: set<VarId>, b: Bindings, depths: Depths, fuel: nat, mods: seq<Modifier>, body: seq<Arg>)
    requires CalmProgram(cfg, names) && NarrowData(names, b) && Calm(names, Xfm(mods, body))
    ensures ExpandXfm(cfg, false, b, depths, fuel, mods, body) != Err(ManyInModifier)
    decreases fuel, 1, 0
  {
    if fuel > 0 {
      CalmMods(cfg, names, b, depths, fuel - 1, mods);
      CalmBody(cfg, names, b, depths, fuel - 1, body);
    }
  }

  lemma {:induction false} CalmBody(cfg: Config, names: set<VarId>, b: Bindings, depths: Depths, fuel: nat, body: seq<Arg>)
    requires CalmProgram(cfg, names) && NarrowData(names, b)
    ensures ExpandBody(cfg, false, b, depths, fuel, body) != Err(ManyInModifier)
    decreases fuel, 3, 0
  {
    if IsVarBody(body) {
      var id := body[0].terms[0].id;
      var meaning := MeaningOf(cfg, b, depths, id);
      if meaning.Code? && |meaning.script| == 1 {
        assert CalmVariable(cfg, names, id, DepthOf(depths, id));
        CalmWhole(cfg, names, b, Enter(depths, id, true), fuel, meaning.script);
      }
    }
  }

  lemma {:induction false} CalmMods(cfg: Config, names: set<VarId>, b: Bindings, depths: Depths, fuel: nat, mods: seq<Modifier>)
    requires CalmProgram(cfg, names) && NarrowData(names, b) && forall m :: m in mods ==> CalmInside(names, m.args)
    ensures ExpandMods(cfg, false, b, depths, fuel, mods) != Err(ManyInModifier)
    decreases fuel, 6, |mods|
  {
    if mods != [] {
      assert mods[0] in mods;
      CalmModArgs(cfg, names, b, depths, fuel, mods[0].args);
      CalmMods(cfg, names, b, depths, fuel, mods[1..]);
    }
  }

  lemma {:induction false} CalmModArgs(cfg: Config, names: set<VarId>, b: Bindings, depths: Depths, fuel: nat, args: seq<Arg>)
    requires CalmProgram(cfg, names) && NarrowData(names, b) && CalmInside(names, args)
    ensures ExpandModArgs(cfg, false, b, depths, fuel, args) != Err(ManyInModifier)
    decreases fuel, 5, |args|
  {
    if args != [] {
      assert args[0] in args;
      CalmModList(cfg, names, b, depths, fuel, args[0].terms);
      CalmModArgs(cfg, names, b, depths, fuel, args[1..]);
    }
  }

  lemma {:induction false} CalmModList(cfg: Config, names: set<VarId>, b: Bindings, depths: Depths, fuel: nat, ts: seq<Term>)
    requires CalmProgram(cfg, names) && NarrowData(names, b) && CalmModTerms(names, ts)
    ensures ExpandModTerms(cfg, false, b, depths, fuel, ts) != Err(ManyInModifier)
    decreases fuel, 4, |ts|
  {
    if ts != [] {
      CalmModTerm(cfg, names, b, depths, fuel, ts[0]);
      CalmModList(cfg, names, b, depths, fuel, ts[1..]);
    }
  }

  lemma {:induction false} CalmModTerm(cfg: Config, names: set<VarId>, b: Bindings, depths: Depths, fuel: nat, t: Term)
    requires CalmProgram(cfg, names) && NarrowData(names, b) && Calm(names, t) && (t.Var? ==> t.id in names)
    ensures ExpandModTerm(cfg, false, b, depths, fuel, t) != Err(ManyInModifier)
    decreases fuel, 1, 0
  {
    if fuel > 0 {
      match t
      case Xfm(mods, body) => CalmXfm(cfg, names, b, depths, fuel - 1, mods, body);
      case Var(id) =>
        var meaning := MeaningOf(cfg, b, depths, id);
        if meaning.Code? && ShapeOf(meaning.script).Single? {
          assert CalmVariable(cfg, names, id, DepthOf(depths, id));
          CalmModList(cfg, names, b, Enter(depths, id, true), fuel - 1, ShapeOf(meaning.script).terms);
        }
      case _ =>
    }
  }

  /** If all names that modifier arguments mention are given at most one argument wherever they are
      bound or defined, the inliner does what the script means. */
  lemma SingleArgumentsAgree(cfg: Config, names: set<VarId>, script: Script, limit: nat)
    requires ParserClean(cfg) && ParsedScript(script) && limit >= MAX_DEPTH
    requires CalmProgram(cfg, names) && CalmScript(names, script)
    ensures Inlined(cfg, script) == Err(TooDeep) || Inlined(cfg, script) == Means(cfg, script, limit)
  {
    CalmWhole(cfg, names, map[], map[], limit, script);
    InliningPreservesMeaning(cfg, script, limit);
  }
}
