/** The inliner preserves meaning, but for parameters that stand for several arguments and are mentioned
    in modifier arguments. */
module InlinerMeaning {
  import opened Wrappers
  import opened InlinerSyntax
  import opened Inliner
  import opened InlinerReference
  import opened InlinerFuel
  import opened InlinerTheory

  /** By name there is always an outcome, and it is the meaning wherever there is one. */
  ghost predicate Kept<T>(named: Outcome<T>, meant: Outcome<T>) {
    named != Err(ManyInModifier) && (meant != Err(ManyInModifier) ==> named == meant)
  }

  lemma {:induction false} NamedBindings(cfg: Config, b: Bindings, depths: Depths, fuel: nat, fn: VarId, params: seq<MacroArg>)
    ensures Kept(CallBindings(cfg, true, b, depths, fuel, fn, params), CallBindings(cfg, false, b, depths, fuel, fn, params))
    decreases fuel, 3, 0
  {
    NamedActuals(cfg, b, depths, fuel, params, map[]);
  }

  lemma {:induction false} NamedActuals(cfg: Config, b: Bindings, depths: Depths, fuel: nat, params: seq<MacroArg>, done: Bindings)
    ensures Kept(Actuals(cfg, true, b, depths, fuel, params, done), Actuals(cfg, false, b, depths, fuel, params, done))
    decreases fuel, 2, |params|
  {
    if params != [] {
      var name := params[0].name;
      var value := Expand(cfg, true, b, depths, fuel, params[0].value);
      NamedScript(cfg, b, depths, fuel, params[0].value);
      if value.Ok? {
        var before := if name in done then done[name] else [];
        NamedActuals(cfg, b, depths, fuel, params[1..], done[name := before + value.value.value]);
      }
    }
  }

  lemma {:induction false} NamedStandalone(cfg: Config, b: Bindings, depths: Depths, fuel: nat, t: Term)
    ensures Kept(ExpandStandalone(cfg, true, b, depths, fuel, t), ExpandStandalone(cfg, false, b, depths, fuel, t))
    decreases fuel, 4, 0
  {
    match t
    case Call(fn, params) => NamedBindings(cfg, b, depths, fuel, fn, params);
    case If(cond, yes, no) => NamedCondition(cfg, b, depths, fuel, cond);
    case _ =>
  }

  lemma {:induction false} NamedCondition(cfg: Config, b: Bindings, depths: Depths, fuel: nat, cond: Term)
    ensures Kept(ExpandCondition(cfg, true, b, depths, fuel, cond), ExpandCondition(cfg, false, b, depths, fuel, cond))
    decreases fuel, 3, 0
  {
    NamedTerm(cfg, b, depths, fuel, cond);
  }

  lemma {:induction false} NamedScript(cfg: Config, b: Bindings, depths: Depths, fuel: nat, script: Script)
    ensures Kept(Expand(cfg, true, b, depths, fuel, script), Expand(cfg, false, b, depths, fuel, script))
    decreases fuel, 1, 0
  {
    if fuel > 0 { NamedList(cfg, b, depths, fuel - 1, script); }
  }

  lemma {:induction false} NamedList(cfg: Config, b: Bindings, depths: Depths, fuel: nat, script: Script)
    ensures Kept(ExpandList(cfg, true, b, depths, fuel, script), ExpandList(cfg, false, b, depths, fuel, script))
    decreases fuel, 6, |script|
  {
    if script != [] {
      NamedCommand(cfg, b, depths, fuel, script[0]);
      NamedList(cfg, b, depths, fuel, script[1..]);
    }
  }

  lemma {:induction false} NamedCommand(cfg: Config, b: Bindings, depths: Depths, fuel: nat, cmd: Cmd)
    ensures Kept(ExpandCommand(cfg, true, b, depths, fuel, cmd), ExpandCommand(cfg, false, b, depths, fuel, cmd))
    decreases fuel, 5, 0
  {
    var single := |cmd.args| == 1 && |cmd.args[0].terms| == 1;
    if single { NamedStandalone(cfg, b, depths, fuel, cmd.args[0].terms[0]); }
    var e := if single then ExpandStandalone(cfg, true, b, depths, fuel, cmd.args[0].terms[0]) else Plain(Itself);
    if e.Ok? {
      match e.value.value
      case Itself => NamedArgs(cfg, b, depths, fuel, cmd.args);
      case Finished(_) =>
      case More(script, inner, deeper) => NamedScript(cfg, inner, deeper, fuel, script);
    }
  }

  lemma {:induction false} NamedArgs(cfg: Config, b: Bindings, depths: Depths, fuel: nat, args: seq<Arg>)
    ensures Kept(ExpandArgs(cfg, true, b, depths, fuel, args), ExpandArgs(cfg, false, b, depths, fuel, args))
    decreases fuel, 1, 0
  {
    if fuel > 0 { NamedArgList(cfg, b, depths, fuel - 1, args); }
  }

  lemma {:induction false} NamedArgList(cfg: Config, b: Bindings, depths: Depths, fuel: nat, args: seq<Arg>)
    ensures Kept(ExpandArgList(cfg, true, b, depths, fuel, args), ExpandArgList(cfg, false, b, depths, fuel, args))
    decreases fuel, 6, |args|
  {
    if args != [] {
      NamedArg(cfg, b, depths, fuel, args[0]);
      NamedArgList(cfg, b, depths, fuel, args[1..]);
    }
  }

  lemma {:induction false} NamedArg(cfg: Config, b: Bindings, depths: Depths, fuel: nat, arg: Arg)
    ensures Kept(ExpandArg(cfg, true, b, depths, fuel, arg), ExpandArg(cfg, false, b, depths, fuel, arg))
    decreases fuel, 5, 0
  {
    if |arg.terms| == 1 { NamedStandalone(cfg, b, depths, fuel, arg.terms[0]); }
    var e := if |arg.terms| == 1 then ExpandStandalone(cfg, true, b, depths, fuel, arg.terms[0]) else Plain(Itself);
    if e.Ok? {
      match e.value.value
      case Itself => NamedTerms(cfg, b, depths, fuel, arg.terms);
      case Finished(_) =>
      case More(script, inner, deeper) =>
        if |script| == 1 { NamedArgs(cfg, inner, deeper, fuel, script[0].args); }
    }
  }

  lemma {:induction false} NamedTerms(cfg: Config, b: Bindings, depths: Depths, fuel: nat, ts: seq<Term>)
    ensures Kept(ExpandTerms(cfg, true, b, depths, fuel, ts), ExpandTerms(cfg, false, b, depths, fuel, ts))
    decreases fuel, 1, 0
  {
    if fuel > 0 { NamedTermList(cfg, b, depths, fuel - 1, ts); }
  }

  lemma {:induction false} NamedTermList(cfg: Config, b: Bindings, depths: Depths, fuel: nat, ts: seq<Term>)
    ensures Kept(ExpandTermList(cfg, true, b, depths, fuel, ts), ExpandTermList(cfg, false, b, depths, fuel, ts))
    decreases fuel, 6, |ts|
  {
    if ts != [] {
      NamedTerm(cfg, b, depths, fuel, ts[0]);
      NamedTermList(cfg, b, depths, fuel, ts[1..]);
    }
  }

  lemma {:induction false} NamedTerm(cfg: Config, b: Bindings, depths: Depths, fuel: nat, t: Term)
    ensures Kept(ExpandTerm(cfg, true, b, depths, fuel, t), ExpandTerm(cfg, false, b, depths, fuel, t))
    decreases fuel, 1, 0
  {
    if fuel > 0 {
      match t
      case Var(id) => NamedVar(cfg, b, depths, fuel - 1, id);
      case Xfm(mods, body) => NamedXfm(cfg, b, depths, fuel - 1, mods, body);
      case Call(fn, params) => NamedCall(cfg, b, depths, fuel, fn, params);
      case If(cond, yes, no) => NamedIf(cfg, b, depths, fuel, cond, yes, no);
      case _ =>
    }
  }

  lemma {:induction false} NamedCall(cfg: Config, b: Bindings, depths: Depths, fuel: nat, fn: VarId, params: seq<MacroArg>)
    requires fuel > 0
    ensures Kept(ExpandTerm(cfg, true, b, depths, fuel, Call(fn, params)), ExpandTerm(cfg, false, b, depths, fuel, Call(fn, params)))
    decreases fuel, 0, 0
  {
    NamedBindings(cfg, b, depths, fuel - 1, fn, params);
    var inner := CallBindings(cfg, true, b, depths, fuel - 1, fn, params);
    if inner.Ok? {
      var shape := ShapeOf(cfg.parse(cfg.macros[fn]));
      if shape.Single? { NamedTerms(cfg, inner.value.value, depths, fuel - 1, shape.terms); }
    }
  }

  lemma {:induction false} NamedIf(cfg: Config, b: Bindings, depths: Depths, fuel: nat, cond: Term, yes: Cmd, no: Cmd)
    requires fuel > 0
    ensures Kept(ExpandTerm(cfg, true, b, depths, fuel, If(cond, yes, no)), ExpandTerm(cfg, false, b, depths, fuel, If(cond, yes, no)))
    decreases fuel, 0, 0
  {
    NamedCondition(cfg, b, depths, fuel - 1, cond);
    var holds := ExpandCondition(cfg, true, b, depths, fuel - 1, cond);
    if holds.Ok? {
      var branch := if holds.value.value then yes else no;
      if |branch.args| == 1 { NamedTerms(cfg, b, depths, fuel - 1, branch.args[0].terms); }
    }
  }

  lemma {:induction false} NamedVar(cfg: Config, b: Bindings, depths: Depths, fuel: nat, id: VarId)
    ensures Kept(ExpandVar(cfg, true, b, depths, fuel, id), ExpandVar(cfg, false, b, depths, fuel, id))
    decreases fuel, 3, 0
  {
    match MeaningOf(cfg, b, depths, id)
    case Code(script) =>
      var shape := ShapeOf(script);
      if shape.Single? { NamedTerms(cfg, b, Enter(depths, id, true), fuel, shape.terms); }
    case _ =>
  }

  lemma {:induction false} NamedXfm(cfg: Config, b: Bindings, depths: Depths, fuel: nat, mods: seq<Modifier>, body: seq<Arg>)
    ensures Kept(ExpandXfm(cfg, true, b, depths, fuel, mods, body), ExpandXfm(cfg, false, b, depths, fuel, mods, body))
    decreases fuel, 1, 0
  {
    if fuel > 0 {
      NamedMods(cfg, b, depths, fuel - 1, mods);
      NamedBody(cfg, b, depths, fuel - 1, body);
    }
  }

  lemma {:induction false} NamedBody(cfg: Config, b: Bindings, depths: Depths, fuel: nat, body: seq<Arg>)
    ensures Kept(ExpandBody(cfg, true, b, depths, fuel, body), ExpandBody(cfg, false, b, depths, fuel, body))
    decreases fuel, 3, 0
  {
    if IsVarBody(body) {
      var id := body[0].terms[0].id;
      match MeaningOf(cfg, b, depths, id)
      case Code(script) =>
        if |script| == 1 { NamedScript(cfg, b, Enter(depths, id, true), fuel, script); }
      case _ =>
    }
  }

  lemma {:induction false} NamedMods(cfg: Config, b: Bindings, depths: Depths, fuel: nat, mods: seq<Modifier>)
    ensures Kept(ExpandMods(cfg, true, b, depths, fuel, mods), ExpandMods(cfg, false, b, depths, fuel, mods))
    decreases fuel, 6, |mods|
  {
    if mods != [] {
      NamedModArgs(cfg, b, depths, fuel, mods[0].args);
      NamedMods(cfg, b, depths, fuel, mods[1..]);
    }
  }

  lemma {:induction false} NamedModArgs(cfg: Config, b: Bindings, depths: Depths, fuel: nat, args: seq<Arg>)
    ensures Kept(ExpandModArgs(cfg, true, b, depths, fuel, args), ExpandModArgs(cfg, false, b, depths, fuel, args))
    decreases fuel, 5, |args|
  {
    if args != [] {
      NamedModTerms(cfg, b, depths, fuel, args[0].terms);
      NamedModArgs(cfg, b, depths, fuel, args[1..]);
    }
  }

  lemma {:induction false} NamedModTerms(cfg: Config, b: Bindings, depths: Depths, fuel: nat, ts: seq<Term>)
    ensures Kept(ExpandModTerms(cfg, true, b, depths, fuel, ts), ExpandModTerms(cfg, false, b, depths, fuel, ts))
    decreases fuel, 4, |ts|
  {
    if ts != [] {
      NamedModTerm(cfg, b, depths, fuel, ts[0]);
      NamedModTerms(cfg, b, depths, fuel, ts[1..]);
    }
  }

  lemma {:induction false} NamedModTerm(cfg: Config, b: Bindings, depths: Depths, fuel: nat, t: Term)
    ensures Kept(ExpandModTerm(cfg, true, b, depths, fuel, t), ExpandModTerm(cfg, false, b, depths, fuel, t))
    decreases fuel, 1, 0
  {
    if fuel > 0 {
      match t
      case Xfm(mods, body) => NamedXfm(cfg, b, depths, fuel - 1, mods, body);
      case Var(id) =>
        var meaning := MeaningOf(cfg, b, depths, id);
        if meaning.Code? && ShapeOf(meaning.script).Single? {
          NamedModTerms(cfg, b, Enter(depths, id, true), fuel - 1, ShapeOf(meaning.script).terms);
        }
      case _ =>
    }
  }

  /** What a script means under a nesting limit. */
  ghost function Means(cfg: Config, script: Script, limit: nat): Outcome<Script> {
    Expand(cfg, false, map[], map[], limit, script)
  }

  /** Inlining preserves meaning: for every script and configuration, unless the nesting limit stops the
      inliner, it agrees with the reference expander under that limit or any higher one, in result,
      macro calls and failure, if and only if the script has a meaning; and no locked variable is
      left in a result. */
  lemma InliningPreservesMeaning(cfg: Config, script: Script, limit: nat)
    requires ParserClean(cfg) && ParsedScript(script) && limit >= MAX_DEPTH
    ensures Inlined(cfg, script) == Err(TooDeep) ||
      (Inlined(cfg, script) == Means(cfg, script, limit) <==> Means(cfg, script, limit) != Err(ManyInModifier))
    ensures Inlined(cfg, script).Ok? ==> ParsedScript(Inlined(cfg, script).value.value)
  {
    InliningIsByName(cfg, script);
    if WithinLimit(Inlined(cfg, script)) {
      NamedScript(cfg, map[], map[], MAX_DEPTH, script);
      LimitIndependent(cfg, false, map[], map[], MAX_DEPTH, limit, script);
    }
  }
}
