/** The nesting limit of the reference expander is no part of its meaning: once the limit is high
    enough not to be hit, raising it changes nothing. */
module InlinerFuel {
  import opened Wrappers
  import opened InlinerSyntax
  import opened Inliner
  import opened InlinerReference

  /** `now`, computed with a higher limit, agrees with `was` unless `was` hit the limit. */
  ghost predicate Settled<T>(was: Result<T, Failure>, now: Result<T, Failure>) {
    WithinLimit(was) ==> now == was
  }

  lemma {:induction false} MoreBindings(cfg: Config, byName: bool, b: Bindings, depths: Depths, fuel: nat, fn: VarId, params: seq<MacroArg>)
    ensures Settled(CallBindings(cfg, byName, b, depths, fuel, fn, params), CallBindings(cfg, byName, b, depths, fuel + 1, fn, params))
    decreases fuel, 3, 0
  {
    MoreActuals(cfg, byName, b, depths, fuel, params, map[]);
  }

  lemma {:induction false} MoreActuals(cfg: Config, byName: bool, b: Bindings, depths: Depths, fuel: nat, params: seq<MacroArg>, done: Bindings)
    ensures Settled(Actuals(cfg, byName, b, depths, fuel, params, done), Actuals(cfg, byName, b, depths, fuel + 1, params, done))
    decreases fuel, 2, |params|
  {
    if params != [] {
      var name := params[0].name;
      var value := Expand(cfg, byName, b, depths, fuel, params[0].value);
      MoreScript(cfg, byName, b, depths, fuel, params[0].value);
      if value.Ok? {
        var before := if name in done then done[name] else [];
        MoreActuals(cfg, byName, b, depths, fuel, params[1..], done[name := before + value.value.value]);
      }
    }
  }

  lemma {:induction false} MoreStandalone(cfg: Config, byName: bool, b: Bindings, depths: Depths, fuel: nat, t: Term)
    ensures Settled(ExpandStandalone(cfg, byName, b, depths, fuel, t), ExpandStandalone(cfg, byName, b, depths, fuel + 1, t))
    decreases fuel, 4, 0
  {
    match t
    case Call(fn, params) => MoreBindings(cfg, byName, b, depths, fuel, fn, params);
    case If(cond, yes, no) => MoreCondition(cfg, byName, b, depths, fuel, cond);
    case _ =>
  }

  lemma {:induction false} MoreCondition(cfg: Config, byName: bool, b: Bindings, depths: Depths, fuel: nat, cond: Term)
    ensures Settled(ExpandCondition(cfg, byName, b, depths, fuel, cond), ExpandCondition(cfg, byName, b, depths, fuel + 1, cond))
    decreases fuel, 3, 0
  {
    MoreTerm(cfg, byName, b, depths, fuel, cond);
  }

  lemma {:induction false} MoreScript(cfg: Config, byName: bool, b: Bindings, depths: Depths, fuel: nat, script: Script)
    ensures Settled(Expand(cfg, byName, b, depths, fuel, script), Expand(cfg, byName, b, depths, fuel + 1, script))
    decreases fuel, 1, 0
  {
    if fuel > 0 { MoreList(cfg, byName, b, depths, fuel - 1, script); }
  }

  lemma {:induction false} MoreList(cfg: Config, byName: bool, b: Bindings, depths: Depths, fuel: nat, script: Script)
    ensures Settled(ExpandList(cfg, byName, b, depths, fuel, script), ExpandList(cfg, byName, b, depths, fuel + 1, script))
    decreases fuel, 6, |script|
  {
    if script != [] {
      MoreCommand(cfg, byName, b, depths, fuel, script[0]);
      MoreList(cfg, byName, b, depths, fuel, script[1..]);
    }
  }

  lemma {:induction false} MoreCommand(cfg: Config, byName: bool, b: Bindings, depths: Depths, fuel: nat, cmd: Cmd)
    ensures Settled(ExpandCommand(cfg, byName, b, depths, fuel, cmd), ExpandCommand(cfg, byName, b, depths, fuel + 1, cmd))
    decreases fuel, 5, 0
  {
    var single := |cmd.args| == 1 && |cmd.args[0].terms| == 1;
    if single { MoreStandalone(cfg, byName, b, depths, fuel, cmd.args[0].terms[0]); }
    var e := if single then ExpandStandalone(cfg, byName, b, depths, fuel, cmd.args[0].terms[0]) else Plain(Itself);
    if e.Ok? {
      match e.value.value
      case Itself => MoreArgs(cfg, byName, b, depths, fuel, cmd.args);
      case Finished(_) =>
      case More(script, inner, deeper) => MoreScript(cfg, byName, inner, deeper, fuel, script);
    }
  }

  lemma {:induction false} MoreArgs(cfg: Config, byName: bool, b: Bindings, depths: Depths, fuel: nat, args: seq<Arg>)
    ensures Settled(ExpandArgs(cfg, byName, b, depths, fuel, args), ExpandArgs(cfg, byName, b, depths, fuel + 1, args))
    decreases fuel, 1, 0
  {
    if fuel > 0 { MoreArgList(cfg, byName, b, depths, fuel - 1, args); }
  }

  lemma {:induction false} MoreArgList(cfg: Config, byName: bool, b: Bindings, depths: Depths, fuel: nat, args: seq<Arg>)
    ensures Settled(ExpandArgList(cfg, byName, b, depths, fuel, args), ExpandArgList(cfg, byName, b, depths, fuel + 1, args))
    decreases fuel, 6, |args|
  {
    if args != [] {
      MoreArg(cfg, byName, b, depths, fuel, args[0]);
      MoreArgList(cfg, byName, b, depths, fuel, args[1..]);
    }
  }

  lemma {:induction false} MoreArg(cfg: Config, byName: bool, b: Bindings, depths: Depths, fuel: nat, arg: Arg)
    ensures Settled(ExpandArg(cfg, byName, b, depths, fuel, arg), ExpandArg(cfg, byName, b, depths, fuel + 1, arg))
    decreases fuel, 5, 0
  {
    if |arg.terms| == 1 { MoreStandalone(cfg, byName, b, depths, fuel, arg.terms[0]); }
    var e := if |arg.terms| == 1 then ExpandStandalone(cfg, byName, b, depths, fuel, arg.terms[0]) else Plain(Itself);
    if e.Ok? {
      match e.value.value
      case Itself => MoreTerms(cfg, byName, b, depths, fuel, arg.terms);
      case Finished(_) =>
      case More(script, inner, deeper) =>
        if |script| == 1 { MoreArgs(cfg, byName, inner, deeper, fuel, script[0].args); }
    }
  }

  lemma {:induction false} MoreTerms(cfg: Config, byName: bool, b: Bindings, depths: Depths, fuel: nat, ts: seq<Term>)
    ensures Settled(ExpandTerms(cfg, byName, b, depths, fuel, ts), ExpandTerms(cfg, byName, b, depths, fuel + 1, ts))
    decreases fuel, 1, 0
  {
    if fuel > 0 { MoreTermList(cfg, byName, b, depths, fuel - 1, ts); }
  }

  lemma {:induction false} MoreTermList(cfg: Config, byName: bool, b: Bindings, depths: Depths, fuel: nat, ts: seq<Term>)
    ensures Settled(ExpandTermList(cfg, byName, b, depths, fuel, ts), ExpandTermList(cfg, byName, b, depths, fuel + 1, ts))
    decreases fuel, 6, |ts|
  {
    if ts != [] {
      MoreTerm(cfg, byName, b, depths, fuel, ts[0]);
      MoreTermList(cfg, byName, b, depths, fuel, ts[1..]);
    }
  }

  lemma {:induction false} MoreTerm(cfg: Config, byName: bool, b: Bindings, depths: Depths, fuel: nat, t: Term)
    ensures Settled(ExpandTerm(cfg, byName, b, depths, fuel, t), ExpandTerm(cfg, byName, b, depths, fuel + 1, t))
    decreases fuel, 1, 0
  {
    if fuel > 0 {
      match t
      case Var(id) => MoreVar(cfg, byName, b, depths, fuel - 1, id);
      case Xfm(mods, body) => MoreXfm(cfg, byName, b, depths, fuel - 1, mods, body);
      case Call(fn, params) => MoreCall(cfg, byName, b, depths, fuel, fn, params);
      case If(cond, yes, no) => MoreIf(cfg, byName, b, depths, fuel, cond, yes, no);
      case _ =>
    }
  }

  lemma {:induction false} MoreCall(cfg: Config, byName: bool, b: Bindings, depths: Depths, fuel: nat, fn: VarId, params: seq<MacroArg>)
    requires fuel > 0
    ensures Settled(ExpandTerm(cfg, byName, b, depths, fuel, Call(fn, params)), ExpandTerm(cfg, byName, b, depths, fuel + 1, Call(fn, params)))
    decreases fuel, 0, 0
  {
    MoreBindings(cfg, byName, b, depths, fuel - 1, fn, params);
    var inner := CallBindings(cfg, byName, b, depths, fuel - 1, fn, params);
    if inner.Ok? {
      var shape := ShapeOf(cfg.parse(cfg.macros[fn]));
      if shape.Single? { MoreTerms(cfg, byName, inner.value.value, depths, fuel - 1, shape.terms); }
    }
  }

  lemma {:induction false} MoreIf(cfg: Config, byName: bool, b: Bindings, depths: Depths, fuel: nat, cond: Term, yes: Cmd, no: Cmd)
    requires fuel > 0
    ensures Settled(ExpandTerm(cfg, byName, b, depths, fuel, If(cond, yes, no)), ExpandTerm(cfg, byName, b, depths, fuel + 1, If(cond, yes, no)))
    decreases fuel, 0, 0
  {
    MoreCondition(cfg, byName, b, depths, fuel - 1, cond);
    var holds := ExpandCondition(cfg, byName, b, depths, fuel - 1, cond);
    if holds.Ok? {
      var branch := if holds.value.value then yes else no;
      if |branch.args| == 1 { MoreTerms(cfg, byName, b, depths, fuel - 1, branch.args[0].terms); }
    }
  }

  lemma {:induction false} MoreVar(cfg: Config, byName: bool, b: Bindings, depths: Depths, fuel: nat, id: VarId)
    ensures Settled(ExpandVar(cfg, byName, b, depths, fuel, id), ExpandVar(cfg, byName, b, depths, fuel + 1, id))
    decreases fuel, 3, 0
  {
    match MeaningOf(cfg, b, depths, id)
    case Code(script) =>
      var shape := ShapeOf(script);
      if shape.Single? { MoreTerms(cfg, byName, b, Enter(depths, id, true), fuel, shape.terms); }
    case _ =>
  }

  lemma {:induction false} MoreXfm(cfg: Config, byName: bool, b: Bindings, depths: Depths, fuel: nat, mods: seq<Modifier>, body: seq<Arg>)
    ensures Settled(ExpandXfm(cfg, byName, b, depths, fuel, mods, body), ExpandXfm(cfg, byName, b, depths, fuel + 1, mods, body))
    decreases fuel, 1, 0
  {
    if fuel > 0 {
      MoreMods(cfg, byName, b, depths, fuel - 1, mods);
      MoreBody(cfg, byName, b, depths, fuel - 1, body);
    }
  }

  lemma {:induction false} MoreBody(cfg: Config, byName: bool, b: Bindings, depths: Depths, fuel: nat, body: seq<Arg>)
    ensures Settled(ExpandBody(cfg, byName, b, depths, fuel, body), ExpandBody(cfg, byName, b, depths, fuel + 1, body))
    decreases fuel, 3, 0
  {
    if IsVarBody(body) {
      var id := body[0].terms[0].id;
      match MeaningOf(cfg, b, depths, id)
      case Code(script) =>
        if |script| == 1 { MoreScript(cfg, byName, b, Enter(depths, id, true), fuel, script); }
      case _ =>
    }
  }

  lemma {:induction false} MoreMods(cfg: Config, byName: bool, b: Bindings, depths: Depths, fuel: nat, mods: seq<Modifier>)
    ensures Settled(ExpandMods(cfg, byName, b, depths, fuel, mods), ExpandMods(cfg, byName, b, depths, fuel + 1, mods))
    decreases fuel, 6, |mods|
  {
    if mods != [] {
      MoreModArgs(cfg, byName, b, depths, fuel, mods[0].args);
      MoreMods(cfg, byName, b, depths, fuel, mods[1..]);
    }
  }

  lemma {:induction false} MoreModArgs(cfg: Config, byName: bool, b: Bindings, depths: Depths, fuel: nat, args: seq<Arg>)
    ensures Settled(ExpandModArgs(cfg, byName, b, depths, fuel, args), ExpandModArgs(cfg, byName, b, depths, fuel + 1, args))
    decreases fuel, 5, |args|
  {
    if args != [] {
      MoreModTerms(cfg, byName, b, depths, fuel, args[0].terms);
      MoreModArgs(cfg, byName, b, depths, fuel, args[1..]);
    }
  }

  lemma {:induction false} MoreModTerms(cfg: Config, byName: bool, b: Bindings, depths: Depths, fuel: nat, ts: seq<Term>)
    ensures Settled(ExpandModTerms(cfg, byName, b, depths, fuel, ts), ExpandModTerms(cfg, byName, b, depths, fuel + 1, ts))
    decreases fuel, 4, |ts|
  {
    if ts != [] {
      MoreModTerm(cfg, byName, b, depths, fuel, ts[0]);
      MoreModTerms(cfg, byName, b, depths, fuel, ts[1..]);
    }
  }

  lemma {:induction false} MoreModTerm(cfg: Config, byName: bool, b: Bindings, depths: Depths, fuel: nat, t: Term)
    ensures Settled(ExpandModTerm(cfg, byName, b, depths, fuel, t), ExpandModTerm(cfg, byName, b, depths, fuel + 1, t))
    decreases fuel, 1, 0
  {
    if fuel > 0 {
      match t
      case Xfm(mods, body) => MoreXfm(cfg, byName, b, depths, fuel - 1, mods, body);
      case Var(id) =>
        var meaning := MeaningOf(cfg, b, depths, id);
        if meaning.Code? && ShapeOf(meaning.script).Single? {
          MoreModTerms(cfg, byName, b, Enter(depths, id, true), fuel - 1, ShapeOf(meaning.script).terms);
        }
      case _ =>
    }
  }

  /** The meaning does not depend on the limit, as long as the limit is not hit. */
  lemma {:induction false} LimitIndependent(cfg: Config, byName: bool, b: Bindings, depths: Depths, low: nat, high: nat, script: Script)
    requires low <= high && WithinLimit(Expand(cfg, byName, b, depths, low, script))
    ensures Expand(cfg, byName, b, depths, high, script) == Expand(cfg, byName, b, depths, low, script)
    decreases high
  {
    if low < high {
      LimitIndependent(cfg, byName, b, depths, low, high - 1, script);
      MoreScript(cfg, byName, b, depths, high - 1, script);
    }
  }
}
