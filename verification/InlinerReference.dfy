/** A reference expander: macro arguments are closed over the scope of the caller.

    An argument is expanded once, where the call is, and the result is data: wherever the callee
    mentions the parameter the result is put in as it is.  Nothing is ever locked, and the scope
    is a plain map from parameters to results.  Where a modifier argument mentions a parameter that
    stands for several arguments there is no place for them: that has no meaning, unless `byName`
    says to leave the name of the parameter there. */
module InlinerReference {
  import opened Wrappers
  import opened InlinerSyntax
  import opened Inliner

  type Bindings = map<VarId, Script>

  /** What a variable stands for: a finished argument, or a legacy definition to be expanded. */
  datatype Meaning = Free | Contradictory | Data(script: Script) | Code(script: Script)

  function MeaningOf(cfg: Config, b: Bindings, depths: Depths, id: VarId): Meaning {
    if id in b then Data(b[id])
    else if !IsVariable(cfg, id) then Free
    else if DepthOf(depths, id) >= |cfg.legacy[id]| then Contradictory
    else Code(DefinitionOf(cfg, cfg.legacy[id][DepthOf(depths, id)]))
  }

  /** What a standalone term stands for: nothing special, finished commands, or more code. */
  datatype Expansion = Itself | Finished(script: Script) | More(script: Script, bindings: Bindings, depths: Depths)

  function VarExpansion(cfg: Config, b: Bindings, depths: Depths, id: VarId): Outcome<Expansion> {
    match MeaningOf(cfg, b, depths, id)
    case Free => Plain(Itself)
    case Contradictory => Err(SelfContradictory)
    case Data(script) => Plain(Finished(script))
    case Code(script) => Plain(More(script, b, Enter(depths, id, true)))
  }

  function CallBindings(cfg: Config, byName: bool, b: Bindings, depths: Depths, fuel: nat, fn: VarId, params: seq<MacroArg>): Outcome<Bindings>
    decreases fuel, 3, 0
  {
    if fn !in cfg.macros then Err(UnknownMacro)
    else
      var actuals :- Actuals(cfg, byName, b, depths, fuel, params, map[]);
      Ok(Made(b + actuals.value, [fn] + actuals.calls))
  }

  function Actuals(cfg: Config, byName: bool, b: Bindings, depths: Depths, fuel: nat, params: seq<MacroArg>, done: Bindings): Outcome<Bindings>
    decreases fuel, 2, |params|
  {
    if params == [] then Plain(done)
    else
      var name := params[0].name;
      var value :- Expand(cfg, byName, b, depths, fuel, params[0].value);
      var before := if name in done then done[name] else [];
      After(value.calls, Actuals(cfg, byName, b, depths, fuel, params[1..], done[name := before + value.value]))
  }

  function ExpandStandalone(cfg: Config, byName: bool, b: Bindings, depths: Depths, fuel: nat, t: Term): Outcome<Expansion>
    decreases fuel, 4, 0
  {
    match t
    case Var(id) => VarExpansion(cfg, b, depths, id)
    case Xfm(mods, body) =>
      if IsBareVar(mods, body) then VarExpansion(cfg, b, depths, body[0].terms[0].id) else Plain(Itself)
    case Call(fn, params) =>
      var inner :- CallBindings(cfg, byName, b, depths, fuel, fn, params);
      Ok(Made(More(cfg.parse(cfg.macros[fn]), inner.value, depths), inner.calls))
    case If(cond, yes, no) =>
      var holds :- ExpandCondition(cfg, byName, b, depths, fuel, cond);
      Ok(Made(More([if holds.value then yes else no], b, depths), holds.calls))
    case _ => Plain(Itself)
  }

  function ExpandCondition(cfg: Config, byName: bool, b: Bindings, depths: Depths, fuel: nat, cond: Term): Outcome<bool>
    decreases fuel, 3, 0
  {
    var ts :- ExpandTerm(cfg, byName, b, depths, fuel, cond);
    if |ts.value| != 1 then Err(BadCondition)
    else match cfg.evalBool(ts.value[0])
      case None => Err(BadCondition)
      case Some(h) => Ok(Made(h, ts.calls))
  }

  /** A script of commands. */
  function Expand(cfg: Config, byName: bool, b: Bindings, depths: Depths, fuel: nat, script: Script): Outcome<Script>
    decreases fuel, 1, 0
  {
    if fuel == 0 then Err(TooDeep) else ExpandList(cfg, byName, b, depths, fuel - 1, script)
  }

  function ExpandList(cfg: Config, byName: bool, b: Bindings, depths: Depths, fuel: nat, script: Script): Outcome<Script>
    decreases fuel, 6, |script|
  {
    if script == [] then Plain([])
    else
      var first :- ExpandCommand(cfg, byName, b, depths, fuel, script[0]);
      var rest :- ExpandList(cfg, byName, b, depths, fuel, script[1..]);
      Ok(Joined(first, rest))
  }

  function ExpandCommand(cfg: Config, byName: bool, b: Bindings, depths: Depths, fuel: nat, cmd: Cmd): Outcome<Script>
    decreases fuel, 5, 0
  {
    var e :-
      if |cmd.args| == 1 && |cmd.args[0].terms| == 1 then ExpandStandalone(cfg, byName, b, depths, fuel, cmd.args[0].terms[0])
      else Plain(Itself);
    match e.value
    case Finished(script) => Plain(script)
    case More(script, inner, deeper) => After(e.calls, Expand(cfg, byName, inner, deeper, fuel, script))
    case Itself =>
      var args :- ExpandArgs(cfg, byName, b, depths, fuel, cmd.args);
      Ok(CommandOf(args))
  }

  function ExpandArgs(cfg: Config, byName: bool, b: Bindings, depths: Depths, fuel: nat, args: seq<Arg>): Outcome<seq<Arg>>
    decreases fuel, 1, 0
  {
    if fuel == 0 then Err(TooDeep) else ExpandArgList(cfg, byName, b, depths, fuel - 1, args)
  }

  function ExpandArgList(cfg: Config, byName: bool, b: Bindings, depths: Depths, fuel: nat, args: seq<Arg>): Outcome<seq<Arg>>
    decreases fuel, 6, |args|
  {
    if args == [] then Plain([])
    else
      var first :- ExpandArg(cfg, byName, b, depths, fuel, args[0]);
      var rest :- ExpandArgList(cfg, byName, b, depths, fuel, args[1..]);
      Ok(Joined(first, rest))
  }

  function ExpandArg(cfg: Config, byName: bool, b: Bindings, depths: Depths, fuel: nat, arg: Arg): Outcome<seq<Arg>>
    decreases fuel, 5, 0
  {
    var e :- if |arg.terms| == 1 then ExpandStandalone(cfg, byName, b, depths, fuel, arg.terms[0]) else Plain(Itself);
    match e.value
    case Itself =>
      var ts :- ExpandTerms(cfg, byName, b, depths, fuel, arg.terms);
      Ok(ArgumentOf(ts))
    case Finished(script) => OnlyCommand(script)
    case More(script, inner, deeper) => After(e.calls, ExpandArgsIn(cfg, byName, inner, deeper, fuel, script))
  }

  function ExpandArgsIn(cfg: Config, byName: bool, b: Bindings, depths: Depths, fuel: nat, script: Script): Outcome<seq<Arg>>
    decreases fuel, 4, 0
  {
    if |script| == 0 then Plain([])
    else if |script| != 1 then Err(MultiCommand)
    else ExpandArgs(cfg, byName, b, depths, fuel, script[0].args)
  }

  function ExpandTerms(cfg: Config, byName: bool, b: Bindings, depths: Depths, fuel: nat, ts: seq<Term>): Outcome<seq<Term>>
    decreases fuel, 1, 0
  {
    if fuel == 0 then Err(TooDeep) else ExpandTermList(cfg, byName, b, depths, fuel - 1, ts)
  }

  function ExpandTermList(cfg: Config, byName: bool, b: Bindings, depths: Depths, fuel: nat, ts: seq<Term>): Outcome<seq<Term>>
    decreases fuel, 6, |ts|
  {
    if ts == [] then Plain([])
    else
      var first :- ExpandTerm(cfg, byName, b, depths, fuel, ts[0]);
      var rest :- ExpandTermList(cfg, byName, b, depths, fuel, ts[1..]);
      Ok(Joined(first, rest))
  }

  function ExpandTerm(cfg: Config, byName: bool, b: Bindings, depths: Depths, fuel: nat, t: Term): Outcome<seq<Term>>
    decreases fuel, 1, 0
  {
    if fuel == 0 then Err(TooDeep)
    else match t
      case Value(_) => Plain([t])
      case Unexpanded(_) => Err(Aborted)
      case IdOrString(_) => Err(Aborted)
      case Var(id) => ExpandVar(cfg, byName, b, depths, fuel - 1, id)
      case Xfm(mods, body) =>
        var x :- ExpandXfm(cfg, byName, b, depths, fuel - 1, mods, body);
        Ok(Made([x.value], x.calls))
      case Call(fn, params) =>
        var inner :- CallBindings(cfg, byName, b, depths, fuel - 1, fn, params);
        After(inner.calls, ExpandTermsIn(cfg, byName, inner.value, depths, fuel - 1, cfg.parse(cfg.macros[fn])))
      case If(cond, yes, no) =>
        var holds :- ExpandCondition(cfg, byName, b, depths, fuel - 1, cond);
        var branch := if holds.value then yes else no;
        if |branch.args| != 1 then Err(MultiArgument)
        else After(holds.calls, ExpandTerms(cfg, byName, b, depths, fuel - 1, branch.args[0].terms))
  }

  function ExpandTermsIn(cfg: Config, byName: bool, b: Bindings, depths: Depths, fuel: nat, script: Script): Outcome<seq<Term>>
    decreases fuel, 2, 0
  {
    match ShapeOf(script)
    case Empty => Plain([])
    case ManyCommands => Err(MultiCommand)
    case ManyArguments => Err(MultiArgument)
    case Single(ts) => ExpandTerms(cfg, byName, b, depths, fuel, ts)
  }

  function ExpandVar(cfg: Config, byName: bool, b: Bindings, depths: Depths, fuel: nat, id: VarId): Outcome<seq<Term>>
    decreases fuel, 3, 0
  {
    match MeaningOf(cfg, b, depths, id)
    case Free => Plain([Var(id)])
    case Contradictory => Err(SelfContradictory)
    case Data(script) =>
      (match ShapeOf(script)
       case Empty => Plain([])
       case ManyCommands => Err(MultiCommand)
       case ManyArguments => Err(MultiArgument)
       case Single(ts) => Plain(ts))
    case Code(script) =>
      match ShapeOf(script)
      case Empty => Plain([])
      case ManyCommands => Err(MultiCommand)
      case ManyArguments => if DepthOf(depths, id) != 0 then Err(MultiArgument) else Plain([Var(id)])
      case Single(ts) => ExpandTerms(cfg, byName, b, Enter(depths, id, true), fuel, ts)
  }

  function ExpandXfm(cfg: Config, byName: bool, b: Bindings, depths: Depths, fuel: nat, mods: seq<Modifier>, body: seq<Arg>): Outcome<Term>
    decreases fuel, 1, 0
  {
    if fuel == 0 then Err(TooDeep)
    else
      var newMods :- ExpandMods(cfg, byName, b, depths, fuel - 1, mods);
      var newBody :- ExpandBody(cfg, byName, b, depths, fuel - 1, body);
      Ok(Made(Xfm(newMods.value, newBody.value), newMods.calls + newBody.calls))
  }

  function ExpandBody(cfg: Config, byName: bool, b: Bindings, depths: Depths, fuel: nat, body: seq<Arg>): Outcome<seq<Arg>>
    decreases fuel, 3, 0
  {
    if !IsVarBody(body) then Plain(body)
    else
      var id := body[0].terms[0].id;
      match MeaningOf(cfg, b, depths, id)
      case Free => Plain(body)
      case Contradictory => Err(SelfContradictory)
      case Data(script) => OnlyCommand(script)
      case Code(script) =>
        if |script| == 0 then Plain([])
        else if |script| != 1 then Err(MultiCommand)
        else
          var new_ :- Expand(cfg, byName, b, Enter(depths, id, true), fuel, script);
          After(new_.calls, OnlyCommand(new_.value))
  }

  function ExpandMods(cfg: Config, byName: bool, b: Bindings, depths: Depths, fuel: nat, mods: seq<Modifier>): Outcome<seq<Modifier>>
    decreases fuel, 6, |mods|
  {
    if mods == [] then Plain([])
    else
      var args :- ExpandModArgs(cfg, byName, b, depths, fuel, mods[0].args);
      var rest :- ExpandMods(cfg, byName, b, depths, fuel, mods[1..]);
      Ok(Made([Modifier(mods[0].function_, args.value)] + rest.value, args.calls + rest.calls))
  }

  function ExpandModArgs(cfg: Config, byName: bool, b: Bindings, depths: Depths, fuel: nat, args: seq<Arg>): Outcome<seq<Arg>>
    decreases fuel, 5, |args|
  {
    if args == [] then Plain([])
    else
      var ts :- ExpandModTerms(cfg, byName, b, depths, fuel, args[0].terms);
      var rest :- ExpandModArgs(cfg, byName, b, depths, fuel, args[1..]);
      Ok(Made([Arg(ts.value)] + rest.value, ts.calls + rest.calls))
  }

  function ExpandModTerms(cfg: Config, byName: bool, b: Bindings, depths: Depths, fuel: nat, ts: seq<Term>): Outcome<seq<Term>>
    decreases fuel, 4, |ts|
  {
    if ts == [] then Plain([])
    else
      var first :- ExpandModTerm(cfg, byName, b, depths, fuel, ts[0]);
      var rest :- ExpandModTerms(cfg, byName, b, depths, fuel, ts[1..]);
      Ok(Joined(first, rest))
  }

  function ExpandModTerm(cfg: Config, byName: bool, b: Bindings, depths: Depths, fuel: nat, t: Term): Outcome<seq<Term>>
    decreases fuel, 1, 0
  {
    if fuel == 0 then Err(TooDeep)
    else match t
      case Value(_) => Plain([t])
      case Unexpanded(_) => Err(Aborted)
      case IdOrString(_) => Err(Aborted)
      case Call(_, _) => Err(NotImplemented)
      case If(_, _, _) => Err(NotImplemented)
      case Xfm(mods, body) =>
        var x :- ExpandXfm(cfg, byName, b, depths, fuel - 1, mods, body);
        Ok(Made([x.value], x.calls))
      case Var(id) =>
        match MeaningOf(cfg, b, depths, id)
        case Free => Plain([t])
        case Contradictory => Err(SelfContradictory)
        case Data(script) =>
          (match ShapeOf(script)
           case Empty => Plain([])
           case ManyCommands => Err(MultiCommand)
           case ManyArguments => if byName then Plain([t]) else Err(ManyInModifier)
           case Single(ts) => Plain(ts))
        case Code(script) =>
          match ShapeOf(script)
          case Empty => Plain([])
          case ManyCommands => Err(MultiCommand)
          case ManyArguments => if DepthOf(depths, id) != 0 then Err(MultiArgument) else Plain([t])
          case Single(ts) => ExpandModTerms(cfg, byName, b, Enter(depths, id, true), fuel - 1, ts)
  }
}
