/** What the inliner computes, as functions.

    `depths` holds the recursion depth of variables being expanded (absent means 0), `fuel` is
    what is left of the nesting limit, `lock` is the mode of the writer.  Inlining returns what
    it appends to the writer, and the macros it calls. */
module Inliner {
  import opened Wrappers
  import opened InlinerSyntax

  const MAX_DEPTH: nat := 50

  datatype Failure =
    | TooDeep | MultiCommand | MultiArgument | UnknownMacro | SelfContradictory
    | BadCondition | NotImplemented | Aborted | ManyInModifier

  /** Not stopped by the nesting limit. */
  predicate WithinLimit<T>(r: Result<T, Failure>) { r.Ok? || r.error != TooDeep }

  /** A result and the macros that were called for it, in the order of the calls. */
  datatype Made<T> = Made(value: T, calls: seq<VarId>)

  type Outcome<T> = Result<Made<T>, Failure>

  function Plain<T>(value: T): Outcome<T> { Ok(Made(value, [])) }

  /** `next`, which is made after `calls`. */
  function After<T>(calls: seq<VarId>, next: Outcome<T>): Outcome<T> {
    if next.Ok? then Ok(Made(next.value.value, calls + next.value.calls)) else next
  }

  lemma AfterNothing<T>(next: Outcome<T>)
    ensures After([], next) == next
  {
    if next.Ok? { assert [] + next.value.calls == next.value.calls; }
  }

  lemma AfterTwice<T>(a: seq<VarId>, b: seq<VarId>, next: Outcome<T>)
    ensures After(a, After(b, next)) == After(a + b, next)
  {
    if next.Ok? { assert a + (b + next.value.calls) == (a + b) + next.value.calls; }
  }

  function Joined<T>(first: Made<seq<T>>, rest: Made<seq<T>>): Made<seq<T>> {
    Made(first.value + rest.value, first.calls + rest.calls)
  }

  lemma JoinedPlain<T>(first: T, rest: seq<T>)
    ensures Joined(Made([first], []), Made(rest, [])) == Made([first] + rest, [])
  {
    assert |Joined(Made([first], []), Made(rest, [])).calls| == 0;
  }

  type Text(==) = string

  /** One of the values of a variable; `quoted` is how it is written among plain values. */
  datatype Part = Part(name: string, isMacro: bool, quoted: string)

  /** A definition of a variable: a command text, or a list of values. */
  datatype LegacyValue = Conventional(text: Text) | Values(parts: seq<Part>)

  /** `legacy[x]` are the successive (base) definitions of variable `x` before one that may not
      be expanded; `macros` the proper macros; `blocks` the names declared as macros; `addPeers` and
      `addIncls` the directories of the macros that have such options.  Parsing and evaluation of
      conditions are given. */
  datatype Config = Config(
    legacy: map<VarId, seq<LegacyValue>>,
    macros: map<VarId, Text>,
    nameOf: VarId -> string,
    blocks: set<string>,
    addPeers: map<VarId, seq<string>>,
    addIncls: map<VarId, seq<string>>,
    parse: Text -> Script,
    lateGlobs: seq<string> -> nat,
    evalBool: Term -> Option<bool>)

  /** Values after `acc`, with spaces between them. */
  function Spaced(acc: string, parts: seq<Part>, quote: bool): string
    decreases |parts|
  {
    if parts == [] then acc
    else Spaced((if acc == "" then acc else acc + " ") + (if quote then parts[0].quoted else parts[0].name), parts[1..], quote)
  }

  predicate HasMacro(parts: seq<Part>) { exists i :: 0 <= i < |parts| && parts[i].isMacro }
  predicate HasPlain(parts: seq<Part>) { exists i :: 0 <= i < |parts| && !parts[i].isMacro }

  function Names(parts: seq<Part>): seq<string> {
    if parts == [] then [] else [parts[0].name] + Names(parts[1..])
  }

  function Constant(value: nat): Script { [Cmd([Arg([Value(value)])])] }

  /** The script a definition stands for.  Values that are all macros are late globs, passed on as one
      constant. */
  function DefinitionOf(cfg: Config, v: LegacyValue): Script {
    match v
    case Conventional(text) => cfg.parse(text)
    case Values(parts) =>
      if HasMacro(parts) && HasPlain(parts) then cfg.parse(Spaced("", parts, true))
      else if HasMacro(parts) then Constant(cfg.lateGlobs(Names(parts)))
      else if HasPlain(parts) then cfg.parse(Spaced("", parts, false))
      else []
  }

  predicate EndsWith(name: string, suffix: string) {
    |suffix| <= |name| && name[|name| - |suffix|..] == suffix
  }

  /** Names with a special ending, and names of macros, are never looked up as variables. */
  predicate Reserved(name: string, blocks: set<string>) {
    || EndsWith(name, "__NO_UID__") || EndsWith(name, "__NOINLINE__") || EndsWith(name, "__LATEOUT__")
    || name in blocks
  }

  predicate IsVariable(cfg: Config, id: VarId) {
    id in cfg.legacy && !Reserved(cfg.nameOf(id), cfg.blocks)
  }

  datatype Scope = Global | Frame(defs: map<VarId, Script>, base: Scope)

  function Lookup(scope: Scope, id: VarId): Option<Script> {
    match scope
    case Global => None
    case Frame(defs, base) => if id in defs then Some(defs[id]) else Lookup(base, id)
  }

  type Depths = map<VarId, nat>

  function DepthOf(depths: Depths, id: VarId): nat {
    if id in depths then depths[id] else 0
  }

  datatype Definition = Undefined | Bad | Defined(script: Script, legacy: bool)

  function GetVariableDefinition(cfg: Config, scope: Scope, depths: Depths, id: VarId): Definition {
    match Lookup(scope, id)
    case Some(script) => Defined(script, false)
    case None =>
      if !IsVariable(cfg, id) then Undefined
      else if DepthOf(depths, id) >= |cfg.legacy[id]| then Bad
      else Defined(DefinitionOf(cfg, cfg.legacy[id][DepthOf(depths, id)]), true)
  }

  /** While a legacy definition is expanded, the variable refers to its base definition. */
  function Enter(depths: Depths, id: VarId, legacy: bool): Depths {
    if legacy then depths[id := DepthOf(depths, id) + 1] else depths
  }

  /** A script to be inlined in place of a term, with its scope and depths. */
  datatype Redirect = Redirect(script: Script, scope: Scope, depths: Depths)

  /** How a script can be put in place of a term. */
  datatype Shape = Empty | ManyCommands | ManyArguments | Single(terms: seq<Term>)

  function ShapeOf(script: Script): Shape {
    if |script| == 0 then Empty
    else if |script| != 1 then ManyCommands
    else if |script[0].args| == 0 then Empty
    else if |script[0].args| != 1 then ManyArguments
    else Single(script[0].args[0].terms)
  }

  predicate IsBareVar(mods: seq<Modifier>, body: seq<Arg>) {
    mods == [] && IsVarBody(body)
  }

  predicate IsVarBody(body: seq<Arg>) {
    |body| == 1 && |body[0].terms| == 1 && body[0].terms[0].Var?
  }

  function VarRedirect(cfg: Config, scope: Scope, depths: Depths, id: VarId): Outcome<Option<Redirect>> {
    match GetVariableDefinition(cfg, scope, depths, id)
    case Undefined => Plain(None)
    case Bad => Err(SelfContradictory)
    case Defined(script, legacy) => Plain(Some(Redirect(script, scope, Enter(depths, id, legacy))))
  }

  function CallRedirect(cfg: Config, scope: Scope, depths: Depths, fuel: nat, fn: VarId, params: seq<MacroArg>): Outcome<Redirect>
    decreases fuel, 3, 0
  {
    if fn !in cfg.macros then Err(UnknownMacro)
    else
      var defs :- FillMacroArgs(cfg, scope, depths, fuel, params, map[]);
      Ok(Made(Redirect(cfg.parse(cfg.macros[fn]), Frame(defs.value, scope), depths), [fn] + defs.calls))
  }

  /** A term that is a whole command (or argument) by itself may expand to several. */
  function Standalone(cfg: Config, scope: Scope, depths: Depths, fuel: nat, t: Term): Outcome<Option<Redirect>>
    decreases fuel, 4, 0
  {
    match t
    case Var(id) => VarRedirect(cfg, scope, depths, id)
    case Xfm(mods, body) =>
      if IsBareVar(mods, body) then VarRedirect(cfg, scope, depths, body[0].terms[0].id) else Plain(None)
    case Call(fn, params) =>
      var to :- CallRedirect(cfg, scope, depths, fuel, fn, params);
      Ok(Made(Some(to.value), to.calls))
    case If(cond, yes, no) =>
      var holds :- Condition(cfg, scope, depths, fuel, cond);
      Ok(Made(Some(Redirect([if holds.value then yes else no], scope, depths)), holds.calls))
    case _ => Plain(None)
  }

  function Condition(cfg: Config, scope: Scope, depths: Depths, fuel: nat, cond: Term): Outcome<bool>
    decreases fuel, 3, 0
  {
    var ts :- ScalarTerm(cfg, scope, depths, fuel, cond, false);
    if |ts.value| != 1 then Err(BadCondition)
    else match cfg.evalBool(ts.value[0])
      case None => Err(BadCondition)
      case Some(b) => Ok(Made(b, ts.calls))
  }

  /** Arguments are inlined in the scope of the caller, with variables locked. */
  function FillMacroArgs(cfg: Config, scope: Scope, depths: Depths, fuel: nat, params: seq<MacroArg>, defs: map<VarId, Script>): Outcome<map<VarId, Script>>
    decreases fuel, 2, |params|
  {
    if params == [] then Plain(defs)
    else
      var name := params[0].name;
      var value :- Commands(cfg, scope, depths, fuel, params[0].value, true);
      var before := if name in defs then defs[name] else [];
      After(value.calls, FillMacroArgs(cfg, scope, depths, fuel, params[1..], defs[name := before + value.value]))
  }

  // ---------------------------------------------------------------- commands

  function Commands(cfg: Config, scope: Scope, depths: Depths, fuel: nat, script: Script, lock: bool): Outcome<Script>
    decreases fuel, 1, 0
  {
    if fuel == 0 then Err(TooDeep) else CommandList(cfg, scope, depths, fuel - 1, script, lock)
  }

  function CommandList(cfg: Config, scope: Scope, depths: Depths, fuel: nat, script: Script, lock: bool): Outcome<Script>
    decreases fuel, 6, |script|
  {
    if script == [] then Plain([])
    else
      var first :- OneCommand(cfg, scope, depths, fuel, script[0], lock);
      var rest :- CommandList(cfg, scope, depths, fuel, script[1..], lock);
      Ok(Joined(first, rest))
  }

  function OneCommand(cfg: Config, scope: Scope, depths: Depths, fuel: nat, cmd: Cmd, lock: bool): Outcome<Script>
    decreases fuel, 5, 0
  {
    var redirect :-
      if |cmd.args| == 1 && |cmd.args[0].terms| == 1 then Standalone(cfg, scope, depths, fuel, cmd.args[0].terms[0])
      else Plain(None);
    match redirect.value
    case Some(to) => After(redirect.calls, Commands(cfg, to.scope, to.depths, fuel, to.script, lock))
    case None =>
      var args :- Arguments(cfg, scope, depths, fuel, cmd.args, lock);
      Ok(CommandOf(args))
  }

  /** A command without arguments is dropped, and so is an argument without terms. */
  function CommandOf(args: Made<seq<Arg>>): Made<Script> {
    Made(if args.value == [] then [] else [Cmd(args.value)], args.calls)
  }

  function ArgumentOf(ts: Made<seq<Term>>): Made<seq<Arg>> {
    Made(if ts.value == [] then [] else [Arg(ts.value)], ts.calls)
  }

  // ---------------------------------------------------------------- arguments

  function Arguments(cfg: Config, scope: Scope, depths: Depths, fuel: nat, args: seq<Arg>, lock: bool): Outcome<seq<Arg>>
    decreases fuel, 1, 0
  {
    if fuel == 0 then Err(TooDeep) else ArgumentList(cfg, scope, depths, fuel - 1, args, lock)
  }

  function ArgumentList(cfg: Config, scope: Scope, depths: Depths, fuel: nat, args: seq<Arg>, lock: bool): Outcome<seq<Arg>>
    decreases fuel, 6, |args|
  {
    if args == [] then Plain([])
    else
      var first :- OneArgument(cfg, scope, depths, fuel, args[0], lock);
      var rest :- ArgumentList(cfg, scope, depths, fuel, args[1..], lock);
      Ok(Joined(first, rest))
  }

  function OneArgument(cfg: Config, scope: Scope, depths: Depths, fuel: nat, arg: Arg, lock: bool): Outcome<seq<Arg>>
    decreases fuel, 5, 0
  {
    var redirect :-
      if |arg.terms| == 1 then Standalone(cfg, scope, depths, fuel, arg.terms[0]) else Plain(None);
    match redirect.value
    case Some(to) => After(redirect.calls, ArgumentsIn(cfg, to, fuel, lock))
    case None =>
      var ts :- ScalarTerms(cfg, scope, depths, fuel, arg.terms, lock);
      Ok(ArgumentOf(ts))
  }

  function ArgumentsIn(cfg: Config, to: Redirect, fuel: nat, lock: bool): Outcome<seq<Arg>>
    decreases fuel, 4, 0
  {
    if |to.script| == 0 then Plain([])
    else if |to.script| != 1 then Err(MultiCommand)
    else Arguments(cfg, to.scope, to.depths, fuel, to.script[0].args, lock)
  }

  // ---------------------------------------------------------------- terms

  function ScalarTerms(cfg: Config, scope: Scope, depths: Depths, fuel: nat, ts: seq<Term>, lock: bool): Outcome<seq<Term>>
    decreases fuel, 1, 0
  {
    if fuel == 0 then Err(TooDeep) else ScalarTermList(cfg, scope, depths, fuel - 1, ts, lock)
  }

  function ScalarTermList(cfg: Config, scope: Scope, depths: Depths, fuel: nat, ts: seq<Term>, lock: bool): Outcome<seq<Term>>
    decreases fuel, 6, |ts|
  {
    if ts == [] then Plain([])
    else
      var first :- ScalarTerm(cfg, scope, depths, fuel, ts[0], lock);
      var rest :- ScalarTermList(cfg, scope, depths, fuel, ts[1..], lock);
      Ok(Joined(first, rest))
  }

  function ScalarTerm(cfg: Config, scope: Scope, depths: Depths, fuel: nat, t: Term, lock: bool): Outcome<seq<Term>>
    decreases fuel, 1, 0
  {
    if fuel == 0 then Err(TooDeep)
    else match t
      case Value(_) => Plain([Written(lock, t)])
      case Unexpanded(_) => Plain([Written(lock, t)])
      case IdOrString(_) => Err(Aborted)
      case Var(id) => ScalarVar(cfg, scope, depths, fuel - 1, id, lock)
      case Xfm(mods, body) =>
        var x :- Transformation(cfg, scope, depths, fuel - 1, mods, body);
        Ok(Made([Written(lock, x.value)], x.calls))
      case Call(fn, params) =>
        var to :- CallRedirect(cfg, scope, depths, fuel - 1, fn, params);
        After(to.calls, TermsIn(cfg, to.value, fuel - 1, lock))
      case If(cond, yes, no) =>
        var holds :- Condition(cfg, scope, depths, fuel - 1, cond);
        var branch := if holds.value then yes else no;
        if |branch.args| != 1 then Err(MultiArgument)
        else After(holds.calls, ScalarTerms(cfg, scope, depths, fuel - 1, branch.args[0].terms, lock))
  }

  function TermsIn(cfg: Config, to: Redirect, fuel: nat, lock: bool): Outcome<seq<Term>>
    decreases fuel, 2, 0
  {
    match ShapeOf(to.script)
    case Empty => Plain([])
    case ManyCommands => Err(MultiCommand)
    case ManyArguments => Err(MultiArgument)
    case Single(ts) => ScalarTerms(cfg, to.scope, to.depths, fuel, ts, lock)
  }

  function ScalarVar(cfg: Config, scope: Scope, depths: Depths, fuel: nat, id: VarId, lock: bool): Outcome<seq<Term>>
    decreases fuel, 3, 0
  {
    match GetVariableDefinition(cfg, scope, depths, id)
    case Undefined => Plain([Written(lock, Var(id))])
    case Bad => Err(SelfContradictory)
    case Defined(script, legacy) =>
      match ShapeOf(script)
      case Empty => Plain([])
      case ManyCommands => Err(MultiCommand)
      case ManyArguments =>
        if !legacy || DepthOf(depths, id) != 0 then Err(MultiArgument) else Plain([Written(lock, Var(id))])
      case Single(ts) => ScalarTerms(cfg, scope, Enter(depths, id, legacy), fuel, ts, lock)
  }

  // ---------------------------------------------------------------- transformations

  function Transformation(cfg: Config, scope: Scope, depths: Depths, fuel: nat, mods: seq<Modifier>, body: seq<Arg>): Outcome<Term>
    decreases fuel, 1, 0
  {
    if fuel == 0 then Err(TooDeep)
    else
      var newMods :- ModList(cfg, scope, depths, fuel - 1, mods);
      var newBody :- Body(cfg, scope, depths, fuel - 1, body);
      Ok(Made(Xfm(newMods.value, newBody.value), newMods.calls + newBody.calls))
  }

  /** Only a body that is a single variable is expanded. */
  function Body(cfg: Config, scope: Scope, depths: Depths, fuel: nat, body: seq<Arg>): Outcome<seq<Arg>>
    decreases fuel, 3, 0
  {
    if !IsVarBody(body) then Plain(body)
    else
      var id := body[0].terms[0].id;
      match GetVariableDefinition(cfg, scope, depths, id)
      case Undefined => Plain(body)
      case Bad => Err(SelfContradictory)
      case Defined(script, legacy) =>
        if |script| == 0 then Plain([])
        else if |script| != 1 then Err(MultiCommand)
        else
          var new_ :- Commands(cfg, scope, Enter(depths, id, legacy), fuel, script, false);
          After(new_.calls, OnlyCommand(new_.value))
  }

  function OnlyCommand(script: Script): Outcome<seq<Arg>> {
    if |script| == 0 then Plain([]) else if |script| != 1 then Err(MultiCommand) else Plain(script[0].args)
  }

  function ModList(cfg: Config, scope: Scope, depths: Depths, fuel: nat, mods: seq<Modifier>): Outcome<seq<Modifier>>
    decreases fuel, 6, |mods|
  {
    if mods == [] then Plain([])
    else
      var args :- ModArgs(cfg, scope, depths, fuel, mods[0].args);
      var rest :- ModList(cfg, scope, depths, fuel, mods[1..]);
      Ok(Made([Modifier(mods[0].function_, args.value)] + rest.value, args.calls + rest.calls))
  }

  function ModArgs(cfg: Config, scope: Scope, depths: Depths, fuel: nat, args: seq<Arg>): Outcome<seq<Arg>>
    decreases fuel, 5, |args|
  {
    if args == [] then Plain([])
    else
      var ts :- ModTerms(cfg, scope, depths, fuel, args[0].terms);
      var rest :- ModArgs(cfg, scope, depths, fuel, args[1..]);
      Ok(Made([Arg(ts.value)] + rest.value, ts.calls + rest.calls))
  }

  function ModTerms(cfg: Config, scope: Scope, depths: Depths, fuel: nat, ts: seq<Term>): Outcome<seq<Term>>
    decreases fuel, 4, |ts|
  {
    if ts == [] then Plain([])
    else
      var first :- ModArgTerm(cfg, scope, depths, fuel, ts[0]);
      var rest :- ModTerms(cfg, scope, depths, fuel, ts[1..]);
      Ok(Joined(first, rest))
  }

  function ModArgTerm(cfg: Config, scope: Scope, depths: Depths, fuel: nat, t: Term): Outcome<seq<Term>>
    decreases fuel, 1, 0
  {
    if fuel == 0 then Err(TooDeep)
    else match t
      case Value(_) => Plain([t])
      case Unexpanded(id) => Plain([Var(id)])
      case IdOrString(_) => Err(Aborted)
      case Call(_, _) => Err(NotImplemented)
      case If(_, _, _) => Err(NotImplemented)
      case Xfm(mods, body) =>
        var x :- Transformation(cfg, scope, depths, fuel - 1, mods, body);
        Ok(Made([x.value], x.calls))
      case Var(id) =>
        match GetVariableDefinition(cfg, scope, depths, id)
        case Undefined => Plain([t])
        case Bad => Err(SelfContradictory)
        case Defined(script, legacy) =>
          match ShapeOf(script)
          case Empty => Plain([])
          case ManyCommands => Err(MultiCommand)
          case ManyArguments => if legacy && DepthOf(depths, id) != 0 then Err(MultiArgument) else Plain([t])
          case Single(ts) => ModTerms(cfg, scope, Enter(depths, id, legacy), fuel - 1, ts)
  }

  /** The whole script at top level. */
  function Inlined(cfg: Config, script: Script): Outcome<Script> {
    Commands(cfg, Global, map[], MAX_DEPTH, script, false)
  }
}
