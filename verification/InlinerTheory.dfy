/** The inliner does what the reference expander does by name. */
module InlinerTheory {
  import opened Wrappers
  import opened InlinerSyntax
  import opened Inliner
  import opened InlinerReference
  import opened InlinerLocked

  /** The parser never produces locked variables. */
  ghost predicate ParserClean(cfg: Config) {
    forall text :: ParsedScript(cfg.parse(text))
  }

  /** So no definition has any. */
  ghost predicate ProgramClean(cfg: Config) {
    ParserClean(cfg) && forall v :: ParsedScript(DefinitionOf(cfg, v))
  }

  lemma ConstantParsed(value: nat)
    ensures ParsedScript(Constant(value))
  {
    assert ParsedTerms([Value(value)]);
    assert ParsedArgs([Arg([Value(value)])]);
  }

  lemma DefinitionsClean(cfg: Config)
    requires ParserClean(cfg)
    ensures ProgramClean(cfg)
  {
    forall v
      ensures ParsedScript(DefinitionOf(cfg, v))
    {
      if v.Values? { ConstantParsed(cfg.lateGlobs(Names(v.parts))); }
    }
  }

  /** A scope holds, locked, what the reference binds. */
  ghost predicate Bound(scope: Scope, b: Bindings) {
    forall id :: BoundAt(scope, b, id)
  }

  ghost predicate BoundAt(scope: Scope, b: Bindings, id: VarId) {
    match Lookup(scope, id)
    case None => id !in b
    case Some(s) => id in b && LeftoverScript(b[id]) && s == WrittenScript(true, b[id])
  }

  ghost predicate BoundDefs(defs: map<VarId, Script>, done: Bindings) {
    defs.Keys == done.Keys && forall id :: id in defs ==> LeftoverScript(done[id]) && defs[id] == WrittenScript(true, done[id])
  }

  lemma BoundFrame(scope: Scope, b: Bindings, defs: map<VarId, Script>, done: Bindings)
    requires Bound(scope, b) && BoundDefs(defs, done)
    ensures Bound(Frame(defs, scope), b + done)
  {
    forall id
      ensures BoundAt(Frame(defs, scope), b + done, id)
    {
      assert BoundAt(scope, b, id);
    }
  }

  /** Redirections of the inliner and expansions of the reference agree. */
  ghost predicate Agrees(r: Option<Redirect>, e: Expansion) {
    match r
    case None => e.Itself?
    case Some(to) =>
      || (e.Finished? && LeftoverScript(e.script) && to.script == WrittenScript(true, e.script))
      || (e.More? && ParsedScript(e.script) && to.script == e.script && to.depths == e.depths && Bound(to.scope, e.bindings))
  }

  // Outcomes of the inliner and of the reference: same failure, or same result after the same calls.

  ghost predicate SameScript(lock: bool, c: Outcome<Script>, r: Outcome<Script>) {
    match c
    case Err(f) => r == Err(f)
    case Ok(Made(v, calls)) => r.Ok? && r.value.calls == calls && LeftoverScript(r.value.value) && v == WrittenScript(lock, r.value.value)
  }

  ghost predicate SameArgs(lock: bool, c: Outcome<seq<Arg>>, r: Outcome<seq<Arg>>) {
    match c
    case Err(f) => r == Err(f)
    case Ok(Made(v, calls)) => r.Ok? && r.value.calls == calls && LeftoverArgs(r.value.value) && v == WrittenArgs(lock, r.value.value)
  }

  ghost predicate SameTerms(lock: bool, c: Outcome<seq<Term>>, r: Outcome<seq<Term>>) {
    match c
    case Err(f) => r == Err(f)
    case Ok(Made(v, calls)) => r.Ok? && r.value.calls == calls && LeftoverTerms(r.value.value) && v == WrittenTerms(lock, r.value.value)
  }

  /** Inside a transformation nothing has been written yet: results agree once unlocked. */
  ghost predicate SameXfm(c: Outcome<Term>, r: Outcome<Term>) {
    match c
    case Err(f) => r == Err(f)
    case Ok(Made(x, calls)) => r.Ok? && r.value.calls == calls && Leftover(r.value.value) && Written(false, x) == r.value.value
  }

  ghost predicate SameBody(c: Outcome<seq<Arg>>, r: Outcome<seq<Arg>>) {
    match c
    case Err(f) => r == Err(f)
    case Ok(Made(v, calls)) => r.Ok? && r.value.calls == calls && ParsedArgs(r.value.value) && WrittenArgs(false, v) == r.value.value
  }

  ghost predicate SameMods(c: Outcome<seq<Modifier>>, r: Outcome<seq<Modifier>>) {
    match c
    case Err(f) => r == Err(f)
    case Ok(Made(v, calls)) => r.Ok? && r.value.calls == calls && (forall m :: m in r.value.value ==> LeftoverInside(m.args)) && WrittenMods(false, v) == r.value.value
  }

  ghost predicate SameModArgs(c: Outcome<seq<Arg>>, r: Outcome<seq<Arg>>) {
    match c
    case Err(f) => r == Err(f)
    case Ok(Made(v, calls)) => r.Ok? && r.value.calls == calls && LeftoverInside(r.value.value) && WrittenArgs(false, v) == r.value.value
  }

  ghost predicate SameModTerms(c: Outcome<seq<Term>>, r: Outcome<seq<Term>>) {
    match c
    case Err(f) => r == Err(f)
    case Ok(Made(v, calls)) => r.Ok? && r.value.calls == calls && LeftoverTerms(r.value.value) && WrittenTerms(false, v) == r.value.value
  }

  ghost predicate SameRedirect(c: Outcome<Option<Redirect>>, r: Outcome<Expansion>) {
    match c
    case Err(f) => r == Err(f)
    case Ok(Made(v, calls)) =>
      r.Ok? && r.value.calls == calls && Agrees(v, r.value.value) && (r.value.value.Finished? ==> calls == [])
  }

  lemma SimVarRedirect(cfg: Config, scope: Scope, b: Bindings, depths: Depths, id: VarId)
    requires ProgramClean(cfg) && Bound(scope, b)
    ensures SameRedirect(VarRedirect(cfg, scope, depths, id), VarExpansion(cfg, b, depths, id))
  {
    assert BoundAt(scope, b, id);
  }

  ghost predicate SameCall(cfg: Config, depths: Depths, fn: VarId, c: Outcome<Redirect>, r: Outcome<Bindings>) {
    match c
    case Err(f) => r == Err(f)
    case Ok(Made(to, calls)) =>
      && r.Ok? && r.value.calls == calls && fn in cfg.macros && to.script == cfg.parse(cfg.macros[fn]) && ParsedScript(to.script)
      && to.depths == depths && Bound(to.scope, r.value.value)
  }

  lemma {:induction false} SimCall(cfg: Config, scope: Scope, b: Bindings, depths: Depths, fuel: nat, fn: VarId, params: seq<MacroArg>)
    requires ProgramClean(cfg) && Bound(scope, b) && (forall a :: a in params ==> ParsedScript(a.value))
    requires WithinLimit(CallRedirect(cfg, scope, depths, fuel, fn, params))
    ensures SameCall(cfg, depths, fn, CallRedirect(cfg, scope, depths, fuel, fn, params), CallBindings(cfg, true, b, depths, fuel, fn, params))
    decreases fuel, 3, 0
  {
    if fn in cfg.macros {
      SimFill(cfg, scope, b, depths, fuel, params, map[], map[]);
      var filled, actuals := FillMacroArgs(cfg, scope, depths, fuel, params, map[]), Actuals(cfg, true, b, depths, fuel, params, map[]);
      if filled.Ok? { BoundFrame(scope, b, filled.value.value, actuals.value.value); }
    }
  }

  ghost predicate SameDefs(c: Outcome<map<VarId, Script>>, r: Outcome<Bindings>) {
    match c
    case Err(f) => r == Err(f)
    case Ok(Made(defs, calls)) => r.Ok? && r.value.calls == calls && BoundDefs(defs, r.value.value)
  }

  lemma {:induction false} SimFill(cfg: Config, scope: Scope, b: Bindings, depths: Depths, fuel: nat, params: seq<MacroArg>, defs: map<VarId, Script>, done: Bindings)
    requires ProgramClean(cfg) && Bound(scope, b) && (forall a :: a in params ==> ParsedScript(a.value)) && BoundDefs(defs, done)
    requires WithinLimit(FillMacroArgs(cfg, scope, depths, fuel, params, defs))
    ensures SameDefs(FillMacroArgs(cfg, scope, depths, fuel, params, defs), Actuals(cfg, true, b, depths, fuel, params, done))
    decreases fuel, 2, |params|
  {
    if params != [] {
      assert params[0] in params;
      SimCommands(cfg, scope, b, depths, fuel, params[0].value, true);
      var c, r := Commands(cfg, scope, depths, fuel, params[0].value, true), Expand(cfg, true, b, depths, fuel, params[0].value);
      if c.Ok? {
        var name := params[0].name;
        var before, before' := if name in defs then defs[name] else [], if name in done then done[name] else [];
        BoundMore(defs, done, name, c.value.value, r.value.value);
        SimFill(cfg, scope, b, depths, fuel, params[1..], defs[name := before + c.value.value], done[name := before' + r.value.value]);
      }
    }
  }

  lemma BoundMore(defs: map<VarId, Script>, done: Bindings, name: VarId, value: Script, value': Script)
    requires BoundDefs(defs, done) && LeftoverScript(value') && value == WrittenScript(true, value')
    ensures var before, before' := if name in defs then defs[name] else [], if name in done then done[name] else [];
      BoundDefs(defs[name := before + value], done[name := before' + value'])
  {
    WrittenScriptConcat(true, if name in done then done[name] else [], value');
  }

  lemma {:induction false} SimCondition(cfg: Config, scope: Scope, b: Bindings, depths: Depths, fuel: nat, cond: Term)
    requires ProgramClean(cfg) && Bound(scope, b) && Parsed(cond) && WithinLimit(Condition(cfg, scope, depths, fuel, cond))
    ensures ExpandCondition(cfg, true, b, depths, fuel, cond) == Condition(cfg, scope, depths, fuel, cond)
    decreases fuel, 3, 0
  {
    SimTerm(cfg, scope, b, depths, fuel, cond, false);
    var r := ExpandTerm(cfg, true, b, depths, fuel, cond);
    if r.Ok? { LeftoverTermsUnlocked(r.value.value); }
  }

  lemma {:induction false} SimStandalone(cfg: Config, scope: Scope, b: Bindings, depths: Depths, fuel: nat, t: Term)
    requires ProgramClean(cfg) && Bound(scope, b) && Parsed(t) && WithinLimit(Standalone(cfg, scope, depths, fuel, t))
    ensures SameRedirect(Standalone(cfg, scope, depths, fuel, t), ExpandStandalone(cfg, true, b, depths, fuel, t))
    decreases fuel, 4, 0
  {
    match t
    case Var(id) => SimVarRedirect(cfg, scope, b, depths, id);
    case Xfm(mods, body) =>
      if IsBareVar(mods, body) { SimVarRedirect(cfg, scope, b, depths, body[0].terms[0].id); }
    case Call(fn, params) => SimCall(cfg, scope, b, depths, fuel, fn, params);
    case If(cond, yes, no) => SimCondition(cfg, scope, b, depths, fuel, cond);
    case _ =>
  }

  // ---------------------------------------------------------------- commands

  lemma {:induction false} SimCommands(cfg: Config, scope: Scope, b: Bindings, depths: Depths, fuel: nat, script: Script, lock: bool)
    requires ProgramClean(cfg) && Bound(scope, b) && ParsedScript(script) && WithinLimit(Commands(cfg, scope, depths, fuel, script, lock))
    ensures SameScript(lock, Commands(cfg, scope, depths, fuel, script, lock), Expand(cfg, true, b, depths, fuel, script))
    decreases fuel, 1, 0
  {
    SimCommandList(cfg, scope, b, depths, fuel - 1, script, lock);
  }

  lemma {:induction false} SimCommandList(cfg: Config, scope: Scope, b: Bindings, depths: Depths, fuel: nat, script: Script, lock: bool)
    requires ProgramClean(cfg) && Bound(scope, b) && ParsedScript(script) && WithinLimit(CommandList(cfg, scope, depths, fuel, script, lock))
    ensures SameScript(lock, CommandList(cfg, scope, depths, fuel, script, lock), ExpandList(cfg, true, b, depths, fuel, script))
    decreases fuel, 6, |script|
  {
    if script != [] {
      assert script[0] in script;
      SimCommand(cfg, scope, b, depths, fuel, script[0], lock);
      if OneCommand(cfg, scope, depths, fuel, script[0], lock).Ok? {
        SimCommandList(cfg, scope, b, depths, fuel, script[1..], lock);
        var first, rest := ExpandCommand(cfg, true, b, depths, fuel, script[0]), ExpandList(cfg, true, b, depths, fuel, script[1..]);
        if rest.Ok? { WrittenScriptConcat(lock, first.value.value, rest.value.value); }
      }
    }
  }

  lemma {:induction false} SimCommand(cfg: Config, scope: Scope, b: Bindings, depths: Depths, fuel: nat, cmd: Cmd, lock: bool)
    requires ProgramClean(cfg) && Bound(scope, b) && ParsedArgs(cmd.args) && WithinLimit(OneCommand(cfg, scope, depths, fuel, cmd, lock))
    ensures SameScript(lock, OneCommand(cfg, scope, depths, fuel, cmd, lock), ExpandCommand(cfg, true, b, depths, fuel, cmd))
    decreases fuel, 5, 0
  {
    var redirect: Outcome<Option<Redirect>>, e: Outcome<Expansion> := Plain(None), Plain(Itself);
    if |cmd.args| == 1 && |cmd.args[0].terms| == 1 {
      var t := cmd.args[0].terms[0];
      assert cmd.args[0] in cmd.args && t in cmd.args[0].terms;
      SimStandalone(cfg, scope, b, depths, fuel, t);
      redirect, e := Standalone(cfg, scope, depths, fuel, t), ExpandStandalone(cfg, true, b, depths, fuel, t);
    }
    if e.Ok? && e.value.value.Itself? {
      SimArguments(cfg, scope, b, depths, fuel, cmd.args, lock);
    } else if e.Ok? {
      SimCommandsIn(cfg, redirect.value.value.value, e.value, fuel, lock);
    }
  }

  /** The script that a redirection leads to. */
  lemma {:induction false} SimCommandsIn(cfg: Config, to: Redirect, e: Made<Expansion>, fuel: nat, lock: bool)
    requires ProgramClean(cfg) && Agrees(Some(to), e.value) && (e.value.Finished? ==> e.calls == [])
    requires WithinLimit(Commands(cfg, to.scope, to.depths, fuel, to.script, lock))
    ensures !e.value.Itself?
    ensures SameScript(lock, After(e.calls, Commands(cfg, to.scope, to.depths, fuel, to.script, lock)),
      if e.value.Finished? then Plain(e.value.script) else After(e.calls, Expand(cfg, true, e.value.bindings, e.value.depths, fuel, e.value.script)))
    decreases fuel, 4, 0
  {
    if e.value.Finished? {
      LockedIsData(cfg, to.scope, to.depths, fuel, e.value.script, lock);
      AfterNothing(Commands(cfg, to.scope, to.depths, fuel, to.script, lock));
    } else {
      SimCommands(cfg, to.scope, e.value.bindings, e.value.depths, fuel, e.value.script, lock);
    }
  }

  // ---------------------------------------------------------------- arguments

  lemma {:induction false} SimArguments(cfg: Config, scope: Scope, b: Bindings, depths: Depths, fuel: nat, args: seq<Arg>, lock: bool)
    requires ProgramClean(cfg) && Bound(scope, b) && ParsedArgs(args) && WithinLimit(Arguments(cfg, scope, depths, fuel, args, lock))
    ensures SameArgs(lock, Arguments(cfg, scope, depths, fuel, args, lock), ExpandArgs(cfg, true, b, depths, fuel, args))
    decreases fuel, 1, 0
  {
    SimArgumentList(cfg, scope, b, depths, fuel - 1, args, lock);
  }

  lemma {:induction false} SimArgumentList(cfg: Config, scope: Scope, b: Bindings, depths: Depths, fuel: nat, args: seq<Arg>, lock: bool)
    requires ProgramClean(cfg) && Bound(scope, b) && ParsedArgs(args) && WithinLimit(ArgumentList(cfg, scope, depths, fuel, args, lock))
    ensures SameArgs(lock, ArgumentList(cfg, scope, depths, fuel, args, lock), ExpandArgList(cfg, true, b, depths, fuel, args))
    decreases fuel, 6, |args|
  {
    if args != [] {
      assert args[0] in args;
      SimArgument(cfg, scope, b, depths, fuel, args[0], lock);
      if OneArgument(cfg, scope, depths, fuel, args[0], lock).Ok? {
        SimArgumentList(cfg, scope, b, depths, fuel, args[1..], lock);
        var first, rest := ExpandArg(cfg, true, b, depths, fuel, args[0]), ExpandArgList(cfg, true, b, depths, fuel, args[1..]);
        if rest.Ok? { WrittenArgsConcat(lock, first.value.value, rest.value.value); }
      }
    }
  }

  lemma {:induction false} SimArgument(cfg: Config, scope: Scope, b: Bindings, depths: Depths, fuel: nat, arg: Arg, lock: bool)
    requires ProgramClean(cfg) && Bound(scope, b) && ParsedTerms(arg.terms) && WithinLimit(OneArgument(cfg, scope, depths, fuel, arg, lock))
    ensures SameArgs(lock, OneArgument(cfg, scope, depths, fuel, arg, lock), ExpandArg(cfg, true, b, depths, fuel, arg))
    decreases fuel, 5, 1
  {
    if |arg.terms| == 1 {
      SimSingleArgument(cfg, scope, b, depths, fuel, arg, lock);
    } else {
      SimTerms(cfg, scope, b, depths, fuel, arg.terms, lock);
    }
  }

  lemma {:induction false} SimSingleArgument(cfg: Config, scope: Scope, b: Bindings, depths: Depths, fuel: nat, arg: Arg, lock: bool)
    requires ProgramClean(cfg) && Bound(scope, b) && |arg.terms| == 1 && Parsed(arg.terms[0])
    requires WithinLimit(OneArgument(cfg, scope, depths, fuel, arg, lock))
    ensures SameArgs(lock, OneArgument(cfg, scope, depths, fuel, arg, lock), ExpandArg(cfg, true, b, depths, fuel, arg))
    decreases fuel, 5, 0
  {
    SimStandalone(cfg, scope, b, depths, fuel, arg.terms[0]);
    var redirect, e := Standalone(cfg, scope, depths, fuel, arg.terms[0]), ExpandStandalone(cfg, true, b, depths, fuel, arg.terms[0]);
    if e.Ok? {
      if e.value.value.Itself? {
        SimWholeArgument(cfg, scope, b, depths, fuel, arg, lock);
      } else {
        SimArgumentsIn(cfg, redirect.value.value.value, e.value, fuel, lock);
      }
    }
  }

  lemma {:induction false} SimWholeArgument(cfg: Config, scope: Scope, b: Bindings, depths: Depths, fuel: nat, arg: Arg, lock: bool)
    requires ProgramClean(cfg) && Bound(scope, b) && |arg.terms| == 1 && Parsed(arg.terms[0])
    requires Standalone(cfg, scope, depths, fuel, arg.terms[0]).Ok? && Standalone(cfg, scope, depths, fuel, arg.terms[0]).value.value.None?
    requires ExpandStandalone(cfg, true, b, depths, fuel, arg.terms[0]).Ok? && ExpandStandalone(cfg, true, b, depths, fuel, arg.terms[0]).value.value.Itself?
    requires WithinLimit(OneArgument(cfg, scope, depths, fuel, arg, lock))
    ensures SameArgs(lock, OneArgument(cfg, scope, depths, fuel, arg, lock), ExpandArg(cfg, true, b, depths, fuel, arg))
    decreases fuel, 4, 0
  {
    SimTerms(cfg, scope, b, depths, fuel, arg.terms, lock);
  }

  /** The arguments that a redirection leads to, if it leads to a single command. */
  lemma {:induction false} SimArgumentsIn(cfg: Config, to: Redirect, e: Made<Expansion>, fuel: nat, lock: bool)
    requires ProgramClean(cfg) && Agrees(Some(to), e.value) && (e.value.Finished? ==> e.calls == [])
    requires WithinLimit(ArgumentsIn(cfg, to, fuel, lock))
    ensures !e.value.Itself?
    ensures SameArgs(lock, After(e.calls, ArgumentsIn(cfg, to, fuel, lock)),
      if e.value.Finished? then OnlyCommand(e.value.script)
      else After(e.calls, ExpandArgsIn(cfg, true, e.value.bindings, e.value.depths, fuel, e.value.script)))
    decreases fuel, 4, 0
  {
    var s := e.value.script;
    if e.value.Finished? { AfterNothing(ArgumentsIn(cfg, to, fuel, lock)); }
    if |s| == 1 {
      assert s[0] in s;
      if e.value.Finished? {
        LockedOnlyArguments(cfg, to.scope, to.depths, fuel, s, lock);
      } else {
        SimArguments(cfg, to.scope, e.value.bindings, e.value.depths, fuel, s[0].args, lock);
      }
    }
  }

  lemma LockedOnlyArguments(cfg: Config, scope: Scope, depths: Depths, fuel: nat, s: Script, lock: bool)
    requires LeftoverScript(s) && |s| == 1 && WithinLimit(Arguments(cfg, scope, depths, fuel, WrittenScript(true, s)[0].args, lock))
    ensures LeftoverArgs(s[0].args)
    ensures Arguments(cfg, scope, depths, fuel, WrittenScript(true, s)[0].args, lock) == Plain(WrittenArgs(lock, s[0].args))
  {
    assert s[0] in s;
    LockedArgumentList(cfg, scope, depths, fuel - 1, s[0].args, lock);
  }

  // ---------------------------------------------------------------- terms

  lemma {:induction false} SimTerms(cfg: Config, scope: Scope, b: Bindings, depths: Depths, fuel: nat, ts: seq<Term>, lock: bool)
    requires ProgramClean(cfg) && Bound(scope, b) && ParsedTerms(ts) && WithinLimit(ScalarTerms(cfg, scope, depths, fuel, ts, lock))
    ensures SameTerms(lock, ScalarTerms(cfg, scope, depths, fuel, ts, lock), ExpandTerms(cfg, true, b, depths, fuel, ts))
    decreases fuel, 1, 0
  {
    SimTermList(cfg, scope, b, depths, fuel - 1, ts, lock);
  }

  lemma {:induction false} SimTermList(cfg: Config, scope: Scope, b: Bindings, depths: Depths, fuel: nat, ts: seq<Term>, lock: bool)
    requires ProgramClean(cfg) && Bound(scope, b) && ParsedTerms(ts) && WithinLimit(ScalarTermList(cfg, scope, depths, fuel, ts, lock))
    ensures SameTerms(lock, ScalarTermList(cfg, scope, depths, fuel, ts, lock), ExpandTermList(cfg, true, b, depths, fuel, ts))
    decreases fuel, 6, |ts|
  {
    if ts != [] {
      SimTerm(cfg, scope, b, depths, fuel, ts[0], lock);
      if ScalarTerm(cfg, scope, depths, fuel, ts[0], lock).Ok? {
        SimTermList(cfg, scope, b, depths, fuel, ts[1..], lock);
        var first, rest := ExpandTerm(cfg, true, b, depths, fuel, ts[0]), ExpandTermList(cfg, true, b, depths, fuel, ts[1..]);
        if rest.Ok? { WrittenTermsConcat(lock, first.value.value, rest.value.value); }
      }
    }
  }

  lemma {:induction false} SimTerm(cfg: Config, scope: Scope, b: Bindings, depths: Depths, fuel: nat, t: Term, lock: bool)
    requires ProgramClean(cfg) && Bound(scope, b) && Parsed(t) && WithinLimit(ScalarTerm(cfg, scope, depths, fuel, t, lock))
    ensures SameTerms(lock, ScalarTerm(cfg, scope, depths, fuel, t, lock), ExpandTerm(cfg, true, b, depths, fuel, t))
    decreases fuel, 1, 0
  {
    match t
    case Var(id) => SimVar(cfg, scope, b, depths, fuel - 1, id, lock);
    case Xfm(mods, body) =>
      SimXfm(cfg, scope, b, depths, fuel - 1, mods, body);
      var x := Transformation(cfg, scope, depths, fuel - 1, mods, body);
      if x.Ok? { WrittenTwice(lock, false, x.value.value); }
    case Call(fn, params) => SimScalarCall(cfg, scope, b, depths, fuel, fn, params, lock);
    case If(cond, yes, no) => SimScalarIf(cfg, scope, b, depths, fuel, cond, yes, no, lock);
    case _ =>
  }

  lemma {:induction false} SimScalarIf(cfg: Config, scope: Scope, b: Bindings, depths: Depths, fuel: nat, cond: Term, yes: Cmd, no: Cmd, lock: bool)
    requires ProgramClean(cfg) && Bound(scope, b) && Parsed(If(cond, yes, no)) && WithinLimit(ScalarTerm(cfg, scope, depths, fuel, If(cond, yes, no), lock))
    ensures SameTerms(lock, ScalarTerm(cfg, scope, depths, fuel, If(cond, yes, no), lock), ExpandTerm(cfg, true, b, depths, fuel, If(cond, yes, no)))
    decreases fuel, 0, 0
  {
    var holds := Condition(cfg, scope, depths, fuel - 1, cond);
    assert ExpandCondition(cfg, true, b, depths, fuel - 1, cond) == holds by { SimCondition(cfg, scope, b, depths, fuel - 1, cond); }
    if holds.Ok? {
      var branch := if holds.value.value then yes else no;
      assert ParsedArgs(branch.args);
      if |branch.args| == 1 {
        assert branch.args[0] in branch.args;
        SimBranch(cfg, scope, b, depths, fuel - 1, branch.args[0].terms, lock, holds.value.calls);
      }
    }
  }

  lemma {:induction false} SimBranch(cfg: Config, scope: Scope, b: Bindings, depths: Depths, fuel: nat, ts: seq<Term>, lock: bool, calls: seq<VarId>)
    requires ProgramClean(cfg) && Bound(scope, b) && ParsedTerms(ts) && WithinLimit(ScalarTerms(cfg, scope, depths, fuel, ts, lock))
    ensures SameTerms(lock, After(calls, ScalarTerms(cfg, scope, depths, fuel, ts, lock)), After(calls, ExpandTerms(cfg, true, b, depths, fuel, ts)))
    decreases fuel, 2, 0
  {
    SimTerms(cfg, scope, b, depths, fuel, ts, lock);
  }

  lemma {:induction false} SimScalarCall(cfg: Config, scope: Scope, b: Bindings, depths: Depths, fuel: nat, fn: VarId, params: seq<MacroArg>, lock: bool)
    requires ProgramClean(cfg) && Bound(scope, b) && Parsed(Call(fn, params)) && WithinLimit(ScalarTerm(cfg, scope, depths, fuel, Call(fn, params), lock))
    ensures SameTerms(lock, ScalarTerm(cfg, scope, depths, fuel, Call(fn, params), lock), ExpandTerm(cfg, true, b, depths, fuel, Call(fn, params)))
    decreases fuel, 0, 0
  {
    SimCall(cfg, scope, b, depths, fuel - 1, fn, params);
    var to, inner := CallRedirect(cfg, scope, depths, fuel - 1, fn, params), CallBindings(cfg, true, b, depths, fuel - 1, fn, params);
    if to.Ok? { SimTermsIn(cfg, to.value.value, inner.value.value, fuel - 1, lock); }
  }

  lemma {:induction false} SimTermsIn(cfg: Config, to: Redirect, b: Bindings, fuel: nat, lock: bool)
    requires ProgramClean(cfg) && Bound(to.scope, b) && ParsedScript(to.script) && WithinLimit(TermsIn(cfg, to, fuel, lock))
    ensures SameTerms(lock, TermsIn(cfg, to, fuel, lock), ExpandTermsIn(cfg, true, b, to.depths, fuel, to.script))
    decreases fuel, 2, 0
  {
    if |to.script| == 1 && |to.script[0].args| == 1 {
      FirstTermsParsed(to.script);
      SimTerms(cfg, to.scope, b, to.depths, fuel, to.script[0].args[0].terms, lock);
    }
  }

  lemma {:induction false} SimVar(cfg: Config, scope: Scope, b: Bindings, depths: Depths, fuel: nat, id: VarId, lock: bool)
    requires ProgramClean(cfg) && Bound(scope, b) && WithinLimit(ScalarVar(cfg, scope, depths, fuel, id, lock))
    ensures SameTerms(lock, ScalarVar(cfg, scope, depths, fuel, id, lock), ExpandVar(cfg, true, b, depths, fuel, id))
    decreases fuel, 3, 0
  {
    assert BoundAt(scope, b, id);
    match MeaningOf(cfg, b, depths, id)
    case Data(_) => SimVarData(cfg, scope, b, depths, fuel, id, lock);
    case Code(s) =>
      if |s| == 1 && |s[0].args| == 1 {
        FirstTermsParsed(s);
        SimTerms(cfg, scope, b, Enter(depths, id, true), fuel, s[0].args[0].terms, lock);
      }
    case _ =>
  }

  lemma SimVarData(cfg: Config, scope: Scope, b: Bindings, depths: Depths, fuel: nat, id: VarId, lock: bool)
    requires id in b && BoundAt(scope, b, id) && WithinLimit(ScalarVar(cfg, scope, depths, fuel, id, lock))
    ensures SameTerms(lock, ScalarVar(cfg, scope, depths, fuel, id, lock), ExpandVar(cfg, true, b, depths, fuel, id))
  {
    var s := b[id];
    if |s| == 1 && |s[0].args| == 1 {
      assert s[0] in s && s[0].args[0] in s[0].args;
      assert WithinLimit(ScalarTerms(cfg, scope, depths, fuel, WrittenTerms(true, s[0].args[0].terms), lock));
      LockedTermList(cfg, scope, depths, fuel - 1, s[0].args[0].terms, lock);
    }
  }

  // ---------------------------------------------------------------- transformations

  lemma {:induction false} SimXfm(cfg: Config, scope: Scope, b: Bindings, depths: Depths, fuel: nat, mods: seq<Modifier>, body: seq<Arg>)
    requires ProgramClean(cfg) && Bound(scope, b) && Parsed(Xfm(mods, body)) && WithinLimit(Transformation(cfg, scope, depths, fuel, mods, body))
    ensures SameXfm(Transformation(cfg, scope, depths, fuel, mods, body), ExpandXfm(cfg, true, b, depths, fuel, mods, body))
    decreases fuel, 1, 0
  {
    ParsedXfm(mods, body);
    var m, m' := ModList(cfg, scope, depths, fuel - 1, mods), ExpandMods(cfg, true, b, depths, fuel - 1, mods);
    var n, n' := Body(cfg, scope, depths, fuel - 1, body), ExpandBody(cfg, true, b, depths, fuel - 1, body);
    assert Transformation(cfg, scope, depths, fuel, mods, body) == XfmOf(m, n) && ExpandXfm(cfg, true, b, depths, fuel, mods, body) == XfmOf(m', n');
    assert SameMods(m, m') by { SimMods(cfg, scope, b, depths, fuel - 1, mods); }
    assert m.Ok? ==> SameBody(n, n') by {
      if m.Ok? { SimBody(cfg, scope, b, depths, fuel - 1, body); }
    }
    SameXfms(m, n, m', n');
  }

  function XfmOf(m: Outcome<seq<Modifier>>, n: Outcome<seq<Arg>>): Outcome<Term> {
    if m.Err? then Err(m.error) else if n.Err? then Err(n.error)
    else Ok(Made(Xfm(m.value.value, n.value.value), m.value.calls + n.value.calls))
  }

  lemma SameXfms(m: Outcome<seq<Modifier>>, n: Outcome<seq<Arg>>, m': Outcome<seq<Modifier>>, n': Outcome<seq<Arg>>)
    requires SameMods(m, m') && (m.Ok? ==> SameBody(n, n'))
    ensures SameXfm(XfmOf(m, n), XfmOf(m', n'))
  {
    if m.Ok? && n.Ok? { JoinXfm(m.value.value, n.value.value, m'.value.value, n'.value.value); }
  }

  lemma JoinXfm(mods: seq<Modifier>, body: seq<Arg>, mods': seq<Modifier>, body': seq<Arg>)
    requires WrittenMods(false, mods) == mods' && WrittenArgs(false, body) == body'
    requires (forall m :: m in mods' ==> LeftoverInside(m.args)) && ParsedArgs(body')
    ensures Written(false, Xfm(mods, body)) == Xfm(mods', body') && Leftover(Xfm(mods', body'))
  {}

  lemma ParsedXfm(mods: seq<Modifier>, body: seq<Arg>)
    ensures Parsed(Xfm(mods, body)) <==> (forall m :: m in mods ==> ParsedArgs(m.args)) && ParsedArgs(body)
  {}

  lemma {:induction false} SimBody(cfg: Config, scope: Scope, b: Bindings, depths: Depths, fuel: nat, body: seq<Arg>)
    requires ProgramClean(cfg) && Bound(scope, b) && ParsedArgs(body) && WithinLimit(Body(cfg, scope, depths, fuel, body))
    ensures SameBody(Body(cfg, scope, depths, fuel, body), ExpandBody(cfg, true, b, depths, fuel, body))
    decreases fuel, 3, 0
  {
    ParsedArgsUnlocked(body);
    if IsVarBody(body) {
      assert BoundAt(scope, b, body[0].terms[0].id);
      if body[0].terms[0].id in b {
        SimBodyData(cfg, scope, b, depths, fuel, body);
      } else {
        SimBodyCode(cfg, scope, b, depths, fuel, body);
      }
    }
  }

  lemma SimBodyData(cfg: Config, scope: Scope, b: Bindings, depths: Depths, fuel: nat, body: seq<Arg>)
    requires IsVarBody(body) && body[0].terms[0].id in b && BoundAt(scope, b, body[0].terms[0].id)
    requires WithinLimit(Body(cfg, scope, depths, fuel, body))
    ensures SameBody(Body(cfg, scope, depths, fuel, body), ExpandBody(cfg, true, b, depths, fuel, body))
  {
    var s := b[body[0].terms[0].id];
    if |s| == 1 {
      LockedIsData(cfg, scope, depths, fuel, s, false);
      OnlyCommandUnlocked(s);
    }
  }

  lemma {:induction false} SimBodyCode(cfg: Config, scope: Scope, b: Bindings, depths: Depths, fuel: nat, body: seq<Arg>)
    requires ProgramClean(cfg) && Bound(scope, b) && ParsedArgs(body) && WrittenArgs(false, body) == body
    requires IsVarBody(body) && body[0].terms[0].id !in b && Lookup(scope, body[0].terms[0].id) == None
    requires WithinLimit(Body(cfg, scope, depths, fuel, body))
    ensures SameBody(Body(cfg, scope, depths, fuel, body), ExpandBody(cfg, true, b, depths, fuel, body))
    decreases fuel, 2, 0
  {
    var id := body[0].terms[0].id;
    match MeaningOf(cfg, b, depths, id)
    case Code(s) =>
      if |s| == 1 { SimOnly(cfg, scope, b, Enter(depths, id, true), fuel, s); }
    case _ =>
  }

  function OnlyOf(r: Outcome<Script>): Outcome<seq<Arg>> {
    if r.Err? then Err(r.error) else After(r.value.calls, OnlyCommand(r.value.value))
  }

  lemma {:induction false} SimOnly(cfg: Config, scope: Scope, b: Bindings, depths: Depths, fuel: nat, s: Script)
    requires ProgramClean(cfg) && Bound(scope, b) && ParsedScript(s) && WithinLimit(Commands(cfg, scope, depths, fuel, s, false))
    ensures SameBody(OnlyOf(Commands(cfg, scope, depths, fuel, s, false)), OnlyOf(Expand(cfg, true, b, depths, fuel, s)))
    decreases fuel, 1, 1
  {
    SimCommands(cfg, scope, b, depths, fuel, s, false);
    var r := Expand(cfg, true, b, depths, fuel, s);
    if r.Ok? { OnlyCommandUnlocked(r.value.value); }
  }

  lemma OnlyCommandUnlocked(s: Script)
    requires LeftoverScript(s)
    ensures WrittenScript(false, s) == s
    ensures var r := OnlyCommand(s); r.Ok? ==> ParsedArgs(r.value.value) && WrittenArgs(false, r.value.value) == r.value.value
  {
    LeftoverScriptUnlocked(s);
    if |s| == 1 {
      assert s[0] in s;
      LeftoverArgsUnlocked(s[0].args);
    }
  }

  lemma {:induction false} SimMods(cfg: Config, scope: Scope, b: Bindings, depths: Depths, fuel: nat, mods: seq<Modifier>)
    requires ProgramClean(cfg) && Bound(scope, b) && (forall m :: m in mods ==> ParsedArgs(m.args)) && WithinLimit(ModList(cfg, scope, depths, fuel, mods))
    ensures SameMods(ModList(cfg, scope, depths, fuel, mods), ExpandMods(cfg, true, b, depths, fuel, mods))
    decreases fuel, 6, |mods|
  {
    if mods != [] {
      assert mods[0] in mods;
      SimModArgs(cfg, scope, b, depths, fuel, mods[0].args);
      if ModArgs(cfg, scope, depths, fuel, mods[0].args).Ok? { SimMods(cfg, scope, b, depths, fuel, mods[1..]); }
    }
  }

  lemma {:induction false} SimModArgs(cfg: Config, scope: Scope, b: Bindings, depths: Depths, fuel: nat, args: seq<Arg>)
    requires ProgramClean(cfg) && Bound(scope, b) && ParsedArgs(args) && WithinLimit(ModArgs(cfg, scope, depths, fuel, args))
    ensures SameModArgs(ModArgs(cfg, scope, depths, fuel, args), ExpandModArgs(cfg, true, b, depths, fuel, args))
    decreases fuel, 5, |args|
  {
    if args != [] {
      assert args[0] in args;
      SimModTerms(cfg, scope, b, depths, fuel, args[0].terms);
      if ModTerms(cfg, scope, depths, fuel, args[0].terms).Ok? { SimModArgs(cfg, scope, b, depths, fuel, args[1..]); }
    }
  }

  lemma {:induction false} SimModTerms(cfg: Config, scope: Scope, b: Bindings, depths: Depths, fuel: nat, ts: seq<Term>)
    requires ProgramClean(cfg) && Bound(scope, b) && ParsedTerms(ts) && WithinLimit(ModTerms(cfg, scope, depths, fuel, ts))
    ensures SameModTerms(ModTerms(cfg, scope, depths, fuel, ts), ExpandModTerms(cfg, true, b, depths, fuel, ts))
    decreases fuel, 4, |ts|
  {
    if ts != [] {
      SimModTerm(cfg, scope, b, depths, fuel, ts[0]);
      var first := ModArgTerm(cfg, scope, depths, fuel, ts[0]);
      if first.Ok? {
        SimModTerms(cfg, scope, b, depths, fuel, ts[1..]);
        var rest := ModTerms(cfg, scope, depths, fuel, ts[1..]);
        if rest.Ok? { WrittenTermsConcat(false, first.value.value, rest.value.value); }
      }
    }
  }

  lemma {:induction false} SimModTerm(cfg: Config, scope: Scope, b: Bindings, depths: Depths, fuel: nat, t: Term)
    requires ProgramClean(cfg) && Bound(scope, b) && Parsed(t) && WithinLimit(ModArgTerm(cfg, scope, depths, fuel, t))
    ensures SameModTerms(ModArgTerm(cfg, scope, depths, fuel, t), ExpandModTerm(cfg, true, b, depths, fuel, t))
    decreases fuel, 1, 0
  {
    match t
    case Xfm(mods, body) => SimXfm(cfg, scope, b, depths, fuel - 1, mods, body);
    case Var(id) =>
      assert BoundAt(scope, b, id);
      if id in b {
        SimModData(cfg, scope, b, depths, fuel, id);
      } else {
        SimModCode(cfg, scope, b, depths, fuel, id);
      }
    case _ =>
  }

  lemma SimModData(cfg: Config, scope: Scope, b: Bindings, depths: Depths, fuel: nat, id: VarId)
    requires id in b && BoundAt(scope, b, id) && WithinLimit(ModArgTerm(cfg, scope, depths, fuel, Var(id)))
    ensures SameModTerms(ModArgTerm(cfg, scope, depths, fuel, Var(id)), ExpandModTerm(cfg, true, b, depths, fuel, Var(id)))
  {
    var s := b[id];
    if |s| == 1 {
      assert s[0] in s;
      if |s[0].args| == 1 {
        assert s[0].args[0] in s[0].args;
        LeftoverTermsUnlocked(s[0].args[0].terms);
        LockedModTerms(cfg, scope, depths, fuel - 1, s[0].args[0].terms);
      }
    }
  }

  lemma {:induction false} SimModCode(cfg: Config, scope: Scope, b: Bindings, depths: Depths, fuel: nat, id: VarId)
    requires ProgramClean(cfg) && Bound(scope, b) && Lookup(scope, id) == None && id !in b
    requires WithinLimit(ModArgTerm(cfg, scope, depths, fuel, Var(id)))
    ensures SameModTerms(ModArgTerm(cfg, scope, depths, fuel, Var(id)), ExpandModTerm(cfg, true, b, depths, fuel, Var(id)))
    decreases fuel, 0, 0
  {
    match MeaningOf(cfg, b, depths, id)
    case Code(s) =>
      if |s| == 1 && |s[0].args| == 1 {
        FirstTermsParsed(s);
        SimModTerms(cfg, scope, b, Enter(depths, id, true), fuel - 1, s[0].args[0].terms);
      }
    case _ =>
  }

  lemma FirstTermsParsed(s: Script)
    requires ParsedScript(s) && |s| == 1 && |s[0].args| == 1
    ensures ParsedTerms(s[0].args[0].terms)
  {
    assert s[0] in s && s[0].args[0] in s[0].args;
  }

  /** For every script and configuration, unless the nesting limit stops the inliner it does exactly
      what the reference expander does by name, failures included; and no locked variable is left
      in a result. */
  lemma InliningIsByName(cfg: Config, script: Script)
    requires ParserClean(cfg) && ParsedScript(script)
    ensures Inlined(cfg, script) == Err(TooDeep) || Inlined(cfg, script) == Expand(cfg, true, map[], map[], MAX_DEPTH, script)
    ensures Inlined(cfg, script).Ok? ==> ParsedScript(Inlined(cfg, script).value.value)
  {
    DefinitionsClean(cfg);
    forall id
      ensures BoundAt(Global, map[], id)
    {}
    if WithinLimit(Inlined(cfg, script)) {
      SimCommands(cfg, Global, map[], map[], MAX_DEPTH, script, false);
      var r := Expand(cfg, true, map[], map[], MAX_DEPTH, script);
      if r.Ok? { LeftoverScriptUnlocked(r.value.value); }
    }
  }
}
