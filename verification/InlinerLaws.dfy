/** Laws of inlining that fix what its parts do: each is about a whole family of scripts and
    says what comes out without going through the expander. */
module InlinerLaws {
  import opened Wrappers
  import opened InlinerSyntax
  import opened Inliner
  import opened InlinerEscape

  // ---------------------------------------------------------------- shapes and names

  lemma ShapeExact(script: Script, ts: seq<Term>)
    ensures ShapeOf(script) == Single(ts) <==> script == [Cmd([Arg(ts)])]
    ensures ShapeOf(script) == Empty <==> script == [] || script == [Cmd([])]
    ensures ShapeOf(script) == ManyCommands <==> |script| > 1
    ensures ShapeOf(script) == ManyArguments <==> |script| == 1 && |script[0].args| > 1
  {
    if |script| == 1 {
      assert script == [script[0]];
      var args := script[0].args;
      if |args| == 1 { assert args == [args[0]]; }
    }
  }

  /** A reserved name is some name with one of three endings, or the name of a macro. */
  lemma ReservedExact(stem: string, name: string, blocks: set<string>)
    ensures Reserved(stem + "__NO_UID__", blocks) && Reserved(stem + "__NOINLINE__", blocks) && Reserved(stem + "__LATEOUT__", blocks)
    ensures Reserved(name, blocks) ==>
      || name in blocks
      || exists s :: name == s + "__NO_UID__" || name == s + "__NOINLINE__" || name == s + "__LATEOUT__"
    ensures name in blocks ==> Reserved(name, blocks)
  {
    EndingExact(stem, "__NO_UID__", name);
    EndingExact(stem, "__NOINLINE__", name);
    EndingExact(stem, "__LATEOUT__", name);
  }

  lemma EndingExact(stem: string, suffix: string, name: string)
    ensures EndsWith(stem + suffix, suffix)
    ensures EndsWith(name, suffix) ==> name == name[..|name| - |suffix|] + suffix
  {
    assert (stem + suffix)[|stem|..] == suffix;
  }

  // ---------------------------------------------------------------- constants stay

  ghost predicate ConstantTerms(ts: seq<Term>) { ts != [] && forall i :: 0 <= i < |ts| ==> ts[i].Value? }

  ghost predicate ConstantArgs(args: seq<Arg>) { forall i :: 0 <= i < |args| ==> ConstantTerms(args[i].terms) }

  /** Commands with arguments, arguments with terms, terms that are constants. */
  ghost predicate ConstantScript(script: Script) {
    forall i :: 0 <= i < |script| ==> script[i].args != [] && ConstantArgs(script[i].args)
  }

  lemma {:induction false} TermsStay(cfg: Config, scope: Scope, depths: Depths, fuel: nat, ts: seq<Term>, lock: bool)
    requires fuel > 0 && forall i :: 0 <= i < |ts| ==> ts[i].Value?
    ensures ScalarTermList(cfg, scope, depths, fuel, ts, lock) == Plain(ts)
    decreases ts
  {
    if ts != [] {
      TermsStay(cfg, scope, depths, fuel, ts[1..], lock);
      JoinedPlain(ts[0], ts[1..]);
      assert ts == [ts[0]] + ts[1..];
    }
  }

  lemma ArgumentStays(cfg: Config, scope: Scope, depths: Depths, fuel: nat, arg: Arg, lock: bool)
    requires fuel > 1 && ConstantTerms(arg.terms)
    ensures OneArgument(cfg, scope, depths, fuel, arg, lock) == Plain([arg])
  {
    assert arg.terms[0].Value?;
    TermsStay(cfg, scope, depths, fuel - 1, arg.terms, lock);
  }

  lemma {:induction false} ArgumentsStay(cfg: Config, scope: Scope, depths: Depths, fuel: nat, args: seq<Arg>, lock: bool)
    requires fuel > 1 && ConstantArgs(args)
    ensures ArgumentList(cfg, scope, depths, fuel, args, lock) == Plain(args)
    decreases args
  {
    if args != [] {
      ArgumentStays(cfg, scope, depths, fuel, args[0], lock);
      ArgumentsStay(cfg, scope, depths, fuel, args[1..], lock);
      JoinedPlain(args[0], args[1..]);
      assert args == [args[0]] + args[1..];
    }
  }

  lemma CommandStays(cfg: Config, scope: Scope, depths: Depths, fuel: nat, cmd: Cmd, lock: bool)
    requires fuel > 2 && cmd.args != [] && ConstantArgs(cmd.args)
    ensures OneCommand(cfg, scope, depths, fuel, cmd, lock) == Plain([cmd])
  {
    assert ConstantTerms(cmd.args[0].terms);
    assert cmd.args[0].terms[0].Value?;
    ArgumentsStay(cfg, scope, depths, fuel - 1, cmd.args, lock);
  }

  lemma {:induction false} CommandsStay(cfg: Config, scope: Scope, depths: Depths, fuel: nat, script: Script, lock: bool)
    requires fuel > 2 && ConstantScript(script)
    ensures CommandList(cfg, scope, depths, fuel, script, lock) == Plain(script)
    decreases script
  {
    if script != [] {
      CommandStays(cfg, scope, depths, fuel, script[0], lock);
      CommandsStay(cfg, scope, depths, fuel, script[1..], lock);
      JoinedPlain(script[0], script[1..]);
      assert script == [script[0]] + script[1..];
    }
  }

  /** A script of constants is its own inlining, and nothing is called. */
  lemma ConstantsStay(cfg: Config, script: Script)
    requires ConstantScript(script)
    ensures Inlined(cfg, script) == Plain(script)
  {
    CommandsStay(cfg, Global, map[], MAX_DEPTH - 1, script, false);
  }

  // ---------------------------------------------------------------- order

  lemma JoinedAssociative<T>(a: Made<seq<T>>, b: Made<seq<T>>, c: Made<seq<T>>)
    ensures Joined(a, Joined(b, c)) == Joined(Joined(a, b), c)
  {
    assert a.value + (b.value + c.value) == (a.value + b.value) + c.value;
    assert a.calls + (b.calls + c.calls) == (a.calls + b.calls) + c.calls;
  }

  /** One script after another is inlined as one after the other, with results and calls in that order. */
  lemma {:induction false} OneAfterAnother(cfg: Config, scope: Scope, depths: Depths, fuel: nat, a: Script, b: Script, lock: bool)
    ensures CommandList(cfg, scope, depths, fuel, a + b, lock) ==
      match CommandList(cfg, scope, depths, fuel, a, lock)
      case Err(e) => Err(e)
      case Ok(x) =>
        match CommandList(cfg, scope, depths, fuel, b, lock)
        case Err(e) => Err(e)
        case Ok(y) => Ok(Made(x.value + y.value, x.calls + y.calls))
    decreases a
  {
    var s, y := a + b, CommandList(cfg, scope, depths, fuel, b, lock);
    if a == [] {
      assert s == b;
      if y.Ok? { assert [] + y.value.value == y.value.value && [] + y.value.calls == y.value.calls; }
    } else {
      assert s[0] == a[0] && s[1..] == a[1..] + b;
      OneAfterAnother(cfg, scope, depths, fuel, a[1..], b, lock);
      var first, rest := OneCommand(cfg, scope, depths, fuel, a[0], lock), CommandList(cfg, scope, depths, fuel, a[1..], lock);
      if first.Ok? && rest.Ok? && y.Ok? { JoinedAssociative(first.value, rest.value, y.value); }
    }
  }

  lemma ScriptAfterScript(cfg: Config, a: Script, b: Script)
    ensures Inlined(cfg, a + b) ==
      match Inlined(cfg, a)
      case Err(e) => Err(e)
      case Ok(x) =>
        match Inlined(cfg, b)
        case Err(e) => Err(e)
        case Ok(y) => Ok(Made(x.value + y.value, x.calls + y.calls))
  {
    OneAfterAnother(cfg, Global, map[], MAX_DEPTH - 1, a, b, false);
  }

  // ---------------------------------------------------------------- definitions refer to their base

  function Constants(vs: seq<nat>): seq<Arg> { seq(|vs|, i requires 0 <= i < |vs| => Arg([Value(vs[i])])) }

  /** Each definition of `id` but the last is a constant followed by the variable itself. */
  ghost predicate Chained(cfg: Config, id: VarId, vs: seq<nat>) {
    && IsVariable(cfg, id) && |cfg.legacy[id]| == |vs| > 0
    && (forall i :: 0 <= i < |vs| - 1 ==> DefinitionOf(cfg, cfg.legacy[id][i]) == [Cmd([Arg([Value(vs[i])]), Arg([Var(id)])])])
    && DefinitionOf(cfg, cfg.legacy[id][|vs| - 1]) == Constant(vs[|vs| - 1])
  }

  /** The variable at the `i`-th of its definitions stands for the constants from there on: in each definition
      it means the one before. */
  lemma {:induction false} BaseDefinitions(cfg: Config, depths: Depths, fuel: nat, id: VarId, vs: seq<nat>, i: nat)
    requires Chained(cfg, id, vs) && i < |vs| && DepthOf(depths, id) == i && fuel > |vs| - i + 2
    ensures OneArgument(cfg, Global, depths, fuel, Arg([Var(id)]), false) == Plain(Constants(vs[i..]))
    decreases |vs| - i
  {
    var deeper := depths[id := i + 1];
    VariableStands(cfg, depths, fuel, id);
    if i == |vs| - 1 {
      ValueArgument(cfg, Global, deeper, fuel - 1, vs[i], false);
      OnlyArgumentInlined(cfg, Global, deeper, fuel, Arg([Value(vs[i])]), false);
      assert Constants(vs[i..]) == [Arg([Value(vs[i])])];
    } else {
      BaseDefinitions(cfg, deeper, fuel - 1, id, vs, i + 1);
      ConstantThenRest(cfg, deeper, fuel - 1, vs[i], Arg([Var(id)]), Constants(vs[i + 1..]));
      assert Constants(vs[i..]) == [Arg([Value(vs[i])])] + Constants(vs[i + 1..]);
    }
  }

  /** A lone mention is replaced by the arguments of the definition, inlined one definition deeper. */
  lemma VariableStands(cfg: Config, depths: Depths, fuel: nat, id: VarId)
    requires fuel > 0 && IsVariable(cfg, id) && DepthOf(depths, id) < |cfg.legacy[id]|
    requires |DefinitionOf(cfg, cfg.legacy[id][DepthOf(depths, id)])| == 1
    ensures OneArgument(cfg, Global, depths, fuel, Arg([Var(id)]), false) ==
      ArgumentList(cfg, Global, depths[id := DepthOf(depths, id) + 1], fuel - 1, DefinitionOf(cfg, cfg.legacy[id][DepthOf(depths, id)])[0].args, false)
  {
    var i := DepthOf(depths, id);
    var to := Redirect(DefinitionOf(cfg, cfg.legacy[id][i]), Global, depths[id := i + 1]);
    var r := ArgumentsIn(cfg, to, fuel, false);
    assert Standalone(cfg, Global, depths, fuel, Var(id)) == Plain(Some(to));
    assert OneArgument(cfg, Global, depths, fuel, Arg([Var(id)]), false) == After([], r);
    AfterNothing(r);
    assert r == Arguments(cfg, Global, to.depths, fuel, to.script[0].args, false);
  }

  lemma ConstantThenRest(cfg: Config, depths: Depths, fuel: nat, v: nat, arg: Arg, rest: seq<Arg>)
    requires fuel > 1 && OneArgument(cfg, Global, depths, fuel, arg, false) == Plain(rest)
    ensures ArgumentList(cfg, Global, depths, fuel, [Arg([Value(v)]), arg], false) == Plain([Arg([Value(v)])] + rest)
  {
    var args := [Arg([Value(v)]), arg];
    ValueArgument(cfg, Global, depths, fuel, v, false);
    OnlyArgumentInlined(cfg, Global, depths, fuel + 1, arg, false);
    assert args[1..] == [arg];
    assert ArgumentList(cfg, Global, depths, fuel, args[1..], false) == Plain(rest);
    JoinedPlain(Arg([Value(v)]), rest);
  }

  /** So a mention after a constant stands for all the constants in order. */
  lemma DefinitionsUnfold(cfg: Config, id: VarId, vs: seq<nat>, v: nat)
    requires Chained(cfg, id, vs) && |vs| <= MAX_DEPTH - 5
    ensures Inlined(cfg, [Cmd([Arg([Value(v)]), Arg([Var(id)])])]) == Plain([Cmd(Constants([v] + vs))])
  {
    var args := [Arg([Value(v)]), Arg([Var(id)])];
    BaseDefinitions(cfg, map[], MAX_DEPTH - 2, id, vs, 0);
    assert vs[0..] == vs;
    ConstantThenRest(cfg, map[], MAX_DEPTH - 2, v, Arg([Var(id)]), Constants(vs));
    OnlyCommandInlined(cfg, Global, map[], MAX_DEPTH, Cmd(args), false);
    assert Constants([v] + vs) == [Arg([Value(v)])] + Constants(vs);
  }

  // ---------------------------------------------------------------- calls and conditions

  /** Values given for one parameter in several places are put one after the other. */
  lemma ArgumentsGathered(cfg: Config, scope: Scope, depths: Depths, fuel: nat, id: VarId, a: Script, b: Script)
    requires fuel > 3 && ConstantScript(a) && ConstantScript(b)
    ensures FillMacroArgs(cfg, scope, depths, fuel, [MacroArg(id, a), MacroArg(id, b)], map[]) == Plain(map[id := a + b])
  {
    var params := [MacroArg(id, a), MacroArg(id, b)];
    assert params[1..] == [MacroArg(id, b)] && params[1..][1..] == [];
    assert [] + a == a;
    var none: map<VarId, Script> := map[];
    OneFilledIn(cfg, scope, depths, fuel, params, none, a);
    OneFilledIn(cfg, scope, depths, fuel, params[1..], none[id := a], b);
    assert none[id := a][id := a + b] == map[id := a + b];
  }

  /** A value of constants is put after what the parameter holds already. */
  lemma OneFilledIn(cfg: Config, scope: Scope, depths: Depths, fuel: nat, params: seq<MacroArg>, defs: map<VarId, Script>, value: Script)
    requires fuel > 3 && params != [] && params[0].value == value && ConstantScript(value)
    ensures var name := params[0].name;
      FillMacroArgs(cfg, scope, depths, fuel, params, defs) ==
      FillMacroArgs(cfg, scope, depths, fuel, params[1..], defs[name := (if name in defs then defs[name] else []) + value])
  {
    CommandsStay(cfg, scope, depths, fuel - 1, value, true);
    var name := params[0].name;
    AfterNothing(FillMacroArgs(cfg, scope, depths, fuel, params[1..], defs[name := (if name in defs then defs[name] else []) + value]));
  }

  /** A macro that only mentions its parameter stands for what is passed. */
  lemma CallPasses(cfg: Config, fn: VarId, id: VarId, a: Script, b: Script)
    requires fn in cfg.macros && cfg.parse(cfg.macros[fn]) == [Cmd([Arg([Var(id)])])]
    requires ConstantScript(a) && ConstantScript(b)
    ensures Inlined(cfg, [Cmd([Arg([Call(fn, [MacroArg(id, a), MacroArg(id, b)])])])]) == Ok(Made(a + b, [fn]))
  {
    var params := [MacroArg(id, a), MacroArg(id, b)];
    var inner := Frame(map[id := a + b], Global);
    var n := MAX_DEPTH - 1;
    ArgumentsGathered(cfg, Global, map[], n, id, a, b);
    assert CallRedirect(cfg, Global, map[], n, fn, params) == Ok(Made(Redirect([Cmd([Arg([Var(id)])])], inner, map[]), [fn])) by {
      assert [fn] + [] == [fn];
    }
    OnlyCommandInlined(cfg, Global, map[], MAX_DEPTH, Cmd([Arg([Call(fn, params)])]), false);
    ParameterStands(cfg, inner, n, id, a + b);
    assert [fn] + [] == [fn];
  }

  lemma ParameterStands(cfg: Config, scope: Scope, fuel: nat, id: VarId, script: Script)
    requires fuel > 4 && Lookup(scope, id) == Some(script) && ConstantScript(script)
    ensures Commands(cfg, scope, map[], fuel, [Cmd([Arg([Var(id)])])], false) == Plain(script)
  {
    assert Standalone(cfg, scope, map[], fuel - 1, Var(id)) == Plain(Some(Redirect(script, scope, map[])));
    OnlyCommandInlined(cfg, scope, map[], fuel, Cmd([Arg([Var(id)])]), false);
    CommandsStay(cfg, scope, map[], fuel - 2, script, false);
    AfterNothing(Commands(cfg, scope, map[], fuel - 1, script, false));
  }

  /** The condition chooses the command; one without a truth value is an error. */
  lemma ConditionChooses(cfg: Config, c: nat, yes: Cmd, no: Cmd)
    requires ConstantScript([yes]) && ConstantScript([no])
    ensures Inlined(cfg, [Cmd([Arg([If(Value(c), yes, no)])])]) ==
      match cfg.evalBool(Value(c))
      case None => Err(BadCondition)
      case Some(h) => Plain([if h then yes else no])
  {
    var t, n := If(Value(c), yes, no), MAX_DEPTH - 1;
    OnlyCommandInlined(cfg, Global, map[], MAX_DEPTH, Cmd([Arg([t])]), false);
    assert ScalarTerm(cfg, Global, map[], n, Value(c), false) == Plain([Value(c)]);
    var v := cfg.evalBool(Value(c));
    if v.Some? {
      var branch := [if v.value then yes else no];
      assert Standalone(cfg, Global, map[], n, t) == Plain(Some(Redirect(branch, Global, map[])));
      CommandsStay(cfg, Global, map[], n - 1, branch, false);
      AfterNothing(Commands(cfg, Global, map[], n, branch, false));
    }
  }
}
