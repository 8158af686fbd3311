/** A parameter that stands for several arguments leaves its scope by way of a modifier argument. */
module InlinerEscape {
  import opened Wrappers
  import opened InlinerSyntax
  import opened Inliner
  import opened InlinerReference
  import opened InlinerTheory
  import opened InlinerMeaning
  import opened InlinerHygiene

  function Mention(f: nat, id: VarId): seq<Modifier> { [Modifier(f, [Arg([Var(id)])])] }

  function StringBody(u: nat): seq<Arg> { [Arg([Value(u)])] }

  /** The text of a macro whose one transformation mentions the parameter in a modifier argument. */
  function Mentioning(f: nat, id: VarId, u: nat): Script { [Cmd([Arg([Xfm(Mention(f, id), StringBody(u))])])] }

  function CallWith(fn: VarId, id: VarId, value: Script): Script { OneCall(fn, [MacroArg(id, value)]) }

  predicate IsMany(script: Script) { ShapeOf(script).ManyArguments? }

  lemma JoinedLast<T>(first: Made<seq<T>>)
    ensures Joined(first, Made([], [])) == first
  {
    assert first.value + [] == first.value && first.calls + [] == first.calls;
  }

  // ---------------------------------------------------------------- what it means

  /** The outcome `r` of something that mentions a parameter bound to `data`: it has a meaning unless the
      data are several arguments, and then by name it is what it was. */
  ghost predicate MentionOutcome<T>(byName: bool, data: Script, r: Outcome<T>, itself: T) {
    && (r == Err(ManyInModifier) <==> !byName && IsMany(data))
    && (byName && IsMany(data) ==> r == Plain(itself))
  }

  lemma TermOutcome(cfg: Config, byName: bool, b: Bindings, depths: Depths, fuel: nat, id: VarId)
    requires id in b && fuel > 0
    ensures MentionOutcome(byName, b[id], ExpandModTerms(cfg, byName, b, depths, fuel, [Var(id)]), [Var(id)])
  {
    var first := ExpandModTerm(cfg, byName, b, depths, fuel, Var(id));
    assert [Var(id)][1..] == [] && ExpandModTerms(cfg, byName, b, depths, fuel, []) == Plain([]);
    if first.Ok? { JoinedLast(first.value); }
  }

  lemma ModArgsOutcome(cfg: Config, byName: bool, b: Bindings, depths: Depths, fuel: nat, id: VarId)
    requires id in b && fuel > 0
    ensures MentionOutcome(byName, b[id], ExpandModArgs(cfg, byName, b, depths, fuel, [Arg([Var(id)])]), [Arg([Var(id)])])
  {
    TermOutcome(cfg, byName, b, depths, fuel, id);
    var args := [Arg([Var(id)])];
    var ts := ExpandModTerms(cfg, byName, b, depths, fuel, [Var(id)]);
    assert args[1..] == [] && ExpandModArgs(cfg, byName, b, depths, fuel, []) == Plain([]);
    if ts.Ok? { JoinedLast(Made([Arg(ts.value.value)], ts.value.calls)); }
  }

  lemma ModsOutcome(cfg: Config, byName: bool, b: Bindings, depths: Depths, fuel: nat, f: nat, id: VarId)
    requires id in b && fuel > 0
    ensures MentionOutcome(byName, b[id], ExpandMods(cfg, byName, b, depths, fuel, Mention(f, id)), Mention(f, id))
  {
    ModArgsOutcome(cfg, byName, b, depths, fuel, id);
    var args := ExpandModArgs(cfg, byName, b, depths, fuel, [Arg([Var(id)])]);
    assert Mention(f, id)[1..] == [] && ExpandMods(cfg, byName, b, depths, fuel, []) == Plain([]);
    if args.Ok? { JoinedLast(Made([Modifier(f, args.value.value)], args.value.calls)); }
  }

  lemma XfmOutcome(cfg: Config, byName: bool, b: Bindings, depths: Depths, fuel: nat, f: nat, id: VarId, u: nat)
    requires id in b && fuel > 1
    ensures MentionOutcome(byName, b[id], ExpandXfm(cfg, byName, b, depths, fuel, Mention(f, id), StringBody(u)), Xfm(Mention(f, id), StringBody(u)))
  {
    ModsOutcome(cfg, byName, b, depths, fuel - 1, f, id);
    assert ExpandBody(cfg, byName, b, depths, fuel - 1, StringBody(u)) == Plain(StringBody(u));
  }

  lemma TermsOutcome(cfg: Config, byName: bool, b: Bindings, depths: Depths, fuel: nat, f: nat, id: VarId, u: nat)
    requires id in b && fuel > 3
    ensures var t := Xfm(Mention(f, id), StringBody(u)); MentionOutcome(byName, b[id], ExpandTerms(cfg, byName, b, depths, fuel, [t]), [t])
  {
    var t := Xfm(Mention(f, id), StringBody(u));
    XfmOutcome(cfg, byName, b, depths, fuel - 2, f, id, u);
    var first := ExpandTerm(cfg, byName, b, depths, fuel - 1, t);
    assert MentionOutcome(byName, b[id], first, [t]);
    assert [t][1..] == [] && ExpandTermList(cfg, byName, b, depths, fuel - 1, []) == Plain([]);
    if first.Ok? { JoinedLast(first.value); }
  }

  lemma ArgsOutcome(cfg: Config, byName: bool, b: Bindings, depths: Depths, fuel: nat, f: nat, id: VarId, u: nat)
    requires id in b && fuel > 4
    ensures var arg := Arg([Xfm(Mention(f, id), StringBody(u))]); MentionOutcome(byName, b[id], ExpandArgs(cfg, byName, b, depths, fuel, [arg]), [arg])
  {
    var t := Xfm(Mention(f, id), StringBody(u));
    TermsOutcome(cfg, byName, b, depths, fuel - 1, f, id, u);
    var first := ExpandArg(cfg, byName, b, depths, fuel - 1, Arg([t]));
    assert ExpandStandalone(cfg, byName, b, depths, fuel - 1, t) == Plain(Itself);
    assert MentionOutcome(byName, b[id], first, [Arg([t])]);
    assert [Arg([t])][1..] == [] && ExpandArgList(cfg, byName, b, depths, fuel - 1, []) == Plain([]);
    if first.Ok? { JoinedLast(first.value); }
  }

  lemma TextOutcome(cfg: Config, byName: bool, b: Bindings, depths: Depths, fuel: nat, f: nat, id: VarId, u: nat)
    requires id in b && fuel > 5
    ensures MentionOutcome(byName, b[id], Expand(cfg, byName, b, depths, fuel, Mentioning(f, id, u)), Mentioning(f, id, u))
  {
    var t := Xfm(Mention(f, id), StringBody(u));
    ArgsOutcome(cfg, byName, b, depths, fuel - 1, f, id, u);
    assert ExpandStandalone(cfg, byName, b, depths, fuel - 1, t) == Plain(Itself);
    OneCommandExpands(cfg, byName, b, depths, fuel, Cmd([Arg([t])]));
  }

  lemma OneBinding(cfg: Config, byName: bool, fuel: nat, fn: VarId, id: VarId, value: Script)
    requires fn in cfg.macros && Expand(cfg, byName, map[], map[], fuel, value).Ok?
    ensures var r := CallBindings(cfg, byName, map[], map[], fuel, fn, [MacroArg(id, value)]);
      r.Ok? && r.value.value == map[id := Expand(cfg, byName, map[], map[], fuel, value).value.value]
  {
    var data := Expand(cfg, byName, map[], map[], fuel, value).value.value;
    assert [] + data == data;
    assert [MacroArg(id, value)][1..] == [];
    assert Actuals(cfg, byName, map[], map[], fuel, [], map[id := data]) == Plain(map[id := data]);
  }

  /** For every such macro and every argument: the call has a meaning if and only if the argument does not
      stand for several. */
  lemma CallDecides(cfg: Config, fn: VarId, f: nat, id: VarId, u: nat, value: Script, limit: nat)
    requires fn in cfg.macros && cfg.parse(cfg.macros[fn]) == Mentioning(f, id, u) && limit > 6
    requires Expand(cfg, false, map[], map[], limit - 1, value).Ok?
    ensures Means(cfg, CallWith(fn, id, value), limit) == Err(ManyInModifier) <==>
      IsMany(Expand(cfg, false, map[], map[], limit - 1, value).value.value)
  {
    OneCallExpands(cfg, false, map[], map[], limit, fn, [MacroArg(id, value)]);
    OneBinding(cfg, false, limit - 1, fn, id, value);
    var b := CallBindings(cfg, false, map[], map[], limit - 1, fn, [MacroArg(id, value)]).value.value;
    TextOutcome(cfg, false, b, map[], limit - 1, f, id, u);
  }

  // ---------------------------------------------------------------- what the inliner does

  /** If it stands for several, then unless the nesting limit stops it, the inliner returns the text of the
      macro as it is: the result still names the parameter. */
  lemma ParameterEscapes(cfg: Config, fn: VarId, f: nat, id: VarId, u: nat, value: Script)
    requires ParserClean(cfg) && ParsedScript(CallWith(fn, id, value))
    requires fn in cfg.macros && cfg.parse(cfg.macros[fn]) == Mentioning(f, id, u)
    requires var actual := Expand(cfg, false, map[], map[], MAX_DEPTH - 1, value); actual.Ok? && IsMany(actual.value.value)
    ensures var r := Inlined(cfg, CallWith(fn, id, value));
      r == Err(TooDeep) || (r.Ok? && r.value.value == Mentioning(f, id, u) && !AvoidsScript(id, r.value.value))
  {
    var fuel: nat := MAX_DEPTH - 1;
    NamedScript(cfg, map[], map[], fuel, value);
    OneCallExpands(cfg, true, map[], map[], MAX_DEPTH, fn, [MacroArg(id, value)]);
    OneBinding(cfg, true, fuel, fn, id, value);
    var b := CallBindings(cfg, true, map[], map[], fuel, fn, [MacroArg(id, value)]).value.value;
    TextOutcome(cfg, true, b, map[], fuel, f, id, u);
    InliningIsByName(cfg, CallWith(fn, id, value));
    StillNamed(f, id, u);
  }

  lemma StillNamed(f: nat, id: VarId, u: nat)
    ensures !AvoidsScript(id, Mentioning(f, id, u))
  {
    var c := Mentioning(f, id, u)[0];
    var t, m := c.args[0].terms[0], Mention(f, id)[0];
    assert m.args[0].terms[0] == Var(id) && !Avoids(id, Var(id)) && Var(id) in m.args[0].terms;
    assert m.args[0] in m.args && !AvoidsArgs(id, m.args);
    assert m in t.mods && !Avoids(id, t);
    assert t in c.args[0].terms && !AvoidsTerms(id, c.args[0].terms);
    assert c.args[0] in c.args && !AvoidsArgs(id, c.args);
  }

  // ---------------------------------------------------------------- two arguments are enough

  function TwoValues(v: nat, w: nat): Script { [Cmd([Arg([Value(v)]), Arg([Value(w)])])] }

  lemma ValueArgument(cfg: Config, scope: Scope, depths: Depths, fuel: nat, v: nat, lock: bool)
    requires fuel > 1
    ensures OneArgument(cfg, scope, depths, fuel, Arg([Value(v)]), lock) == Plain([Arg([Value(v)])])
  {
    var t := Value(v);
    assert Standalone(cfg, scope, depths, fuel, t) == Plain(None);
    assert ScalarTerm(cfg, scope, depths, fuel - 1, t, lock) == Plain([t]);
    OnlyTermInlined(cfg, scope, depths, fuel, t, lock);
  }

  lemma OnlyTermInlined(cfg: Config, scope: Scope, depths: Depths, fuel: nat, t: Term, lock: bool)
    requires fuel > 0
    ensures ScalarTerms(cfg, scope, depths, fuel, [t], lock) == ScalarTerm(cfg, scope, depths, fuel - 1, t, lock)
  {
    var first := ScalarTerm(cfg, scope, depths, fuel - 1, t, lock);
    assert [t][1..] == [] && ScalarTermList(cfg, scope, depths, fuel - 1, [], lock) == Plain([]);
    if first.Ok? { JoinedLast(first.value); }
  }

  lemma OnlyArgumentInlined(cfg: Config, scope: Scope, depths: Depths, fuel: nat, arg: Arg, lock: bool)
    requires fuel > 0
    ensures Arguments(cfg, scope, depths, fuel, [arg], lock) == OneArgument(cfg, scope, depths, fuel - 1, arg, lock)
  {
    var first := OneArgument(cfg, scope, depths, fuel - 1, arg, lock);
    assert [arg][1..] == [] && ArgumentList(cfg, scope, depths, fuel - 1, [], lock) == Plain([]);
    if first.Ok? { JoinedLast(first.value); }
  }

  lemma TwoListed(cfg: Config, scope: Scope, depths: Depths, fuel: nat, v: nat, w: nat, lock: bool)
    requires fuel > 1
    ensures ArgumentList(cfg, scope, depths, fuel, TwoValues(v, w)[0].args, lock) == Plain(TwoValues(v, w)[0].args)
  {
    var args := TwoValues(v, w)[0].args;
    ValueArgument(cfg, scope, depths, fuel, v, lock);
    ValueArgument(cfg, scope, depths, fuel, w, lock);
    OnlyArgumentInlined(cfg, scope, depths, fuel + 1, Arg([Value(w)]), lock);
    assert args[1..] == [Arg([Value(w)])];
    assert ArgumentList(cfg, scope, depths, fuel, args[1..], lock) == Plain([Arg([Value(w)])]);
    JoinedPlain(Arg([Value(v)]), [Arg([Value(w)])]);
    assert args == [Arg([Value(v)])] + [Arg([Value(w)])];
  }

  lemma TwoFilled(cfg: Config, scope: Scope, depths: Depths, fuel: nat, v: nat, w: nat, lock: bool)
    requires fuel > 3
    ensures Commands(cfg, scope, depths, fuel, TwoValues(v, w), lock) == Plain(TwoValues(v, w))
  {
    var cmd := TwoValues(v, w)[0];
    TwoListed(cfg, scope, depths, fuel - 2, v, w, lock);
    OnlyCommandInlined(cfg, scope, depths, fuel, cmd, lock);
  }

  lemma OnlyCommandInlined(cfg: Config, scope: Scope, depths: Depths, fuel: nat, cmd: Cmd, lock: bool)
    requires fuel > 0
    ensures Commands(cfg, scope, depths, fuel, [cmd], lock) == OneCommand(cfg, scope, depths, fuel - 1, cmd, lock)
  {
    var first := OneCommand(cfg, scope, depths, fuel - 1, cmd, lock);
    assert [cmd][1..] == [] && CommandList(cfg, scope, depths, fuel - 1, [], lock) == Plain([]);
    if first.Ok? { JoinedLast(first.value); }
  }

  /** The same of the reference. */
  lemma ValueMeans(cfg: Config, b: Bindings, depths: Depths, fuel: nat, v: nat)
    requires fuel > 1
    ensures ExpandArg(cfg, false, b, depths, fuel, Arg([Value(v)])) == Plain([Arg([Value(v)])])
  {
    var t := Value(v);
    assert ExpandStandalone(cfg, false, b, depths, fuel, t) == Plain(Itself);
    assert ExpandTerm(cfg, false, b, depths, fuel - 1, t) == Plain([t]);
    assert [t][1..] == [] && ExpandTermList(cfg, false, b, depths, fuel - 1, []) == Plain([]);
    JoinedLast(Made([t], []));
    assert ExpandTerms(cfg, false, b, depths, fuel, [t]) == Plain([t]);
  }

  lemma TwoMean(cfg: Config, b: Bindings, depths: Depths, fuel: nat, v: nat, w: nat)
    requires fuel > 3
    ensures Expand(cfg, false, b, depths, fuel, TwoValues(v, w)) == Plain(TwoValues(v, w))
  {
    var args, last := TwoValues(v, w)[0].args, [Arg([Value(w)])];
    ValueMeans(cfg, b, depths, fuel - 2, v);
    ValueMeans(cfg, b, depths, fuel - 2, w);
    assert last[1..] == [] && ExpandArgList(cfg, false, b, depths, fuel - 2, []) == Plain([]);
    JoinedLast(Made(last, []));
    assert args[1..] == last && ExpandArgList(cfg, false, b, depths, fuel - 2, last) == Plain(last);
    JoinedPlain(Arg([Value(v)]), last);
    assert args == [Arg([Value(v)])] + last;
    assert ExpandArgs(cfg, false, b, depths, fuel - 1, args) == Plain(args);
    OneCommandExpands(cfg, false, b, depths, fuel, Cmd(args));
  }

  /** A modifier argument that mentions a parameter with several arguments is left as it is. */
  lemma ModsLeft(cfg: Config, scope: Scope, depths: Depths, fuel: nat, f: nat, id: VarId)
    requires fuel > 0 && Lookup(scope, id).Some? && IsMany(Lookup(scope, id).value)
    ensures ModList(cfg, scope, depths, fuel, Mention(f, id)) == Plain(Mention(f, id))
  {
    var ts, args, mods := [Var(id)], [Arg([Var(id)])], Mention(f, id);
    assert ModArgTerm(cfg, scope, depths, fuel, Var(id)) == Plain(ts);
    assert ts[1..] == [] && ModTerms(cfg, scope, depths, fuel, []) == Plain([]);
    JoinedLast(Made(ts, []));
    assert ModTerms(cfg, scope, depths, fuel, ts) == Plain(ts);
    assert args[1..] == [] && ModArgs(cfg, scope, depths, fuel, []) == Plain([]);
    JoinedLast(Made(args, []));
    assert ModArgs(cfg, scope, depths, fuel, args) == Plain(args);
    assert mods[1..] == [] && ModList(cfg, scope, depths, fuel, []) == Plain([]);
    JoinedLast(Made(mods, []));
  }

  lemma TextLeft(cfg: Config, scope: Scope, depths: Depths, fuel: nat, f: nat, id: VarId, u: nat)
    requires fuel > 5 && Lookup(scope, id).Some? && IsMany(Lookup(scope, id).value)
    ensures Commands(cfg, scope, depths, fuel, Mentioning(f, id, u), false) == Plain(Mentioning(f, id, u))
  {
    var t := Xfm(Mention(f, id), StringBody(u));
    ModsLeft(cfg, scope, depths, fuel - 5, f, id);
    assert Body(cfg, scope, depths, fuel - 5, StringBody(u)) == Plain(StringBody(u));
    assert Transformation(cfg, scope, depths, fuel - 4, Mention(f, id), StringBody(u)) == Plain(t);
    WrittenMention(f, id, u);
    OnlyTermInlined(cfg, scope, depths, fuel - 2, t, false);
    assert Standalone(cfg, scope, depths, fuel - 2, t) == Plain(None) == Standalone(cfg, scope, depths, fuel - 1, t);
    OnlyArgumentInlined(cfg, scope, depths, fuel - 1, Arg([t]), false);
    OnlyCommandInlined(cfg, scope, depths, fuel, Cmd([Arg([t])]), false);
  }

  lemma WrittenMention(f: nat, id: VarId, u: nat)
    ensures var t := Xfm(Mention(f, id), StringBody(u)); Written(false, t) == t
  {
    var t := Xfm(Mention(f, id), StringBody(u));
    assert ParsedTerms([Var(id)]) && ParsedTerms([Value(u)]);
    assert ParsedArgs([Arg([Var(id)])]) && ParsedArgs(StringBody(u));
    ParsedIsUnlocked(t);
  }

  /** Called with two values, such a macro returns the name of its parameter in every configuration,
      where the call has no meaning. */
  lemma TwoArgumentsEscape(cfg: Config, fn: VarId, f: nat, id: VarId, u: nat, v: nat, w: nat)
    requires fn in cfg.macros && cfg.parse(cfg.macros[fn]) == Mentioning(f, id, u)
    ensures var r := Inlined(cfg, CallWith(fn, id, TwoValues(v, w)));
      r.Ok? && r.value.value == Mentioning(f, id, u) && !AvoidsScript(id, r.value.value)
    ensures Means(cfg, CallWith(fn, id, TwoValues(v, w)), MAX_DEPTH) == Err(ManyInModifier)
  {
    var fuel: nat := MAX_DEPTH - 1;
    TwoMean(cfg, map[], map[], fuel, v, w);
    CallDecides(cfg, fn, f, id, u, TwoValues(v, w), MAX_DEPTH);
    var data, params := TwoValues(v, w), [MacroArg(id, TwoValues(v, w))];
    TwoFilled(cfg, Global, map[], fuel, v, w, true);
    OneFilled(cfg, fuel, fn, id, data);
    var scope := Frame(map[id := data], Global);
    TextLeft(cfg, scope, map[], fuel, f, id, u);
    OnlyCommandInlined(cfg, Global, map[], MAX_DEPTH, Cmd([Arg([Call(fn, params)])]), false);
    StillNamed(f, id, u);
  }

  lemma OneFilled(cfg: Config, fuel: nat, fn: VarId, id: VarId, data: Script)
    requires fn in cfg.macros && Commands(cfg, Global, map[], fuel, data, true) == Plain(data)
    ensures var r := CallRedirect(cfg, Global, map[], fuel, fn, [MacroArg(id, data)]);
      r.Ok? && r.value.value == Redirect(cfg.parse(cfg.macros[fn]), Frame(map[id := data], Global), map[])
  {
    assert [] + data == data && [MacroArg(id, data)][1..] == [];
    assert FillMacroArgs(cfg, Global, map[], fuel, [], map[id := data]) == Plain(map[id := data]);
  }
}
