/** Inlining a locked definition again puts its contents in place, whatever the scope. */
module InlinerLocked {
  import opened Wrappers
  import opened InlinerSyntax
  import opened Inliner

  /** What an expansion consists of: values, variables left over, and transformations whose
      modifier arguments are made of these; a transformation's body may be left as parsed. */
  ghost predicate Leftover(t: Term) {
    match t
    case Value(_) => true
    case Var(_) => true
    case Xfm(mods, body) => (forall m :: m in mods ==> LeftoverInside(m.args)) && ParsedArgs(body)
    case _ => false
  }

  ghost predicate LeftoverTerms(ts: seq<Term>) {
    forall t :: t in ts ==> Leftover(t)
  }

  ghost predicate LeftoverInside(b: seq<Arg>) {
    forall a :: a in b ==> LeftoverTerms(a.terms)
  }

  ghost predicate LeftoverArgs(b: seq<Arg>) {
    LeftoverInside(b) && forall a :: a in b ==> a.terms != []
  }

  ghost predicate LeftoverScript(s: Script) {
    forall c :: c in s ==> c.args != [] && LeftoverArgs(c.args)
  }

  lemma {:induction false} LeftoverIsParsed(t: Term)
    requires Leftover(t)
    ensures Parsed(t)
  {
    if t.Xfm? {
      forall m | m in t.mods
        ensures ParsedArgs(m.args)
      {
        LeftoverInsideParsed(m.args);
      }
    }
  }

  lemma {:induction false} LeftoverTermsParsed(ts: seq<Term>)
    requires LeftoverTerms(ts)
    ensures ParsedTerms(ts)
  {
    forall t | t in ts { LeftoverIsParsed(t); }
  }

  lemma {:induction false} LeftoverInsideParsed(b: seq<Arg>)
    requires LeftoverInside(b)
    ensures ParsedArgs(b)
  {
    forall a | a in b { LeftoverTermsParsed(a.terms); }
  }

  lemma LeftoverTermsUnlocked(ts: seq<Term>)
    requires LeftoverTerms(ts)
    ensures WrittenTerms(false, ts) == ts
  {
    LeftoverTermsParsed(ts);
    ParsedTermsUnlocked(ts);
  }

  lemma LeftoverArgsUnlocked(b: seq<Arg>)
    requires LeftoverArgs(b)
    ensures ParsedArgs(b) && WrittenArgs(false, b) == b
  {
    LeftoverInsideParsed(b);
    ParsedArgsUnlocked(b);
  }

  lemma {:induction false} LeftoverScriptUnlocked(s: Script)
    requires LeftoverScript(s)
    ensures ParsedScript(s) && WrittenScript(false, s) == s
    decreases s
  {
    if s != [] {
      assert s[0] in s;
      LeftoverArgsUnlocked(s[0].args);
      LeftoverScriptUnlocked(s[1..]);
      assert s == [s[0]] + s[1..];
    }
  }

  // ---------------------------------------------------------------- transformations

  lemma NoVarBody(body: seq<Arg>)
    ensures !IsVarBody(WrittenArgs(true, body))
  {
    if |body| == 1 && |body[0].terms| == 1 { assert WrittenTerms(true, body[0].terms)[0] == Written(true, body[0].terms[0]); }
  }

  lemma {:induction false} LockedXfm(cfg: Config, scope: Scope, depths: Depths, fuel: nat, mods: seq<Modifier>, body: seq<Arg>)
    requires Leftover(Xfm(mods, body))
    requires WithinLimit(Transformation(cfg, scope, depths, fuel, WrittenMods(true, mods), WrittenArgs(true, body)))
    ensures var r := Transformation(cfg, scope, depths, fuel, WrittenMods(true, mods), WrittenArgs(true, body));
      r.Ok? && Written(false, r.value.value) == Xfm(mods, body) && r.value.calls == []
    decreases fuel, 1, 0
  {
    LockedBody(cfg, scope, depths, fuel - 1, body);
    LockedMods(cfg, scope, depths, fuel - 1, mods);
  }

  lemma LockedBody(cfg: Config, scope: Scope, depths: Depths, fuel: nat, body: seq<Arg>)
    requires ParsedArgs(body)
    ensures Body(cfg, scope, depths, fuel, WrittenArgs(true, body)) == Plain(WrittenArgs(true, body))
    ensures WrittenArgs(false, WrittenArgs(true, body)) == body
  {
    NoVarBody(body);
    WrittenArgsTwice(false, true, body);
    ParsedArgsUnlocked(body);
  }

  lemma {:induction false} LockedMods(cfg: Config, scope: Scope, depths: Depths, fuel: nat, mods: seq<Modifier>)
    requires (forall m :: m in mods ==> LeftoverInside(m.args)) && WithinLimit(ModList(cfg, scope, depths, fuel, WrittenMods(true, mods)))
    ensures var r := ModList(cfg, scope, depths, fuel, WrittenMods(true, mods)); r.Ok? && WrittenMods(false, r.value.value) == mods && r.value.calls == []
    decreases fuel, 6, |mods|
  {
    if mods != [] {
      var locked := WrittenMods(true, mods);
      assert locked[1..] == WrittenMods(true, mods[1..]) && locked[0].args == WrittenArgs(true, mods[0].args);
      assert LeftoverInside(mods[0].args);
      LockedModArgs(cfg, scope, depths, fuel, mods[0].args);
      LockedMods(cfg, scope, depths, fuel, mods[1..]);
      UnlockedMods(mods, ModArgs(cfg, scope, depths, fuel, locked[0].args).value.value, ModList(cfg, scope, depths, fuel, locked[1..]).value.value);
    }
  }

  lemma UnlockedMods(mods: seq<Modifier>, args: seq<Arg>, rest: seq<Modifier>)
    requires mods != [] && WrittenArgs(false, args) == mods[0].args && WrittenMods(false, rest) == mods[1..]
    ensures WrittenMods(false, [Modifier(mods[0].function_, args)] + rest) == mods
  {
    var new_ := [Modifier(mods[0].function_, args)] + rest;
    assert new_[1..] == rest;
  }

  lemma {:induction false} LockedModArgs(cfg: Config, scope: Scope, depths: Depths, fuel: nat, args: seq<Arg>)
    requires LeftoverInside(args) && WithinLimit(ModArgs(cfg, scope, depths, fuel, WrittenArgs(true, args)))
    ensures var r := ModArgs(cfg, scope, depths, fuel, WrittenArgs(true, args)); r.Ok? && WrittenArgs(false, r.value.value) == args && r.value.calls == []
    decreases fuel, 5, |args|
  {
    if args != [] {
      assert WrittenArgs(true, args)[1..] == WrittenArgs(true, args[1..]);
      assert LeftoverTerms(args[0].terms);
      LockedModTerms(cfg, scope, depths, fuel, args[0].terms);
      LockedModArgs(cfg, scope, depths, fuel, args[1..]);
    }
  }

  lemma {:induction false} LockedModTerms(cfg: Config, scope: Scope, depths: Depths, fuel: nat, ts: seq<Term>)
    requires LeftoverTerms(ts) && WithinLimit(ModTerms(cfg, scope, depths, fuel, WrittenTerms(true, ts)))
    ensures var r := ModTerms(cfg, scope, depths, fuel, WrittenTerms(true, ts)); r.Ok? && WrittenTerms(false, r.value.value) == ts && r.value.calls == []
    decreases fuel, 4, |ts|
  {
    if ts != [] {
      assert WrittenTerms(true, ts)[1..] == WrittenTerms(true, ts[1..]);
      LockedModTerm(cfg, scope, depths, fuel, ts[0]);
      LockedModTerms(cfg, scope, depths, fuel, ts[1..]);
      var first, rest := ModArgTerm(cfg, scope, depths, fuel, Written(true, ts[0])), ModTerms(cfg, scope, depths, fuel, WrittenTerms(true, ts[1..]));
      UnlockedTerms(ts, first.value.value, rest.value.value);
    }
  }

  lemma UnlockedTerms(ts: seq<Term>, first: seq<Term>, rest: seq<Term>)
    requires ts != [] && |first| == 1 && Written(false, first[0]) == ts[0] && WrittenTerms(false, rest) == ts[1..]
    ensures WrittenTerms(false, first + rest) == ts
  {
    assert (first + rest)[0] == first[0] && (first + rest)[1..] == rest;
  }

  lemma {:induction false} LockedModTerm(cfg: Config, scope: Scope, depths: Depths, fuel: nat, t: Term)
    requires Leftover(t) && WithinLimit(ModArgTerm(cfg, scope, depths, fuel, Written(true, t)))
    ensures var r := ModArgTerm(cfg, scope, depths, fuel, Written(true, t));
      r.Ok? && |r.value.value| == 1 && Written(false, r.value.value[0]) == t && r.value.calls == []
    decreases fuel, 1, 0
  {
    if t.Xfm? { LockedXfm(cfg, scope, depths, fuel - 1, t.mods, t.body); }
  }

  // ---------------------------------------------------------------- terms, arguments, commands

  lemma LockedTerm(cfg: Config, scope: Scope, depths: Depths, fuel: nat, t: Term, lock: bool)
    requires Leftover(t) && WithinLimit(ScalarTerm(cfg, scope, depths, fuel, Written(true, t), lock))
    ensures ScalarTerm(cfg, scope, depths, fuel, Written(true, t), lock) == Plain([Written(lock, t)])
  {
    if t.Xfm? {
      LockedXfm(cfg, scope, depths, fuel - 1, t.mods, t.body);
      var x := Transformation(cfg, scope, depths, fuel - 1, WrittenMods(true, t.mods), WrittenArgs(true, t.body)).value.value;
      WrittenTwice(lock, false, x);
    }
  }

  lemma {:induction false} LockedTermList(cfg: Config, scope: Scope, depths: Depths, fuel: nat, ts: seq<Term>, lock: bool)
    requires LeftoverTerms(ts) && WithinLimit(ScalarTermList(cfg, scope, depths, fuel, WrittenTerms(true, ts), lock))
    ensures ScalarTermList(cfg, scope, depths, fuel, WrittenTerms(true, ts), lock) == Plain(WrittenTerms(lock, ts))
    decreases |ts|
  {
    if ts != [] {
      assert WrittenTerms(true, ts)[1..] == WrittenTerms(true, ts[1..]);
      LockedTerm(cfg, scope, depths, fuel, ts[0], lock);
      LockedTermList(cfg, scope, depths, fuel, ts[1..], lock);
      JoinedPlain(Written(lock, ts[0]), WrittenTerms(lock, ts[1..]));
    }
  }

  /** A locked term is never expanded as a whole argument or command. */
  lemma LockedNotStandalone(cfg: Config, scope: Scope, depths: Depths, fuel: nat, t: Term)
    requires Leftover(t)
    ensures Standalone(cfg, scope, depths, fuel, Written(true, t)) == Plain(None)
  {
    if t.Xfm? { NoVarBody(t.body); }
  }

  lemma LockedArgument(cfg: Config, scope: Scope, depths: Depths, fuel: nat, a: Arg, lock: bool)
    requires a.terms != [] && LeftoverTerms(a.terms)
    requires WithinLimit(OneArgument(cfg, scope, depths, fuel, Arg(WrittenTerms(true, a.terms)), lock))
    ensures OneArgument(cfg, scope, depths, fuel, Arg(WrittenTerms(true, a.terms)), lock) == Plain([Arg(WrittenTerms(lock, a.terms))])
  {
    if |a.terms| == 1 {
      assert WrittenTerms(true, a.terms)[0] == Written(true, a.terms[0]);
      LockedNotStandalone(cfg, scope, depths, fuel, a.terms[0]);
    }
    assert WithinLimit(ScalarTerms(cfg, scope, depths, fuel, WrittenTerms(true, a.terms), lock));
    LockedTermList(cfg, scope, depths, fuel - 1, a.terms, lock);
  }

  lemma {:induction false} LockedArgumentList(cfg: Config, scope: Scope, depths: Depths, fuel: nat, b: seq<Arg>, lock: bool)
    requires LeftoverArgs(b) && WithinLimit(ArgumentList(cfg, scope, depths, fuel, WrittenArgs(true, b), lock))
    ensures ArgumentList(cfg, scope, depths, fuel, WrittenArgs(true, b), lock) == Plain(WrittenArgs(lock, b))
    decreases |b|
  {
    if b != [] {
      assert b[0] in b;
      assert WrittenArgs(true, b)[1..] == WrittenArgs(true, b[1..]);
      LockedArgument(cfg, scope, depths, fuel, b[0], lock);
      LockedArgumentList(cfg, scope, depths, fuel, b[1..], lock);
      JoinedPlain(Arg(WrittenTerms(lock, b[0].terms)), WrittenArgs(lock, b[1..]));
    }
  }

  lemma LockedCommand(cfg: Config, scope: Scope, depths: Depths, fuel: nat, c: Cmd, lock: bool)
    requires c.args != [] && LeftoverArgs(c.args)
    requires WithinLimit(OneCommand(cfg, scope, depths, fuel, Cmd(WrittenArgs(true, c.args)), lock))
    ensures OneCommand(cfg, scope, depths, fuel, Cmd(WrittenArgs(true, c.args)), lock) == Plain([Cmd(WrittenArgs(lock, c.args))])
  {
    if |c.args| == 1 && |c.args[0].terms| == 1 {
      assert c.args[0] in c.args && LeftoverTerms(c.args[0].terms);
      assert WrittenTerms(true, c.args[0].terms)[0] == Written(true, c.args[0].terms[0]);
      LockedNotStandalone(cfg, scope, depths, fuel, c.args[0].terms[0]);
    }
    assert WithinLimit(Arguments(cfg, scope, depths, fuel, WrittenArgs(true, c.args), lock));
    LockedArgumentList(cfg, scope, depths, fuel - 1, c.args, lock);
  }

  lemma {:induction false} LockedCommandList(cfg: Config, scope: Scope, depths: Depths, fuel: nat, s: Script, lock: bool)
    requires LeftoverScript(s) && WithinLimit(CommandList(cfg, scope, depths, fuel, WrittenScript(true, s), lock))
    ensures CommandList(cfg, scope, depths, fuel, WrittenScript(true, s), lock) == Plain(WrittenScript(lock, s))
    decreases |s|
  {
    if s != [] {
      assert s[0] in s;
      assert WrittenScript(true, s)[1..] == WrittenScript(true, s[1..]);
      LockedCommand(cfg, scope, depths, fuel, s[0], lock);
      LockedCommandList(cfg, scope, depths, fuel, s[1..], lock);
      JoinedPlain(Cmd(WrittenArgs(lock, s[0].args)), WrittenScript(lock, s[1..]));
    }
  }

  /** Re-inlining a locked definition is the identity, up to the mode of the writer: whatever
      the scope and depths, no variable in it is captured.  Only the nesting limit can stop it. */
  lemma LockedIsData(cfg: Config, scope: Scope, depths: Depths, fuel: nat, s: Script, lock: bool)
    requires LeftoverScript(s) && WithinLimit(Commands(cfg, scope, depths, fuel, WrittenScript(true, s), lock))
    ensures Commands(cfg, scope, depths, fuel, WrittenScript(true, s), lock) == Plain(WrittenScript(lock, s))
  {
    LockedCommandList(cfg, scope, depths, fuel - 1, s, lock);
  }
}
