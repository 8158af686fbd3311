/** The inliner with its mutable state: current scope, nesting depth, recursion depths of legacy
    variables, the cache of parsed definitions, and the side channels of macro calls. */
module InlinerMachine {
  import opened Wrappers
  import opened InlinerSyntax
  import opened Inliner

  /** Depth 0 and an absent entry mean the same. */
  function Visible(m: map<VarId, nat>): Depths {
    map id | id in m && m[id] != 0 :: m[id]
  }

  lemma VisibleEnter(m: map<VarId, nat>, id: VarId)
    ensures DepthOf(Visible(m), id) == DepthOf(m, id)
    ensures Visible(m[id := DepthOf(m, id) + 1]) == Enter(Visible(m), id, true)
  {
    assert Visible(m[id := DepthOf(m, id) + 1]) == Visible(m)[id := DepthOf(m, id) + 1];
  }

  lemma VisibleLeave(m: map<VarId, nat>, n: map<VarId, nat>, id: VarId)
    requires Visible(n) == Enter(Visible(m), id, true)
    ensures DepthOf(n, id) == DepthOf(m, id) + 1
    ensures Visible(n[id := DepthOf(m, id)]) == Visible(m)
  {
    VisibleEnter(m, id);
    VisibleEnter(n, id);
    var r := Visible(n[id := DepthOf(m, id)]);
    forall x
      ensures x in r <==> x in Visible(m)
      ensures x in r ==> r[x] == Visible(m)[x]
    {
      assert x != id ==> (x in Visible(n) <==> x in Visible(m));
    }
  }

  /** What a loop has produced so far, in front of what the rest will produce. */
  function Prepend<T>(done: Made<seq<T>>, rest: Outcome<seq<T>>): Outcome<seq<T>> {
    if rest.Ok? then Ok(Joined(done, rest.value)) else rest
  }

  lemma PrependNothing<T>(rest: Outcome<seq<T>>)
    ensures Prepend(Made([], []), rest) == rest
  {
    if rest.Ok? { assert [] + rest.value.value == rest.value.value && [] + rest.value.calls == rest.value.calls; }
  }

  lemma PrependTwice<T>(a: Made<seq<T>>, b: Made<seq<T>>, rest: Outcome<seq<T>>)
    ensures Prepend(a, Prepend(b, rest)) == Prepend(Joined(a, b), rest)
  {
    if rest.Ok? {
      assert a.value + (b.value + rest.value.value) == (a.value + b.value) + rest.value.value;
      assert a.calls + (b.calls + rest.value.calls) == (a.calls + b.calls) + rest.value.calls;
    }
  }

  lemma PrependEnd<T>(a: Made<seq<T>>)
    ensures Prepend(a, Plain([])) == Ok(a)
  {
    assert a.value + [] == a.value && a.calls + [] == a.calls;
  }

  lemma NextCommand(cfg: Config, scope: Scope, depths: Depths, fuel: nat, script: Script, i: nat, lock: bool)
    requires i < |script|
    ensures var first := OneCommand(cfg, scope, depths, fuel, script[i], lock);
      CommandList(cfg, scope, depths, fuel, script[i..], lock) ==
        if first.Ok? then Prepend(first.value, CommandList(cfg, scope, depths, fuel, script[i + 1..], lock)) else first
  {
    assert script[i..][0] == script[i] && script[i..][1..] == script[i + 1..];
  }

  lemma NextArgument(cfg: Config, scope: Scope, depths: Depths, fuel: nat, args: seq<Arg>, i: nat, lock: bool)
    requires i < |args|
    ensures var first := OneArgument(cfg, scope, depths, fuel, args[i], lock);
      ArgumentList(cfg, scope, depths, fuel, args[i..], lock) ==
        if first.Ok? then Prepend(first.value, ArgumentList(cfg, scope, depths, fuel, args[i + 1..], lock)) else first
  {
    assert args[i..][0] == args[i] && args[i..][1..] == args[i + 1..];
  }

  lemma NextTerm(cfg: Config, scope: Scope, depths: Depths, fuel: nat, ts: seq<Term>, i: nat, lock: bool)
    requires i < |ts|
    ensures var first := ScalarTerm(cfg, scope, depths, fuel, ts[i], lock);
      ScalarTermList(cfg, scope, depths, fuel, ts[i..], lock) ==
        if first.Ok? then Prepend(first.value, ScalarTermList(cfg, scope, depths, fuel, ts[i + 1..], lock)) else first
  {
    assert ts[i..][0] == ts[i] && ts[i..][1..] == ts[i + 1..];
  }

  lemma NextMod(cfg: Config, scope: Scope, depths: Depths, fuel: nat, mods: seq<Modifier>, i: nat)
    requires i < |mods|
    ensures var first := ModArgs(cfg, scope, depths, fuel, mods[i].args);
      ModList(cfg, scope, depths, fuel, mods[i..]) ==
        if first.Err? then Err(first.error)
        else Prepend(Made([Modifier(mods[i].function_, first.value.value)], first.value.calls), ModList(cfg, scope, depths, fuel, mods[i + 1..]))
  {
    assert mods[i..][0] == mods[i] && mods[i..][1..] == mods[i + 1..];
  }

  lemma NextModArg(cfg: Config, scope: Scope, depths: Depths, fuel: nat, args: seq<Arg>, i: nat)
    requires i < |args|
    ensures var first := ModTerms(cfg, scope, depths, fuel, args[i].terms);
      ModArgs(cfg, scope, depths, fuel, args[i..]) ==
        if first.Err? then Err(first.error)
        else Prepend(Made([Arg(first.value.value)], first.value.calls), ModArgs(cfg, scope, depths, fuel, args[i + 1..]))
  {
    assert args[i..][0] == args[i] && args[i..][1..] == args[i + 1..];
  }

  lemma NextModTerm(cfg: Config, scope: Scope, depths: Depths, fuel: nat, ts: seq<Term>, i: nat)
    requires i < |ts|
    ensures var first := ModArgTerm(cfg, scope, depths, fuel, ts[i]);
      ModTerms(cfg, scope, depths, fuel, ts[i..]) ==
        if first.Ok? then Prepend(first.value, ModTerms(cfg, scope, depths, fuel, ts[i + 1..])) else first
  {
    assert ts[i..][0] == ts[i] && ts[i..][1..] == ts[i + 1..];
  }

  // ---------------------------------------------------------------- calls and side channels

  /** The operation did as specified: it failed so, or returned that result after those calls. */
  ghost predicate Does<T>(spec: Outcome<T>, r: Result<T, Failure>, before: seq<VarId>, after: seq<VarId>) {
    match spec
    case Err(f) => r == Err(f)
    case Ok(Made(v, calls)) => r == Ok(v) && after == before + calls
  }

  lemma DoesAfter<T>(calls: seq<VarId>, next: Outcome<T>, r: Result<T, Failure>, a: seq<VarId>, b: seq<VarId>, c: seq<VarId>)
    requires b == a + calls && Does(next, r, b, c)
    ensures Does(After(calls, next), r, a, c)
  {
    if next.Ok? { assert (a + calls) + next.value.calls == a + (calls + next.value.calls); }
  }

  /** A loop so far: it failed as specified, or its result and calls come before those of the rest. */
  ghost predicate Ongoing<T>(whole: Outcome<seq<T>>, r: Result<seq<T>, Failure>, start: seq<VarId>, now: seq<VarId>, rest: Outcome<seq<T>>) {
    if r.Err? then whole == Err(r.error)
    else start <= now && whole == Prepend(Made(r.value, now[|start|..]), rest)
  }

  lemma OngoingStart<T>(whole: Outcome<seq<T>>, start: seq<VarId>)
    ensures Ongoing(whole, Ok([]), start, start, whole)
  {
    PrependNothing(whole);
    assert start[|start|..] == [];
  }

  lemma OngoingStep<T>(whole: Outcome<seq<T>>, r: Result<seq<T>, Failure>, start: seq<VarId>, now: seq<VarId>,
                       first: Outcome<seq<T>>, rest: Outcome<seq<T>>, one: Result<seq<T>, Failure>, next: seq<VarId>)
    requires r.Ok? && Ongoing(whole, r, start, now, if first.Ok? then Prepend(first.value, rest) else first)
    requires Does(first, one, now, next)
    ensures Ongoing(whole, if one.Ok? then Ok(r.value + one.value) else one, start, next, rest)
  {
    if one.Ok? {
      PrependTwice(Made(r.value, now[|start|..]), first.value, rest);
      assert next[|start|..] == now[|start|..] + first.value.calls;
    }
  }

  lemma OngoingEnd<T>(whole: Outcome<seq<T>>, r: Result<seq<T>, Failure>, start: seq<VarId>, now: seq<VarId>)
    requires Ongoing(whole, r, start, now, Plain([]))
    ensures Does(whole, r, start, now)
  {
    if r.Ok? {
      PrependEnd(Made(r.value, now[|start|..]));
      assert start + now[|start|..] == now;
    }
  }

  /** The directories that the calls add; none at all if no macro among them has the option. */
  function Gathered(given: map<VarId, seq<string>>, calls: seq<VarId>): Option<seq<string>> {
    if calls == [] then None
    else
      var before, fn := Gathered(given, calls[..|calls| - 1]), calls[|calls| - 1];
      if fn in given then Some(Merged(before, given[fn])) else before
  }

  function Merged(before: Option<seq<string>>, dirs: seq<string>): seq<string> {
    if before.None? then dirs else before.value + dirs
  }

  lemma MergedTwice(a: Option<seq<string>>, b: Option<seq<string>>, dirs: seq<string>)
    requires b.Some?
    ensures Merged(Some(Merged(a, b.value)), dirs) == Merged(a, Merged(b, dirs))
  {
    if a.Some? { assert (a.value + b.value) + dirs == a.value + (b.value + dirs); }
  }

  lemma GatheredMore(given: map<VarId, seq<string>>, calls: seq<VarId>, fn: VarId)
    ensures Gathered(given, calls + [fn]) ==
      if fn in given then Some(Merged(Gathered(given, calls), given[fn])) else Gathered(given, calls)
  {
    assert (calls + [fn])[..|calls + [fn]| - 1] == calls;
  }

  /** Channels of one stretch of calls follow those of the stretch before it. */
  lemma {:induction false} GatheredConcat(given: map<VarId, seq<string>>, a: seq<VarId>, b: seq<VarId>)
    ensures Gathered(given, b).None? <==> forall fn :: fn in b ==> fn !in given
    ensures Gathered(given, a + b) ==
      match (Gathered(given, a), Gathered(given, b))
      case (None, r) => r
      case (l, None) => l
      case (Some(before), Some(dirs)) => Some(before + dirs)
    decreases |b|
  {
    if b == [] {
      assert a + b == a;
    } else {
      var m := |b| - 1;
      assert (a + b)[..|a + b| - 1] == a + b[..m] && b == b[..m] + [b[m]];
      GatheredConcat(given, a, b[..m]);
      if b[m] in given && Gathered(given, b[..m]).Some? { MergedTwice(Gathered(given, a), Gathered(given, b[..m]), given[b[m]]); }
    }
  }

  lemma GatheredOne(given: map<VarId, seq<string>>, fn: VarId)
    ensures Gathered(given, [fn]) == if fn in given then Some(given[fn]) else None
  {
    assert [fn][..0] == [];
  }

  datatype SideChannels = SideChannels(addPeers: Option<seq<string>>, addIncls: Option<seq<string>>)

  function ChannelsOf(cfg: Config, calls: seq<VarId>): SideChannels {
    SideChannels(Gathered(cfg.addPeers, calls), Gathered(cfg.addIncls, calls))
  }

  function WithChannels(cfg: Config, r: Outcome<Script>): Result<(Script, SideChannels), Failure> {
    match r
    case Err(f) => Err(f)
    case Ok(Made(script, calls)) => Ok((script, ChannelsOf(cfg, calls)))
  }

  /** Where inlining continues for a standalone term. */
  datatype Target = Target(script: Script, scope: Scope, entered: Option<VarId>)

  ghost predicate Leads(depths: Depths, spec: Outcome<Option<Redirect>>, t: Result<Option<Target>, Failure>, before: seq<VarId>, after: seq<VarId>) {
    match spec
    case Err(f) => t == Err(f)
    case Ok(Made(None, calls)) => t == Ok(None) && after == before
    case Ok(Made(Some(to), calls)) => t.Ok? && t.value.Some? && LeadsTo(depths, to, t.value.value) && after == before + calls
  }

  ghost predicate LeadsTo(depths: Depths, to: Redirect, t: Target) {
    to.script == t.script && to.scope == t.scope && to.depths == TargetDepths(depths, t.entered)
  }

  function TargetDepths(depths: Depths, entered: Option<VarId>): Depths {
    match entered
    case None => depths
    case Some(id) => Enter(depths, id, true)
  }

  lemma WholeCommand(cfg: Config, scope: Scope, depths: Depths, fuel: nat, cmd: Cmd, lock: bool,
                     args: Result<seq<Arg>, Failure>, a: seq<VarId>, b: seq<VarId>)
    requires |cmd.args| == 1 && |cmd.args[0].terms| == 1 ==>
      Leads(depths, Standalone(cfg, scope, depths, fuel, cmd.args[0].terms[0]), Ok(None), a, a)
    requires Does(Arguments(cfg, scope, depths, fuel, cmd.args, lock), args, a, b)
    ensures Does(OneCommand(cfg, scope, depths, fuel, cmd, lock),
      if args.Err? then Err(args.error) else Ok(if args.value == [] then [] else [Cmd(args.value)]), a, b)
  {}

  lemma WholeArgument(cfg: Config, scope: Scope, depths: Depths, fuel: nat, arg: Arg, lock: bool,
                      ts: Result<seq<Term>, Failure>, a: seq<VarId>, b: seq<VarId>)
    requires |arg.terms| == 1 ==> Leads(depths, Standalone(cfg, scope, depths, fuel, arg.terms[0]), Ok(None), a, a)
    requires Does(ScalarTerms(cfg, scope, depths, fuel, arg.terms, lock), ts, a, b)
    ensures Does(OneArgument(cfg, scope, depths, fuel, arg, lock),
      if ts.Err? then Err(ts.error) else Ok(if ts.value == [] then [] else [Arg(ts.value)]), a, b)
  {}

  lemma RedirectedCommand(cfg: Config, scope: Scope, depths: Depths, fuel: nat, cmd: Cmd, lock: bool,
                          t: Target, r: Result<Script, Failure>, a: seq<VarId>, b: seq<VarId>, c: seq<VarId>)
    requires |cmd.args| == 1 && |cmd.args[0].terms| == 1
    requires Leads(depths, Standalone(cfg, scope, depths, fuel, cmd.args[0].terms[0]), Ok(Some(t)), a, b)
    requires Does(Commands(cfg, t.scope, TargetDepths(depths, t.entered), fuel, t.script, lock), r, b, c)
    ensures Does(OneCommand(cfg, scope, depths, fuel, cmd, lock), r, a, c)
  {
    var redirect := Standalone(cfg, scope, depths, fuel, cmd.args[0].terms[0]).value;
    DoesAfter(redirect.calls, Commands(cfg, t.scope, TargetDepths(depths, t.entered), fuel, t.script, lock), r, a, b, c);
  }

  lemma RedirectedArgument(cfg: Config, scope: Scope, depths: Depths, fuel: nat, arg: Arg, lock: bool,
                           t: Target, r: Result<seq<Arg>, Failure>, a: seq<VarId>, b: seq<VarId>, c: seq<VarId>)
    requires |arg.terms| == 1 && Leads(depths, Standalone(cfg, scope, depths, fuel, arg.terms[0]), Ok(Some(t)), a, b)
    requires Does(ArgumentsIn(cfg, Redirect(t.script, t.scope, TargetDepths(depths, t.entered)), fuel, lock), r, b, c)
    ensures Does(OneArgument(cfg, scope, depths, fuel, arg, lock), r, a, c)
  {
    var redirect := Standalone(cfg, scope, depths, fuel, arg.terms[0]).value;
    DoesAfter(redirect.calls, ArgumentsIn(cfg, redirect.value.value, fuel, lock), r, a, b, c);
  }

  /** The definitions of a variable parsed so far. */
  function Entries(cache: map<VarId, seq<Script>>, id: VarId): seq<Script> {
    if id in cache then cache[id] else []
  }

  /** No macro is a variable as well, which the lookup of macros asserts. */
  ghost predicate MacrosApart(cfg: Config) {
    forall id :: id in cfg.macros ==> !IsVariable(cfg, id)
  }

  ghost predicate Caches(cfg: Config, id: VarId, entries: seq<Script>) {
    if id in cfg.macros then entries == [cfg.parse(cfg.macros[id])]
    else
      && IsVariable(cfg, id) && |entries| <= |cfg.legacy[id]|
      && forall k :: 0 <= k < |entries| ==> entries[k] == DefinitionOf(cfg, cfg.legacy[id][k])
  }

  lemma CachesMore(cfg: Config, id: VarId, entries: seq<Script>, script: Script)
    requires Caches(cfg, id, entries) && id !in cfg.macros && |entries| < |cfg.legacy[id]|
    requires script == DefinitionOf(cfg, cfg.legacy[id][|entries|])
    ensures Caches(cfg, id, entries + [script])
  {}

  lemma MoreParts(parts: seq<Part>, i: nat)
    requires i < |parts|
    ensures HasMacro(parts[..i + 1]) <==> HasMacro(parts[..i]) || parts[i].isMacro
    ensures HasPlain(parts[..i + 1]) <==> HasPlain(parts[..i]) || !parts[i].isMacro
  {
    var fewer, more := parts[..i], parts[..i + 1];
    assert more[i] == parts[i];
    assert forall j :: 0 <= j < i ==> more[j] == fewer[j];
  }

  ghost predicate Covers(cfg: Config, cache: map<VarId, seq<Script>>, id: VarId, n: nat) {
    IsVariable(cfg, id) && n <= |Entries(cache, id)|
  }

  class TInliner {
    const cfg: Config
    var scope: Scope
    var depth: nat
    var recursionDepth: map<VarId, nat>
    var definitionCache: map<VarId, seq<Script>>
    var sideChannels: SideChannels
    /** The macros called so far. */
    ghost var called: seq<VarId>

    ghost function Depths(): Depths
      reads this
    {
      Visible(recursionDepth)
    }

    /** Variables and macros share the cache: it holds the first few definitions of a variable and
        the one definition of a macro, parsed.  Only variables have a recursion depth, and one
        that is being expanded at depth `k` has its first `k` definitions cached. */
    ghost predicate Valid()
      reads this
    {
      && depth <= MAX_DEPTH && MacrosApart(cfg) && sideChannels == ChannelsOf(cfg, called)
      && (forall id :: id in definitionCache ==> Caches(cfg, id, definitionCache[id]))
      && (forall id :: id in recursionDepth ==> Covers(cfg, definitionCache, id, recursionDepth[id]))
    }

    constructor (cfg: Config)
      requires MacrosApart(cfg)
      ensures Valid() && this.cfg == cfg && scope == Global && depth == 0 && Depths() == map[]
    {
      this.cfg, scope, depth, recursionDepth, definitionCache := cfg, Global, 0, map[], map[];
      sideChannels, called := SideChannels(None, None), [];
    }

    method GetVariableDefinition(id: VarId) returns (def: Definition)
      requires Valid()
      modifies this`recursionDepth, this`definitionCache
      ensures Valid() && Depths() == old(Depths())
      ensures def == Inliner.GetVariableDefinition(cfg, scope, Depths(), id)
      ensures def.Defined? && def.legacy ==> EnterableVar(Some(id))
    {
      VisibleEnter(recursionDepth, id);
      match Lookup(scope, id) {
        case Some(s) => return Defined(s, false);
        case None =>
      }
      if !IsVariable(cfg, id) {
        return Undefined;
      }
      if id !in recursionDepth {
        recursionDepth := recursionDepth[id := 0];
        assert Depths() == old(Depths());
      }
      var found := HasBase(id, recursionDepth[id]);
      if !found {
        return Bad;
      }
      var script := CachedDefinition(id, recursionDepth[id]);
      return Defined(script, true);
    }

    /** Walks `n` steps down the base definitions of a variable. */
    method HasBase(id: VarId, n: nat) returns (found: bool)
      requires id in cfg.legacy
      ensures found <==> n < |cfg.legacy[id]|
    {
      var base := 0;
      found := base < |cfg.legacy[id]|;
      while found && base != n
        invariant 0 <= base <= n && (found <==> base < |cfg.legacy[id]|)
      {
        base := base + 1;
        found := base < |cfg.legacy[id]|;
      }
    }

    /** The `n`-th base definition; it is parsed only if the cache does not have it, and then the
        cache has exactly the `n` definitions before it. */
    method CachedDefinition(id: VarId, n: nat) returns (script: Script)
      requires Valid() && IsVariable(cfg, id) && n < |cfg.legacy[id]|
      requires id in recursionDepth && recursionDepth[id] == n
      modifies this`definitionCache
      ensures Valid() && script == DefinitionOf(cfg, cfg.legacy[id][n])
      ensures id in definitionCache && n < |definitionCache[id]|
      ensures var had := Entries(old(definitionCache), id);
        if n < |had| then definitionCache == old(definitionCache)
        else |had| == n && definitionCache == old(definitionCache)[id := had + [script]]
    {
      if id !in definitionCache {
        definitionCache := definitionCache[id := []];
      } else if n < |definitionCache[id]| {
        return definitionCache[id][n];
      }
      assert |definitionCache[id]| == n;
      script := ParseDefinition(cfg.legacy[id][n]);
      CachesMore(cfg, id, definitionCache[id], script);
      definitionCache := definitionCache[id := definitionCache[id] + [script]];
    }

    method ParseDefinition(v: LegacyValue) returns (script: Script)
      ensures script == DefinitionOf(cfg, v)
    {
      if v.Conventional? {
        return cfg.parse(v.text);
      }
      var hasMacro, hasPlain := false, false;
      for i := 0 to |v.parts|
        invariant hasMacro <==> HasMacro(v.parts[..i])
        invariant hasPlain <==> HasPlain(v.parts[..i])
      {
        MoreParts(v.parts, i);
        if v.parts[i].isMacro {
          hasMacro := true;
        } else {
          hasPlain := true;
        }
      }
      assert v.parts[..|v.parts|] == v.parts;
      script := [];
      if hasMacro && hasPlain {
        var text := JoinParts(v.parts, true);
        script := cfg.parse(text);
      } else if hasMacro {
        script := Constant(cfg.lateGlobs(Names(v.parts)));
      } else if hasPlain {
        var text := JoinParts(v.parts, false);
        script := cfg.parse(text);
      }
    }

    method JoinParts(parts: seq<Part>, quote: bool) returns (text: string)
      ensures text == Spaced("", parts, quote)
    {
      text := "";
      assert parts[0..] == parts;
      for i := 0 to |parts|
        invariant Spaced(text, parts[i..], quote) == Spaced("", parts, quote)
      {
        assert parts[i..][0] == parts[i] && parts[i..][1..] == parts[i + 1..];
        if text != "" {
          text := text + " ";
        }
        text := text + (if quote then parts[i].quoted else parts[i].name);
      }
    }

    /** The definition of a macro, parsed at the first call. */
    method GetMacroDefinition(fn: VarId) returns (r: Result<Script, Failure>)
      requires Valid()
      modifies this`definitionCache
      ensures Valid() && r == (if fn in cfg.macros then Ok(cfg.parse(cfg.macros[fn])) else Err(UnknownMacro))
      ensures definitionCache == if r.Ok? then old(definitionCache)[fn := [r.value]] else old(definitionCache)
    {
      assert fn in cfg.macros ==> fn !in recursionDepth;
      if fn !in cfg.macros {
        return Err(UnknownMacro);
      }
      if fn in definitionCache {
        var entries := definitionCache[fn];
        assert Caches(cfg, fn, entries) && definitionCache == definitionCache[fn := entries];
        return Ok(entries[|entries| - 1]);
      }
      var script := cfg.parse(cfg.macros[fn]);
      definitionCache := definitionCache[fn := [script]];
      r := Ok(script);
    }

    /** Appends what the options of a macro add. */
    method ProcessMacroSideChannels(fn: VarId)
      requires Valid()
      modifies this`sideChannels, this`called
      ensures Valid() && called == old(called) + [fn]
    {
      var SideChannels(peers, incls) := sideChannels;
      if fn in cfg.addPeers {
        peers := Some(Merged(peers, cfg.addPeers[fn]));
      }
      if fn in cfg.addIncls {
        incls := Some(Merged(incls, cfg.addIncls[fn]));
      }
      GatheredMore(cfg.addPeers, called, fn);
      GatheredMore(cfg.addIncls, called, fn);
      sideChannels, called := SideChannels(peers, incls), called + [fn];
    }

    method EnterVar(id: VarId)
      requires Valid() && EnterableVar(Some(id))
      modifies this`recursionDepth
      ensures Valid() && Depths() == Enter(old(Depths()), id, true)
    {
      VisibleEnter(recursionDepth, id);
      recursionDepth := recursionDepth[id := DepthOf(recursionDepth, id) + 1];
    }

    method LeaveVar(id: VarId, ghost before: map<VarId, nat>)
      requires Valid() && Depths() == Enter(Visible(before), id, true)
      modifies this`recursionDepth
      ensures Valid() && Depths() == Visible(before)
    {
      VisibleLeave(before, recursionDepth, id);
      recursionDepth := recursionDepth[id := recursionDepth[id] - 1];
    }

    // -------------------------------------------------------------- standalone terms

    method VarTarget(id: VarId) returns (t: Result<Option<Target>, Failure>)
      requires Valid()
      modifies this`recursionDepth, this`definitionCache
      ensures Valid() && Depths() == old(Depths())
      ensures Leads(Depths(), VarRedirect(cfg, scope, Depths(), id), t, called, called)
      ensures Enterable(t)
    {
      var def := GetVariableDefinition(id);
      match def
      case Undefined => t := Ok(None);
      case Bad => t := Err(SelfContradictory);
      case Defined(script, legacy) => t := Ok(Some(Target(script, scope, if legacy then Some(id) else None)));
    }

    /** A legacy variable that is about to be expanded has its current definition cached. */
    ghost predicate Enterable(t: Result<Option<Target>, Failure>)
      reads this
    {
      t.Ok? && t.value.Some? ==> EnterableVar(t.value.value.entered)
    }

    ghost predicate EnterableVar(entered: Option<VarId>)
      reads this
    {
      match entered
      case None => true
      case Some(id) => id in recursionDepth && id in definitionCache && recursionDepth[id] < |definitionCache[id]|
    }

    method CallTarget(fn: VarId, params: seq<MacroArg>) returns (t: Result<Target, Failure>)
      requires Valid()
      modifies this
      ensures Valid() && scope == old(scope) && depth == old(depth) && Depths() == old(Depths())
      ensures match CallRedirect(cfg, scope, Depths(), MAX_DEPTH - depth, fn, params) {
          case Err(f) => t == Err(f)
          case Ok(Made(to, calls)) =>
            t.Ok? && LeadsTo(Depths(), to, t.value) && t.value.entered == None && called == old(called) + calls
        }
      decreases MAX_DEPTH - depth, 3, 0
    {
      var def := GetMacroDefinition(fn);
      if def.Err? {
        return Err(def.error);
      }
      ProcessMacroSideChannels(fn);
      ghost var spec := Inliner.FillMacroArgs(cfg, scope, Depths(), MAX_DEPTH - depth, params, map[]);
      var defs := FillMacroArgs(params);
      DoesAfter([fn], spec, defs, old(called), old(called) + [fn], called);
      if defs.Err? {
        return Err(defs.error);
      }
      t := Ok(Target(def.value, Frame(defs.value, scope), None));
    }

    method FillMacroArgs(params: seq<MacroArg>) returns (r: Result<map<VarId, Script>, Failure>)
      requires Valid()
      modifies this
      ensures Valid() && scope == old(scope) && depth == old(depth) && Depths() == old(Depths())
      ensures Does(Inliner.FillMacroArgs(cfg, scope, Depths(), MAX_DEPTH - depth, params, map[]), r, old(called), called)
      decreases MAX_DEPTH - depth, 2, 0
    {
      var defs: map<VarId, Script> := map[];
      ghost var made: seq<VarId> := [];
      AfterNothing(Inliner.FillMacroArgs(cfg, scope, Depths(), MAX_DEPTH - depth, params, map[]));
      assert params[0..] == params;
      for i := 0 to |params|
        invariant Valid() && scope == old(scope) && depth == old(depth) && Depths() == old(Depths())
        invariant called == old(called) + made
        invariant Inliner.FillMacroArgs(cfg, scope, Depths(), MAX_DEPTH - depth, params, map[])
               == After(made, Inliner.FillMacroArgs(cfg, scope, Depths(), MAX_DEPTH - depth, params[i..], defs))
      {
        var name := params[i].name;
        assert params[i..][0] == params[i] && params[i..][1..] == params[i + 1..];
        var value := InlineCommands(params[i].value, true);
        if value.Err? {
          return Err(value.error);
        }
        ghost var calls := Commands(cfg, scope, Depths(), MAX_DEPTH - depth, params[i].value, true).value.calls;
        defs := defs[name := (if name in defs then defs[name] else []) + value.value];
        AfterTwice(made, calls, Inliner.FillMacroArgs(cfg, scope, Depths(), MAX_DEPTH - depth, params[i + 1..], defs));
        assert (old(called) + made) + calls == old(called) + (made + calls);
        made := made + calls;
      }
      assert made + [] == made;
      r := Ok(defs);
    }

    method Condition(cond: Term) returns (r: Result<bool, Failure>)
      requires Valid()
      modifies this
      ensures Valid() && scope == old(scope) && depth == old(depth) && Depths() == old(Depths())
      ensures Does(Inliner.Condition(cfg, scope, Depths(), MAX_DEPTH - depth, cond), r, old(called), called)
      decreases MAX_DEPTH - depth, 3, 0
    {
      var ts := InlineScalarTerm(cond, false);
      if ts.Err? {
        return Err(ts.error);
      }
      if |ts.value| != 1 {
        return Err(BadCondition);
      }
      match cfg.evalBool(ts.value[0])
      case None => r := Err(BadCondition);
      case Some(b) => r := Ok(b);
    }

    method TryStandalone(t: Term) returns (r: Result<Option<Target>, Failure>)
      requires Valid()
      modifies this
      ensures Valid() && scope == old(scope) && depth == old(depth) && Depths() == old(Depths())
      ensures Leads(Depths(), Standalone(cfg, scope, Depths(), MAX_DEPTH - depth, t), r, old(called), called)
      ensures Enterable(r)
      decreases MAX_DEPTH - depth, 4, 0
    {
      match t
      case Var(id) => r := VarTarget(id);
      case Xfm(mods, body) =>
        if IsBareVar(mods, body) {
          r := VarTarget(body[0].terms[0].id);
        } else {
          r := Ok(None);
        }
      case Call(fn, params) =>
        var to := CallTarget(fn, params);
        r := if to.Err? then Err(to.error) else Ok(Some(to.value));
      case If(cond, yes, no) =>
        var holds := Condition(cond);
        r := if holds.Err? then Err(holds.error) else Ok(Some(Target([if holds.value then yes else no], scope, None)));
      case _ => r := Ok(None);
    }

    /** Continues inside a target; `Return` undoes it, whatever happened in between. */
    method Go(t: Target)
      requires Valid() && EnterableVar(t.entered)
      modifies this`scope, this`recursionDepth
      ensures Valid() && scope == t.scope
      ensures Depths() == TargetDepths(old(Depths()), t.entered)
    {
      if t.entered.Some? {
        EnterVar(t.entered.value);
      }
      scope := t.scope;
    }

    method Return(t: Target, saved: Scope, ghost before: map<VarId, nat>)
      requires Valid()
      requires Depths() == TargetDepths(Visible(before), t.entered)
      modifies this`scope, this`recursionDepth
      ensures Valid() && scope == saved && Depths() == Visible(before)
    {
      scope := saved;
      if t.entered.Some? {
        LeaveVar(t.entered.value, before);
      }
    }

    method InlineCommandsIn(t: Target, lock: bool) returns (r: Result<Script, Failure>)
      requires Valid() && EnterableVar(t.entered)
      modifies this
      ensures Valid() && scope == old(scope) && depth == old(depth) && Depths() == old(Depths())
      ensures Does(Commands(cfg, t.scope, TargetDepths(Depths(), t.entered), MAX_DEPTH - depth, t.script, lock), r, old(called), called)
      decreases MAX_DEPTH - depth, 2, 0
    {
      var saved := scope;
      ghost var before := recursionDepth;
      Go(t);
      r := InlineCommands(t.script, lock);
      Return(t, saved, before);
    }

    method InlineArgumentsIn(t: Target, lock: bool) returns (r: Result<seq<Arg>, Failure>)
      requires Valid() && EnterableVar(t.entered)
      modifies this
      ensures Valid() && scope == old(scope) && depth == old(depth) && Depths() == old(Depths())
      ensures Does(ArgumentsIn(cfg, Redirect(t.script, t.scope, TargetDepths(Depths(), t.entered)), MAX_DEPTH - depth, lock), r, old(called), called)
      decreases MAX_DEPTH - depth, 2, 0
    {
      if |t.script| == 0 {
        return Ok([]);
      }
      if |t.script| != 1 {
        return Err(MultiCommand);
      }
      var saved := scope;
      ghost var before := recursionDepth;
      Go(t);
      r := InlineArguments(t.script[0].args, lock);
      Return(t, saved, before);
    }

    method InlineTermsIn(t: Target, ts: seq<Term>, lock: bool) returns (r: Result<seq<Term>, Failure>)
      requires Valid() && EnterableVar(t.entered)
      modifies this
      ensures Valid() && scope == old(scope) && depth == old(depth) && Depths() == old(Depths())
      ensures Does(ScalarTerms(cfg, t.scope, TargetDepths(Depths(), t.entered), MAX_DEPTH - depth, ts, lock), r, old(called), called)
      decreases MAX_DEPTH - depth, 2, 0
    {
      var saved := scope;
      ghost var before := recursionDepth;
      Go(t);
      r := InlineScalarTerms(ts, lock);
      Return(t, saved, before);
    }

    method InlineModTermsIn(t: Target, ts: seq<Term>) returns (r: Result<seq<Term>, Failure>)
      requires Valid() && EnterableVar(t.entered)
      modifies this
      ensures Valid() && scope == old(scope) && depth == old(depth) && Depths() == old(Depths())
      ensures Does(ModTerms(cfg, t.scope, TargetDepths(Depths(), t.entered), MAX_DEPTH - depth, ts), r, old(called), called)
      decreases MAX_DEPTH - depth, 4, 1
    {
      var saved := scope;
      ghost var before := recursionDepth;
      Go(t);
      r := InlineModTerms(ts);
      Return(t, saved, before);
    }

    // -------------------------------------------------------------- commands

    method InlineCommands(script: Script, lock: bool) returns (r: Result<Script, Failure>)
      requires Valid()
      modifies this
      ensures Valid() && scope == old(scope) && depth == old(depth) && Depths() == old(Depths())
      ensures Does(Commands(cfg, scope, Depths(), MAX_DEPTH - depth, script, lock), r, old(called), called)
      decreases MAX_DEPTH - depth, 1, 0
    {
      if depth + 1 > MAX_DEPTH {
        return Err(TooDeep);
      }
      depth := depth + 1;
      r := InlineEachCommand(script, lock);
      depth := depth - 1;
    }

    method InlineEachCommand(script: Script, lock: bool) returns (r: Result<Script, Failure>)
      requires Valid()
      modifies this
      ensures Valid() && scope == old(scope) && depth == old(depth) && Depths() == old(Depths())
      ensures Does(CommandList(cfg, scope, Depths(), MAX_DEPTH - depth, script, lock), r, old(called), called)
      decreases MAX_DEPTH - depth, 6, 0
    {
      r := Ok([]);
      ghost var whole := CommandList(cfg, scope, Depths(), MAX_DEPTH - depth, script, lock);
      OngoingStart(whole, called);
      assert script[0..] == script;
      var i := 0;
      while i < |script| && r.Ok?
        invariant 0 <= i <= |script|
        invariant Valid() && scope == old(scope) && depth == old(depth) && Depths() == old(Depths())
        invariant Ongoing(whole, r, old(called), called, CommandList(cfg, scope, Depths(), MAX_DEPTH - depth, script[i..], lock))
        decreases |script| - i
      {
        NextCommand(cfg, scope, Depths(), MAX_DEPTH - depth, script, i, lock);
        ghost var now, first := called, OneCommand(cfg, scope, Depths(), MAX_DEPTH - depth, script[i], lock);
        var one := InlineCommand(script[i], lock);
        OngoingStep(whole, r, old(called), now, first, CommandList(cfg, scope, Depths(), MAX_DEPTH - depth, script[i + 1..], lock), one, called);
        r := if one.Ok? then Ok(r.value + one.value) else one;
        i := i + 1;
      }
      OngoingEnd(whole, r, old(called), called);
    }

    method InlineCommand(cmd: Cmd, lock: bool) returns (r: Result<Script, Failure>)
      requires Valid()
      modifies this
      ensures Valid() && scope == old(scope) && depth == old(depth) && Depths() == old(Depths())
      ensures Does(OneCommand(cfg, scope, Depths(), MAX_DEPTH - depth, cmd, lock), r, old(called), called)
      decreases MAX_DEPTH - depth, 5, 0
    {
      if |cmd.args| == 1 && |cmd.args[0].terms| == 1 {
        var target := TryStandalone(cmd.args[0].terms[0]);
        if target.Err? {
          return Err(target.error);
        }
        if target.value.Some? {
          ghost var before := called;
          r := InlineCommandsIn(target.value.value, lock);
          RedirectedCommand(cfg, scope, Depths(), MAX_DEPTH - depth, cmd, lock, target.value.value, r, old(called), before, called);
          return;
        }
      }
      var args := InlineArguments(cmd.args, lock);
      r := if args.Err? then Err(args.error) else Ok(if args.value == [] then [] else [Cmd(args.value)]);
      WholeCommand(cfg, scope, Depths(), MAX_DEPTH - depth, cmd, lock, args, old(called), called);
    }

    // -------------------------------------------------------------- arguments

    method InlineArguments(args: seq<Arg>, lock: bool) returns (r: Result<seq<Arg>, Failure>)
      requires Valid()
      modifies this
      ensures Valid() && scope == old(scope) && depth == old(depth) && Depths() == old(Depths())
      ensures Does(Arguments(cfg, scope, Depths(), MAX_DEPTH - depth, args, lock), r, old(called), called)
      decreases MAX_DEPTH - depth, 1, 0
    {
      if depth + 1 > MAX_DEPTH {
        return Err(TooDeep);
      }
      depth := depth + 1;
      r := InlineEachArgument(args, lock);
      depth := depth - 1;
    }

    method InlineEachArgument(args: seq<Arg>, lock: bool) returns (r: Result<seq<Arg>, Failure>)
      requires Valid()
      modifies this
      ensures Valid() && scope == old(scope) && depth == old(depth) && Depths() == old(Depths())
      ensures Does(ArgumentList(cfg, scope, Depths(), MAX_DEPTH - depth, args, lock), r, old(called), called)
      decreases MAX_DEPTH - depth, 6, 0
    {
      r := Ok([]);
      ghost var whole := ArgumentList(cfg, scope, Depths(), MAX_DEPTH - depth, args, lock);
      OngoingStart(whole, called);
      assert args[0..] == args;
      var i := 0;
      while i < |args| && r.Ok?
        invariant 0 <= i <= |args|
        invariant Valid() && scope == old(scope) && depth == old(depth) && Depths() == old(Depths())
        invariant Ongoing(whole, r, old(called), called, ArgumentList(cfg, scope, Depths(), MAX_DEPTH - depth, args[i..], lock))
        decreases |args| - i
      {
        NextArgument(cfg, scope, Depths(), MAX_DEPTH - depth, args, i, lock);
        ghost var now, first := called, OneArgument(cfg, scope, Depths(), MAX_DEPTH - depth, args[i], lock);
        var one := InlineArgument(args[i], lock);
        OngoingStep(whole, r, old(called), now, first, ArgumentList(cfg, scope, Depths(), MAX_DEPTH - depth, args[i + 1..], lock), one, called);
        r := if one.Ok? then Ok(r.value + one.value) else one;
        i := i + 1;
      }
      OngoingEnd(whole, r, old(called), called);
    }

    method InlineArgument(arg: Arg, lock: bool) returns (r: Result<seq<Arg>, Failure>)
      requires Valid()
      modifies this
      ensures Valid() && scope == old(scope) && depth == old(depth) && Depths() == old(Depths())
      ensures Does(OneArgument(cfg, scope, Depths(), MAX_DEPTH - depth, arg, lock), r, old(called), called)
      decreases MAX_DEPTH - depth, 5, 0
    {
      if |arg.terms| == 1 {
        var target := TryStandalone(arg.terms[0]);
        if target.Err? {
          return Err(target.error);
        }
        if target.value.Some? {
          ghost var before := called;
          r := InlineArgumentsIn(target.value.value, lock);
          RedirectedArgument(cfg, scope, Depths(), MAX_DEPTH - depth, arg, lock, target.value.value, r, old(called), before, called);
          return;
        }
      }
      var ts := InlineScalarTerms(arg.terms, lock);
      r := if ts.Err? then Err(ts.error) else Ok(if ts.value == [] then [] else [Arg(ts.value)]);
      WholeArgument(cfg, scope, Depths(), MAX_DEPTH - depth, arg, lock, ts, old(called), called);
    }

    // -------------------------------------------------------------- terms

    method InlineScalarTerms(ts: seq<Term>, lock: bool) returns (r: Result<seq<Term>, Failure>)
      requires Valid()
      modifies this
      ensures Valid() && scope == old(scope) && depth == old(depth) && Depths() == old(Depths())
      ensures Does(ScalarTerms(cfg, scope, Depths(), MAX_DEPTH - depth, ts, lock), r, old(called), called)
      decreases MAX_DEPTH - depth, 1, 0
    {
      if depth + 1 > MAX_DEPTH {
        return Err(TooDeep);
      }
      depth := depth + 1;
      r := InlineEachTerm(ts, lock);
      depth := depth - 1;
    }

    method InlineEachTerm(ts: seq<Term>, lock: bool) returns (r: Result<seq<Term>, Failure>)
      requires Valid()
      modifies this
      ensures Valid() && scope == old(scope) && depth == old(depth) && Depths() == old(Depths())
      ensures Does(ScalarTermList(cfg, scope, Depths(), MAX_DEPTH - depth, ts, lock), r, old(called), called)
      decreases MAX_DEPTH - depth, 6, 0
    {
      r := Ok([]);
      ghost var whole := ScalarTermList(cfg, scope, Depths(), MAX_DEPTH - depth, ts, lock);
      OngoingStart(whole, called);
      assert ts[0..] == ts;
      var i := 0;
      while i < |ts| && r.Ok?
        invariant 0 <= i <= |ts|
        invariant Valid() && scope == old(scope) && depth == old(depth) && Depths() == old(Depths())
        invariant Ongoing(whole, r, old(called), called, ScalarTermList(cfg, scope, Depths(), MAX_DEPTH - depth, ts[i..], lock))
        decreases |ts| - i
      {
        NextTerm(cfg, scope, Depths(), MAX_DEPTH - depth, ts, i, lock);
        ghost var now, first := called, ScalarTerm(cfg, scope, Depths(), MAX_DEPTH - depth, ts[i], lock);
        var one := InlineScalarTerm(ts[i], lock);
        OngoingStep(whole, r, old(called), now, first, ScalarTermList(cfg, scope, Depths(), MAX_DEPTH - depth, ts[i + 1..], lock), one, called);
        r := if one.Ok? then Ok(r.value + one.value) else one;
        i := i + 1;
      }
      OngoingEnd(whole, r, old(called), called);
    }

    method InlineScalarTerm(t: Term, lock: bool) returns (r: Result<seq<Term>, Failure>)
      requires Valid()
      modifies this
      ensures Valid() && scope == old(scope) && depth == old(depth) && Depths() == old(Depths())
      ensures Does(ScalarTerm(cfg, scope, Depths(), MAX_DEPTH - depth, t, lock), r, old(called), called)
      decreases MAX_DEPTH - depth, 1, 0
    {
      if depth + 1 > MAX_DEPTH {
        return Err(TooDeep);
      }
      depth := depth + 1;
      r := VisitScalarTerm(t, lock);
      depth := depth - 1;
    }

    method VisitScalarTerm(t: Term, lock: bool) returns (r: Result<seq<Term>, Failure>)
      requires Valid()
      modifies this
      ensures Valid() && scope == old(scope) && depth == old(depth) && Depths() == old(Depths())
      ensures Does(ScalarTerm(cfg, scope, Depths(), MAX_DEPTH - depth + 1, t, lock), r, old(called), called)
      decreases MAX_DEPTH - depth, 6, 0
    {
      match t
      case Value(_) => r := Ok([Written(lock, t)]);
      case Unexpanded(_) => r := Ok([Written(lock, t)]);
      case IdOrString(_) => r := Err(Aborted);
      case Var(id) => r := InlineScalarVar(id, lock);
      case Xfm(mods, body) =>
        var x := InlineTransformation(mods, body);
        r := if x.Err? then Err(x.error) else Ok([Written(lock, x.value)]);
      case Call(fn, params) => r := InlineScalarCall(fn, params, lock);
      case If(cond, yes, no) => r := InlineScalarIf(cond, yes, no, lock);
    }

    method InlineScalarIf(cond: Term, yes: Cmd, no: Cmd, lock: bool) returns (r: Result<seq<Term>, Failure>)
      requires Valid()
      modifies this
      ensures Valid() && scope == old(scope) && depth == old(depth) && Depths() == old(Depths())
      ensures Does(ScalarTerm(cfg, scope, Depths(), MAX_DEPTH - depth + 1, If(cond, yes, no), lock), r, old(called), called)
      decreases MAX_DEPTH - depth, 5, 0
    {
      var holds := Condition(cond);
      if holds.Err? {
        return Err(holds.error);
      }
      var branch := if holds.value then yes else no;
      if |branch.args| != 1 {
        return Err(MultiArgument);
      }
      ghost var before, calls := called, Inliner.Condition(cfg, scope, Depths(), MAX_DEPTH - depth, cond).value.calls;
      r := InlineScalarTerms(branch.args[0].terms, lock);
      DoesAfter(calls, ScalarTerms(cfg, scope, Depths(), MAX_DEPTH - depth, branch.args[0].terms, lock), r, old(called), before, called);
    }

    method InlineScalarCall(fn: VarId, params: seq<MacroArg>, lock: bool) returns (r: Result<seq<Term>, Failure>)
      requires Valid()
      modifies this
      ensures Valid() && scope == old(scope) && depth == old(depth) && Depths() == old(Depths())
      ensures Does(ScalarTerm(cfg, scope, Depths(), MAX_DEPTH - depth + 1, Call(fn, params), lock), r, old(called), called)
      decreases MAX_DEPTH - depth, 5, 0
    {
      var target := CallTarget(fn, params);
      if target.Err? {
        return Err(target.error);
      }
      ghost var before, to := called, CallRedirect(cfg, scope, Depths(), MAX_DEPTH - depth, fn, params).value;
      r := InlineShape(target.value, lock);
      DoesAfter(to.calls, TermsIn(cfg, to.value, MAX_DEPTH - depth, lock), r, old(called), before, called);
    }

    method InlineShape(t: Target, lock: bool) returns (r: Result<seq<Term>, Failure>)
      requires Valid() && EnterableVar(t.entered)
      modifies this
      ensures Valid() && scope == old(scope) && depth == old(depth) && Depths() == old(Depths())
      ensures Does(TermsIn(cfg, Redirect(t.script, t.scope, TargetDepths(Depths(), t.entered)), MAX_DEPTH - depth, lock), r, old(called), called)
      decreases MAX_DEPTH - depth, 3, 0
    {
      match ShapeOf(t.script)
      case Empty => r := Ok([]);
      case ManyCommands => r := Err(MultiCommand);
      case ManyArguments => r := Err(MultiArgument);
      case Single(ts) => r := InlineTermsIn(t, ts, lock);
    }

    method InlineScalarVar(id: VarId, lock: bool) returns (r: Result<seq<Term>, Failure>)
      requires Valid()
      modifies this
      ensures Valid() && scope == old(scope) && depth == old(depth) && Depths() == old(Depths())
      ensures Does(ScalarVar(cfg, scope, Depths(), MAX_DEPTH - depth, id, lock), r, old(called), called)
      decreases MAX_DEPTH - depth, 3, 1
    {
      var def := GetVariableDefinition(id);
      r := InlineScalarDefinition(id, def, lock);
    }

    method InlineScalarDefinition(id: VarId, def: Definition, lock: bool) returns (r: Result<seq<Term>, Failure>)
      requires Valid() && def == Inliner.GetVariableDefinition(cfg, scope, Depths(), id)
      requires def.Defined? && def.legacy ==> EnterableVar(Some(id))
      modifies this
      ensures Valid() && scope == old(scope) && depth == old(depth) && Depths() == old(Depths())
      ensures Does(ScalarVar(cfg, scope, Depths(), MAX_DEPTH - depth, id, lock), r, old(called), called)
      decreases MAX_DEPTH - depth, 3, 0
    {
      VisibleEnter(recursionDepth, id);
      match def
      case Undefined => r := Ok([Written(lock, Var(id))]);
      case Bad => r := Err(SelfContradictory);
      case Defined(script, legacy) =>
        match ShapeOf(script)
        case Empty => r := Ok([]);
        case ManyCommands => r := Err(MultiCommand);
        case ManyArguments =>
          r := if !legacy || DepthOf(recursionDepth, id) != 0 then Err(MultiArgument) else Ok([Written(lock, Var(id))]);
        case Single(ts) =>
          r := InlineTermsIn(Target(script, scope, if legacy then Some(id) else None), ts, lock);
    }

    // -------------------------------------------------------------- transformations

    method InlineTransformation(mods: seq<Modifier>, body: seq<Arg>) returns (r: Result<Term, Failure>)
      requires Valid()
      modifies this
      ensures Valid() && scope == old(scope) && depth == old(depth) && Depths() == old(Depths())
      ensures Does(Transformation(cfg, scope, Depths(), MAX_DEPTH - depth, mods, body), r, old(called), called)
      decreases MAX_DEPTH - depth, 1, 0
    {
      if depth + 1 > MAX_DEPTH {
        return Err(TooDeep);
      }
      depth := depth + 1;
      r := VisitTransformation(mods, body);
      depth := depth - 1;
    }

    method VisitTransformation(mods: seq<Modifier>, body: seq<Arg>) returns (r: Result<Term, Failure>)
      requires Valid()
      modifies this
      ensures Valid() && scope == old(scope) && depth == old(depth) && Depths() == old(Depths())
      ensures Does(Transformation(cfg, scope, Depths(), MAX_DEPTH - depth + 1, mods, body), r, old(called), called)
      decreases MAX_DEPTH - depth, 7, 0
    {
      var newMods := InlineMods(mods);
      if newMods.Err? {
        return Err(newMods.error);
      }
      ghost var calls := ModList(cfg, scope, Depths(), MAX_DEPTH - depth, mods).value.calls;
      var newBody := InlineBody(body);
      DoesAfter(calls, Body(cfg, scope, Depths(), MAX_DEPTH - depth, body), newBody, old(called), old(called) + calls, called);
      r := if newBody.Err? then Err(newBody.error) else Ok(Xfm(newMods.value, newBody.value));
    }

    method InlineMods(mods: seq<Modifier>) returns (r: Result<seq<Modifier>, Failure>)
      requires Valid()
      modifies this
      ensures Valid() && scope == old(scope) && depth == old(depth) && Depths() == old(Depths())
      ensures Does(ModList(cfg, scope, Depths(), MAX_DEPTH - depth, mods), r, old(called), called)
      decreases MAX_DEPTH - depth, 6, 0
    {
      r := Ok([]);
      ghost var whole := ModList(cfg, scope, Depths(), MAX_DEPTH - depth, mods);
      OngoingStart(whole, called);
      assert mods[0..] == mods;
      var i := 0;
      while i < |mods| && r.Ok?
        invariant 0 <= i <= |mods|
        invariant Valid() && scope == old(scope) && depth == old(depth) && Depths() == old(Depths())
        invariant Ongoing(whole, r, old(called), called, ModList(cfg, scope, Depths(), MAX_DEPTH - depth, mods[i..]))
        decreases |mods| - i
      {
        NextMod(cfg, scope, Depths(), MAX_DEPTH - depth, mods, i);
        ghost var now, first := called, ModArgs(cfg, scope, Depths(), MAX_DEPTH - depth, mods[i].args);
        var args := InlineModArgs(mods[i].args);
        var one: Result<seq<Modifier>, Failure> := if args.Err? then Err(args.error) else Ok([Modifier(mods[i].function_, args.value)]);
        ghost var made: Outcome<seq<Modifier>> :=
          if first.Err? then Err(first.error) else Ok(Made([Modifier(mods[i].function_, first.value.value)], first.value.calls));
        OngoingStep(whole, r, old(called), now, made, ModList(cfg, scope, Depths(), MAX_DEPTH - depth, mods[i + 1..]), one, called);
        r := if one.Ok? then Ok(r.value + one.value) else one;
        i := i + 1;
      }
      OngoingEnd(whole, r, old(called), called);
    }

    method InlineModArgs(args: seq<Arg>) returns (r: Result<seq<Arg>, Failure>)
      requires Valid()
      modifies this
      ensures Valid() && scope == old(scope) && depth == old(depth) && Depths() == old(Depths())
      ensures Does(ModArgs(cfg, scope, Depths(), MAX_DEPTH - depth, args), r, old(called), called)
      decreases MAX_DEPTH - depth, 5, 0
    {
      r := Ok([]);
      ghost var whole := ModArgs(cfg, scope, Depths(), MAX_DEPTH - depth, args);
      OngoingStart(whole, called);
      assert args[0..] == args;
      var i := 0;
      while i < |args| && r.Ok?
        invariant 0 <= i <= |args|
        invariant Valid() && scope == old(scope) && depth == old(depth) && Depths() == old(Depths())
        invariant Ongoing(whole, r, old(called), called, ModArgs(cfg, scope, Depths(), MAX_DEPTH - depth, args[i..]))
        decreases |args| - i
      {
        NextModArg(cfg, scope, Depths(), MAX_DEPTH - depth, args, i);
        ghost var now, first := called, ModTerms(cfg, scope, Depths(), MAX_DEPTH - depth, args[i].terms);
        var ts := InlineModTerms(args[i].terms);
        var one: Result<seq<Arg>, Failure> := if ts.Err? then Err(ts.error) else Ok([Arg(ts.value)]);
        ghost var made: Outcome<seq<Arg>> :=
          if first.Err? then Err(first.error) else Ok(Made([Arg(first.value.value)], first.value.calls));
        OngoingStep(whole, r, old(called), now, made, ModArgs(cfg, scope, Depths(), MAX_DEPTH - depth, args[i + 1..]), one, called);
        r := if one.Ok? then Ok(r.value + one.value) else one;
        i := i + 1;
      }
      OngoingEnd(whole, r, old(called), called);
    }

    method InlineModTerms(ts: seq<Term>) returns (r: Result<seq<Term>, Failure>)
      requires Valid()
      modifies this
      ensures Valid() && scope == old(scope) && depth == old(depth) && Depths() == old(Depths())
      ensures Does(ModTerms(cfg, scope, Depths(), MAX_DEPTH - depth, ts), r, old(called), called)
      decreases MAX_DEPTH - depth, 4, 0
    {
      r := Ok([]);
      ghost var whole := ModTerms(cfg, scope, Depths(), MAX_DEPTH - depth, ts);
      OngoingStart(whole, called);
      assert ts[0..] == ts;
      var i := 0;
      while i < |ts| && r.Ok?
        invariant 0 <= i <= |ts|
        invariant Valid() && scope == old(scope) && depth == old(depth) && Depths() == old(Depths())
        invariant Ongoing(whole, r, old(called), called, ModTerms(cfg, scope, Depths(), MAX_DEPTH - depth, ts[i..]))
        decreases |ts| - i
      {
        NextModTerm(cfg, scope, Depths(), MAX_DEPTH - depth, ts, i);
        ghost var now, first := called, ModArgTerm(cfg, scope, Depths(), MAX_DEPTH - depth, ts[i]);
        var one := InlineModArgTerm(ts[i]);
        OngoingStep(whole, r, old(called), now, first, ModTerms(cfg, scope, Depths(), MAX_DEPTH - depth, ts[i + 1..]), one, called);
        r := if one.Ok? then Ok(r.value + one.value) else one;
        i := i + 1;
      }
      OngoingEnd(whole, r, old(called), called);
    }

    method InlineModArgTerm(t: Term) returns (r: Result<seq<Term>, Failure>)
      requires Valid()
      modifies this
      ensures Valid() && scope == old(scope) && depth == old(depth) && Depths() == old(Depths())
      ensures Does(ModArgTerm(cfg, scope, Depths(), MAX_DEPTH - depth, t), r, old(called), called)
      decreases MAX_DEPTH - depth, 1, 0
    {
      if depth + 1 > MAX_DEPTH {
        return Err(TooDeep);
      }
      depth := depth + 1;
      r := VisitModArgTerm(t);
      depth := depth - 1;
    }

    method VisitModArgTerm(t: Term) returns (r: Result<seq<Term>, Failure>)
      requires Valid()
      modifies this
      ensures Valid() && scope == old(scope) && depth == old(depth) && Depths() == old(Depths())
      ensures Does(ModArgTerm(cfg, scope, Depths(), MAX_DEPTH - depth + 1, t), r, old(called), called)
      decreases MAX_DEPTH - depth, 6, 0
    {
      match t
      case Value(_) => r := Ok([t]);
      case Unexpanded(id) => r := Ok([Var(id)]);
      case IdOrString(_) => r := Err(Aborted);
      case Call(_, _) => r := Err(NotImplemented);
      case If(_, _, _) => r := Err(NotImplemented);
      case Xfm(mods, body) =>
        var x := InlineTransformation(mods, body);
        r := if x.Err? then Err(x.error) else Ok([x.value]);
      case Var(id) => r := InlineModVar(id);
    }

    method InlineModVar(id: VarId) returns (r: Result<seq<Term>, Failure>)
      requires Valid()
      modifies this
      ensures Valid() && scope == old(scope) && depth == old(depth) && Depths() == old(Depths())
      ensures Does(ModArgTerm(cfg, scope, Depths(), MAX_DEPTH - depth + 1, Var(id)), r, old(called), called)
      decreases MAX_DEPTH - depth, 5, 1
    {
      var def := GetVariableDefinition(id);
      r := InlineModDefinition(id, def);
    }

    method InlineModDefinition(id: VarId, def: Definition) returns (r: Result<seq<Term>, Failure>)
      requires Valid() && def == Inliner.GetVariableDefinition(cfg, scope, Depths(), id)
      requires def.Defined? && def.legacy ==> EnterableVar(Some(id))
      modifies this
      ensures Valid() && scope == old(scope) && depth == old(depth) && Depths() == old(Depths())
      ensures Does(ModArgTerm(cfg, scope, Depths(), MAX_DEPTH - depth + 1, Var(id)), r, old(called), called)
      decreases MAX_DEPTH - depth, 5, 0
    {
      VisibleEnter(recursionDepth, id);
      match def
      case Undefined => r := Ok([Var(id)]);
      case Bad => r := Err(SelfContradictory);
      case Defined(script, legacy) =>
        match ShapeOf(script)
        case Empty => r := Ok([]);
        case ManyCommands => r := Err(MultiCommand);
        case ManyArguments =>
          r := if legacy && DepthOf(recursionDepth, id) != 0 then Err(MultiArgument) else Ok([Var(id)]);
        case Single(ts) =>
          r := InlineModTermsIn(Target(script, scope, if legacy then Some(id) else None), ts);
    }

    method InlineBody(body: seq<Arg>) returns (r: Result<seq<Arg>, Failure>)
      requires Valid()
      modifies this
      ensures Valid() && scope == old(scope) && depth == old(depth) && Depths() == old(Depths())
      ensures Does(Body(cfg, scope, Depths(), MAX_DEPTH - depth, body), r, old(called), called)
      decreases MAX_DEPTH - depth, 3, 1
    {
      if !IsVarBody(body) {
        return Ok(body);
      }
      var def := GetVariableDefinition(body[0].terms[0].id);
      r := InlineBodyDefinition(body, def);
    }

    method InlineBodyDefinition(body: seq<Arg>, def: Definition) returns (r: Result<seq<Arg>, Failure>)
      requires Valid() && IsVarBody(body) && def == Inliner.GetVariableDefinition(cfg, scope, Depths(), body[0].terms[0].id)
      requires def.Defined? && def.legacy ==> EnterableVar(Some(body[0].terms[0].id))
      modifies this
      ensures Valid() && scope == old(scope) && depth == old(depth) && Depths() == old(Depths())
      ensures Does(Body(cfg, scope, Depths(), MAX_DEPTH - depth, body), r, old(called), called)
      decreases MAX_DEPTH - depth, 3, 0
    {
      match def
      case Undefined => r := Ok(body);
      case Bad => r := Err(SelfContradictory);
      case Defined(script, legacy) =>
        if |script| == 0 {
          return Ok([]);
        }
        if |script| != 1 {
          return Err(MultiCommand);
        }
        var new_ := InlineCommandsIn(Target(script, scope, if legacy then Some(body[0].terms[0].id) else None), false);
        r := if new_.Err? then Err(new_.error)
             else if |new_.value| == 0 then Ok([])
             else if |new_.value| != 1 then Err(MultiCommand)
             else Ok(new_.value[0].args);
    }

    /** Inlines a whole script.  Recursion depths are all zero before and after, also when it
        fails. */
    method Inline(script: Script) returns (r: Result<(Script, SideChannels), Failure>)
      requires Valid() && scope == Global && depth == 0 && Depths() == map[]
      modifies this
      ensures Valid() && scope == Global && depth == 0 && Depths() == map[]
      ensures r == WithChannels(cfg, Inlined(cfg, script))
    {
      sideChannels, called := SideChannels(None, None), [];
      var inlined := InlineCommands(script, false);
      if inlined.Err? {
        return Err(inlined.error);
      }
      assert called == Inlined(cfg, script).value.calls;
      r := Ok((inlined.value, sideChannels));
    }
  }
}
