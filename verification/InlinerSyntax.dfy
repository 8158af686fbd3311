/** Command scripts as the inliner sees them, and the locking of variables. */
module InlinerSyntax {

  type VarId = nat

  /** `Unexpanded` marks a variable that must not be expanded again; it never occurs in parsed
      scripts.  Constants and modifier functions are opaque. */
  datatype Term =
    | Value(value: nat)
    | Var(id: VarId)
    | Xfm(mods: seq<Modifier>, body: seq<Arg>)
    | Call(fn: VarId, params: seq<MacroArg>)
    | If(cond: Term, yes: Cmd, no: Cmd)
    | IdOrString(text: nat)
    | Unexpanded(id: VarId)

  datatype Arg = Arg(terms: seq<Term>)

  datatype Cmd = Cmd(args: seq<Arg>)

  type Script = seq<Cmd>

  datatype Modifier = Modifier(function_: nat, args: seq<Arg>)

  datatype MacroArg = MacroArg(name: VarId, value: seq<Cmd>)

  // ---------------------------------------------------------------- writing terms

  /** What a command writer stores: variables are locked while a macro argument is filled in,
      and unlocked otherwise.  Transformations are rewritten inside; calls are left alone. */
  function Written(lock: bool, t: Term): Term {
    match t
    case Var(id) => if lock then Unexpanded(id) else t
    case Unexpanded(id) => if lock then t else Var(id)
    case Xfm(mods, body) => Xfm(WrittenMods(lock, mods), WrittenArgs(lock, body))
    case _ => t
  }

  function WrittenTerms(lock: bool, ts: seq<Term>): (r: seq<Term>)
    ensures |r| == |ts|
  {
    if ts == [] then [] else [Written(lock, ts[0])] + WrittenTerms(lock, ts[1..])
  }

  function WrittenArgs(lock: bool, b: seq<Arg>): (r: seq<Arg>)
    ensures |r| == |b|
  {
    if b == [] then [] else [Arg(WrittenTerms(lock, b[0].terms))] + WrittenArgs(lock, b[1..])
  }

  function WrittenMods(lock: bool, ms: seq<Modifier>): (r: seq<Modifier>)
    ensures |r| == |ms|
  {
    if ms == [] then []
    else [Modifier(ms[0].function_, WrittenArgs(lock, ms[0].args))] + WrittenMods(lock, ms[1..])
  }

  function WrittenScript(lock: bool, s: Script): (r: Script)
    ensures |r| == |s|
  {
    if s == [] then [] else [Cmd(WrittenArgs(lock, s[0].args))] + WrittenScript(lock, s[1..])
  }

  /** The last rewrite wins. */
  lemma {:induction false} WrittenTwice(l: bool, k: bool, t: Term)
    ensures Written(l, Written(k, t)) == Written(l, t)
  {
    match t
    case Xfm(mods, body) =>
      WrittenModsTwice(l, k, mods);
      WrittenArgsTwice(l, k, body);
    case _ =>
  }

  lemma {:induction false} WrittenTermsTwice(l: bool, k: bool, ts: seq<Term>)
    ensures WrittenTerms(l, WrittenTerms(k, ts)) == WrittenTerms(l, ts)
  {
    if ts != [] {
      WrittenTwice(l, k, ts[0]);
      WrittenTermsTwice(l, k, ts[1..]);
      assert WrittenTerms(k, ts)[1..] == WrittenTerms(k, ts[1..]);
    }
  }

  lemma {:induction false} WrittenArgsTwice(l: bool, k: bool, b: seq<Arg>)
    ensures WrittenArgs(l, WrittenArgs(k, b)) == WrittenArgs(l, b)
  {
    if b != [] {
      WrittenTermsTwice(l, k, b[0].terms);
      WrittenArgsTwice(l, k, b[1..]);
      assert WrittenArgs(k, b)[1..] == WrittenArgs(k, b[1..]);
    }
  }

  lemma {:induction false} WrittenModsTwice(l: bool, k: bool, ms: seq<Modifier>)
    ensures WrittenMods(l, WrittenMods(k, ms)) == WrittenMods(l, ms)
  {
    if ms != [] {
      WrittenArgsTwice(l, k, ms[0].args);
      WrittenModsTwice(l, k, ms[1..]);
      assert WrittenMods(k, ms)[1..] == WrittenMods(k, ms[1..]);
    }
  }

  lemma {:induction false} WrittenTermsConcat(l: bool, a: seq<Term>, b: seq<Term>)
    ensures WrittenTerms(l, a + b) == WrittenTerms(l, a) + WrittenTerms(l, b)
    decreases a
  {
    if a == [] {
      assert a + b == b;
    } else {
      WrittenTermsConcat(l, a[1..], b);
      assert (a + b)[1..] == a[1..] + b && (a + b)[0] == a[0];
    }
  }

  lemma {:induction false} WrittenArgsConcat(l: bool, a: seq<Arg>, b: seq<Arg>)
    ensures WrittenArgs(l, a + b) == WrittenArgs(l, a) + WrittenArgs(l, b)
    decreases a
  {
    if a == [] {
      assert a + b == b;
    } else {
      WrittenArgsConcat(l, a[1..], b);
      assert (a + b)[1..] == a[1..] + b && (a + b)[0] == a[0];
    }
  }

  lemma {:induction false} WrittenScriptConcat(l: bool, a: Script, b: Script)
    ensures WrittenScript(l, a + b) == WrittenScript(l, a) + WrittenScript(l, b)
    decreases a
  {
    if a == [] {
      assert a + b == b;
    } else {
      WrittenScriptConcat(l, a[1..], b);
      assert (a + b)[1..] == a[1..] + b && (a + b)[0] == a[0];
    }
  }

  // ---------------------------------------------------------------- parsed scripts

  /** No locked variable anywhere. */
  ghost predicate Parsed(t: Term) {
    match t
    case Unexpanded(_) => false
    case Xfm(mods, body) => (forall m :: m in mods ==> ParsedArgs(m.args)) && ParsedArgs(body)
    case Call(_, params) => forall a :: a in params ==> ParsedScript(a.value)
    case If(cond, yes, no) => Parsed(cond) && ParsedArgs(yes.args) && ParsedArgs(no.args)
    case _ => true
  }

  ghost predicate ParsedTerms(ts: seq<Term>) {
    forall t :: t in ts ==> Parsed(t)
  }

  ghost predicate ParsedArgs(b: seq<Arg>) {
    forall a :: a in b ==> ParsedTerms(a.terms)
  }

  ghost predicate ParsedScript(s: seq<Cmd>) {
    forall c :: c in s ==> ParsedArgs(c.args)
  }

  lemma {:induction false} ParsedIsUnlocked(t: Term)
    requires Parsed(t)
    ensures Written(false, t) == t
  {
    match t
    case Xfm(mods, body) =>
      ParsedModsUnlocked(mods);
      ParsedArgsUnlocked(body);
    case _ =>
  }

  lemma {:induction false} ParsedTermsUnlocked(ts: seq<Term>)
    requires ParsedTerms(ts)
    ensures WrittenTerms(false, ts) == ts
  {
    if ts != [] {
      ParsedIsUnlocked(ts[0]);
      ParsedTermsUnlocked(ts[1..]);
    }
  }

  lemma {:induction false} ParsedArgsUnlocked(b: seq<Arg>)
    requires ParsedArgs(b)
    ensures WrittenArgs(false, b) == b
  {
    if b != [] {
      ParsedTermsUnlocked(b[0].terms);
      ParsedArgsUnlocked(b[1..]);
    }
  }

  lemma {:induction false} ParsedModsUnlocked(ms: seq<Modifier>)
    requires forall m :: m in ms ==> ParsedArgs(m.args)
    ensures WrittenMods(false, ms) == ms
  {
    if ms != [] {
      ParsedArgsUnlocked(ms[0].args);
      ParsedModsUnlocked(ms[1..]);
    }
  }
}
