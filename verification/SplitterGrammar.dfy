/** What a shell line means, said without the splitter: every text is a run of plain characters,
    escaped characters and quoted strings, and the tokens are what these stand for. */
module SplitterGrammar {
  import opened Wrappers
  import opened Words
  import opened Splitter

  /** A character inside quotes. */
  datatype Letter = Bare(c: char) | Slashed(c: char)

  datatype Atom = Plain(c: char) | Escaped(c: char) | Quoted(q: char, body: seq<Letter>)

  /** How a text ends: after its last atom, with a lone backslash, or inside a quote. */
  datatype End = Closed | Slash | Open(q: char, body: seq<Letter>, slash: bool)

  // ---------------------------------------------------------------- how it is written

  ghost function WrittenLetter(l: Letter): string {
    match l
    case Bare(c) => [c]
    case Slashed(c) => ['\\', c]
  }

  ghost function WrittenBody(ls: seq<Letter>): string {
    if ls == [] then "" else WrittenLetter(ls[0]) + WrittenBody(ls[1..])
  }

  ghost function WrittenAtom(a: Atom): string {
    match a
    case Plain(c) => [c]
    case Escaped(c) => ['\\', c]
    case Quoted(q, body) => [q] + WrittenBody(body) + [q]
  }

  ghost function WrittenEnd(end: End): string {
    match end
    case Closed => ""
    case Slash => "\\"
    case Open(q, body, slash) => [q] + WrittenBody(body) + if slash then "\\" else ""
  }

  ghost function Written(atoms: seq<Atom>, end: End): string {
    if atoms == [] then WrittenEnd(end) else WrittenAtom(atoms[0]) + Written(atoms[1..], end)
  }

  ghost predicate IsQuote(c: char) { c == '"' || c == '\'' }

  ghost predicate LetterOk(l: Letter, q: char) { l.Bare? ==> l.c != q && l.c != '\\' }

  ghost predicate BodyOk(ls: seq<Letter>, q: char) {
    IsQuote(q) && forall i :: 0 <= i < |ls| ==> LetterOk(ls[i], q)
  }

  ghost predicate AtomOk(a: Atom) {
    match a
    case Plain(c) => c != '\\' && !IsQuote(c)
    case Escaped(_) => true
    case Quoted(q, body) => BodyOk(body, q)
  }

  ghost predicate Readable(atoms: seq<Atom>, end: End) {
    (forall i :: 0 <= i < |atoms| ==> AtomOk(atoms[i])) && (end.Open? ==> BodyOk(end.body, end.q))
  }

  // ---------------------------------------------------------------- what it stands for

  ghost function MarkUp(text: string, cleanup: bool): string { if cleanup then "" else text }

  /** In quotes a backslash hides a backslash and the quote; before anything else it is an ordinary character. */
  ghost function LetterValue(l: Letter, q: char, cleanup: bool): string {
    match l
    case Bare(c) => [c]
    case Slashed(c) => MarkUp("\\", cleanup) + if c == '\\' || c == q then [c] else ['\\', c]
  }

  ghost function BodyValue(ls: seq<Letter>, q: char, cleanup: bool): string {
    if ls == [] then "" else LetterValue(ls[0], q, cleanup) + BodyValue(ls[1..], q, cleanup)
  }

  /** Outside quotes it hides a space, a backslash, either quote and an ampersand. */
  ghost function AtomValue(a: Atom, cleanup: bool): string {
    match a
    case Plain(c) => [c]
    case Escaped(c) => MarkUp("\\", cleanup) + if c == ' ' || c == '\\' || IsQuote(c) || c == '&' then [c] else ['\\', c]
    case Quoted(q, body) => MarkUp([q], cleanup) + BodyValue(body, q, cleanup) + MarkUp([q], cleanup)
  }

  ghost function Value(atoms: seq<Atom>, end: End, cleanup: bool): string {
    if atoms == [] then MarkUp(if end == Slash then "\\" else "", cleanup)
    else AtomValue(atoms[0], cleanup) + Value(atoms[1..], end, cleanup)
  }

  ghost predicate Starts(atoms: seq<Atom>, d: string) {
    if d == " " then atoms != [] && atoms[0] == Plain(' ')
    else |atoms| > 1 && atoms[0] == Plain('&') && atoms[1] == Plain('&')
  }

  /** The tokens: atoms up to an unquoted, unescaped delimiter; one that stands for nothing is dropped. */
  ghost function Meaning(atoms: seq<Atom>, end: End, d: string, cleanup: bool, token: string): seq<string> {
    if atoms == [] then NonEmpty(token + Value([], end, cleanup))
    else if Starts(atoms, d) then NonEmpty(token) + Meaning(atoms[if d == " " then 1 else 2..], end, d, cleanup, "")
    else Meaning(atoms[1..], end, d, cleanup, token + AtomValue(atoms[0], cleanup))
  }

  ghost function NonEmpty(token: string): seq<string> { if |token| > 0 then [token] else [] }

  // ---------------------------------------------------------------- the splitter reads it

  lemma Step(c: char, rest: string, d: string, cleanup: bool, token: string, mode: Mode)
    requires IsDelimiter(d) && (mode != OUT || c == '\\' || IsQuote(c) || !(d <= [c] + rest))
    ensures Tokens([c] + rest, d, cleanup, token, mode) == Tokens(rest, d, cleanup, token + Output(c, cleanup, mode), NextMode(c, mode))
  {
    assert ([c] + rest)[0] == c && ([c] + rest)[1..] == rest;
    assert d[0] == ' ' || d[0] == '&';
    assert d <= [c] + rest ==> d[0] == c;
  }

  /** A quote character opens a quoted string and closes the one it opened. */
  lemma QuoteReads(q: char, rest: string, d: string, cleanup: bool, token: string, opens: bool)
    requires IsDelimiter(d) && IsQuote(q)
    ensures var (outside, inside) := (OUT, Mode(Some(q), false));
      Tokens([q] + rest, d, cleanup, token, if opens then outside else inside)
      == Tokens(rest, d, cleanup, token + MarkUp([q], cleanup), if opens then inside else outside)
  {
    Step(q, rest, d, cleanup, token, if opens then OUT else Mode(Some(q), false));
  }

  lemma LetterReads(l: Letter, q: char, rest: string, d: string, cleanup: bool, token: string)
    requires IsDelimiter(d) && IsQuote(q) && LetterOk(l, q)
    ensures Tokens(WrittenLetter(l) + rest, d, cleanup, token, Mode(Some(q), false))
      == Tokens(rest, d, cleanup, token + LetterValue(l, q, cleanup), Mode(Some(q), false))
  {
    var inside := Mode(Some(q), false);
    if l.Bare? {
      Step(l.c, rest, d, cleanup, token, inside);
    } else {
      assert WrittenLetter(l) + rest == ['\\'] + ([l.c] + rest);
      Step('\\', [l.c] + rest, d, cleanup, token, inside);
      var slash := MarkUp("\\", cleanup);
      Step(l.c, rest, d, cleanup, token + slash, inside.(inEscape := true));
      var out := Output(l.c, cleanup, inside.(inEscape := true));
      assert (token + slash) + out == token + (slash + out);
    }
  }

  lemma {:induction false} BodyReads(ls: seq<Letter>, q: char, rest: string, d: string, cleanup: bool, token: string)
    requires IsDelimiter(d) && BodyOk(ls, q)
    ensures Tokens(WrittenBody(ls) + rest, d, cleanup, token, Mode(Some(q), false))
      == Tokens(rest, d, cleanup, token + BodyValue(ls, q, cleanup), Mode(Some(q), false))
    decreases |ls|
  {
    if ls == [] {
      assert "" + rest == rest && token + "" == token;
    } else {
      BodyUnfolds(ls, q, rest, cleanup, token);
      LetterReads(ls[0], q, WrittenBody(ls[1..]) + rest, d, cleanup, token);
      BodyReads(ls[1..], q, rest, d, cleanup, token + LetterValue(ls[0], q, cleanup));
    }
  }

  lemma BodyUnfolds(ls: seq<Letter>, q: char, rest: string, cleanup: bool, token: string)
    requires ls != []
    ensures WrittenBody(ls) + rest == WrittenLetter(ls[0]) + (WrittenBody(ls[1..]) + rest)
    ensures token + BodyValue(ls, q, cleanup) == token + LetterValue(ls[0], q, cleanup) + BodyValue(ls[1..], q, cleanup)
  {}

  lemma EscapedReads(c: char, rest: string, d: string, cleanup: bool, token: string)
    requires IsDelimiter(d)
    ensures Tokens(['\\', c] + rest, d, cleanup, token, OUT) == Tokens(rest, d, cleanup, token + AtomValue(Escaped(c), cleanup), OUT)
  {
    assert ['\\', c] + rest == ['\\'] + ([c] + rest);
    var slash := MarkUp("\\", cleanup);
    Step('\\', [c] + rest, d, cleanup, token, OUT);
    Step(c, rest, d, cleanup, token + slash, Mode(None, true));
    var out := Output(c, cleanup, Mode(None, true));
    ServiceExact(c);
    assert (token + slash) + out == token + (slash + out);
  }

  lemma ServiceExact(c: char)
    ensures c in SERVICE <==> c == ' ' || c == '\\' || IsQuote(c) || c == '&'
  {
    assert SERVICE[0] == ' ' && SERVICE[1] == '\\' && SERVICE[2] == '\'' && SERVICE[3] == '"' && SERVICE[4] == '&';
  }

  lemma QuotedReads(q: char, body: seq<Letter>, rest: string, d: string, cleanup: bool, token: string)
    requires IsDelimiter(d) && BodyOk(body, q)
    ensures Tokens([q] + WrittenBody(body) + [q] + rest, d, cleanup, token, OUT)
      == Tokens(rest, d, cleanup, token + AtomValue(Quoted(q, body), cleanup), OUT)
  {
    var m, v := MarkUp([q], cleanup), BodyValue(body, q, cleanup);
    var more := WrittenBody(body) + ([q] + rest);
    assert [q] + WrittenBody(body) + [q] + rest == [q] + more by { Regroup([q], WrittenBody(body), [q], rest); }
    QuoteReads(q, more, d, cleanup, token, true);
    BodyReads(body, q, [q] + rest, d, cleanup, token + m);
    QuoteReads(q, rest, d, cleanup, token + m + v, false);
    Regroup(token, m, v, m);
  }

  lemma Regroup(a: string, b: string, c: string, d: string)
    ensures a + b + c + d == a + (b + c + d) == a + (b + (c + d))
  {
    assert b + c + d == b + (c + d);
  }

  lemma AtomReads(a: Atom, rest: string, d: string, cleanup: bool, token: string)
    requires IsDelimiter(d) && AtomOk(a) && (a.Plain? ==> !(d <= [a.c] + rest))
    ensures Tokens(WrittenAtom(a) + rest, d, cleanup, token, OUT) == Tokens(rest, d, cleanup, token + AtomValue(a, cleanup), OUT)
  {
    match a
    case Plain(c) => Step(c, rest, d, cleanup, token, OUT);
    case Escaped(c) => EscapedReads(c, rest, d, cleanup, token);
    case Quoted(q, body) => QuotedReads(q, body, rest, d, cleanup, token);
  }

  lemma EndReads(end: End, d: string, cleanup: bool, token: string)
    requires IsDelimiter(d) && Readable([], end)
    ensures Tokens(WrittenEnd(end), d, cleanup, token, OUT)
      == if end.Open? then None else Some(NonEmpty(token + Value([], end, cleanup)))
  {
    match end
    case Closed => assert token + "" == token;
    case Slash => Step('\\', "", d, cleanup, token, OUT);
      assert ['\\'] + "" == "\\";
    case Open(q, body, slash) =>
      var tail := if slash then "\\" else "";
      assert WrittenEnd(end) == [q] + (WrittenBody(body) + tail);
      QuoteReads(q, WrittenBody(body) + tail, d, cleanup, token, true);
      BodyReads(body, q, tail, d, cleanup, token + MarkUp([q], cleanup));
      if slash {
        assert tail == ['\\'] + "";
        Step('\\', "", d, cleanup, token + MarkUp([q], cleanup) + BodyValue(body, q, cleanup), Mode(Some(q), false));
      }
  }

  lemma FirstWritten(atoms: seq<Atom>, end: End, c: char)
    requires Readable(atoms, end) && c != '\\' && !IsQuote(c)
    ensures [c] <= Written(atoms, end) <==> atoms != [] && atoms[0] == Plain(c)
  {
    var w := Written(atoms, end);
    assert [c] <= w <==> w != "" && w[0] == c;
    if atoms != [] {
      assert AtomOk(atoms[0]);
      assert w[0] == WrittenAtom(atoms[0])[0];
    } else if end.Open? {
      assert w[0] == end.q;
    }
  }

  lemma TwoPrefix(c: char, rest: string)
    ensures [c, c] <= [c] + rest <==> [c] <= rest
  {
    if [c, c] <= [c] + rest {
      assert ([c] + rest)[1] == c;
    }
  }

  lemma DelimiterAt(atoms: seq<Atom>, end: End, d: string)
    requires IsDelimiter(d) && Readable(atoms, end)
    ensures d <= Written(atoms, end) <==> Starts(atoms, d)
  {
    var c := d[0];
    FirstWritten(atoms, end, c);
    var w := Written(atoms, end);
    assert d <= w ==> [c] <= w;
    if atoms != [] && atoms[0] == Plain(c) {
      FirstWritten(atoms[1..], end, c);
      assert w == [c] + Written(atoms[1..], end);
      TwoPrefix(c, Written(atoms[1..], end));
      assert d == "&&" ==> d == [c, c];
    }
  }

  /** What splitting yields is what the atoms stand for; it fails exactly when the text ends inside a quote. */
  lemma {:induction false} TokensMean(atoms: seq<Atom>, end: End, d: string, cleanup: bool, token: string)
    requires IsDelimiter(d) && Readable(atoms, end)
    ensures Tokens(Written(atoms, end), d, cleanup, token, OUT)
      == if end.Open? then None else Some(Meaning(atoms, end, d, cleanup, token))
    decreases |atoms|
  {
    DelimiterAt(atoms, end, d);
    if atoms == [] {
      EndReads(end, d, cleanup, token);
    } else if Starts(atoms, d) {
      var n := if d == " " then 1 else 2;
      assert Written(atoms, end)[|d|..] == Written(atoms[n..], end) by { AfterDelimiter(atoms, end, d); }
      TokensMean(atoms[n..], end, d, cleanup, "");
    } else {
      AtomReads(atoms[0], Written(atoms[1..], end), d, cleanup, token);
      TokensMean(atoms[1..], end, d, cleanup, token + AtomValue(atoms[0], cleanup));
    }
  }

  lemma AfterDelimiter(atoms: seq<Atom>, end: End, d: string)
    requires IsDelimiter(d) && Starts(atoms, d)
    ensures Written(atoms, end) == d + Written(atoms[if d == " " then 1 else 2..], end)
  {
    if d == " " {
      PlainFirst(atoms, end, ' ', atoms[1..]);
    } else {
      PlainFirst(atoms, end, '&', atoms[1..]);
      PlainFirst(atoms[1..], end, '&', atoms[2..]);
      Twice('&', Written(atoms[2..], end));
    }
  }

  lemma PlainFirst(atoms: seq<Atom>, end: End, c: char, rest: seq<Atom>)
    requires atoms == [Plain(c)] + rest
    ensures Written(atoms, end) == [c] + Written(rest, end)
  {
    assert atoms[1..] == rest;
  }

  lemma Twice(c: char, rest: string)
    ensures [c] + ([c] + rest) == [c, c] + rest
  {}

  // ---------------------------------------------------------------- every text is one

  lemma {:induction false} BodyParses(s: string, q: char) returns (body: seq<Letter>, rest: Option<string>, slash: bool)
    requires IsQuote(q)
    ensures BodyOk(body, q)
    ensures match rest
      case Some(more) => |more| < |s| && s == WrittenBody(body) + [q] + more
      case None => s == WrittenBody(body) + if slash then "\\" else ""
    decreases |s|
  {
    body, rest, slash := [], None, false;
    if s == "" {
    } else if s[0] == q {
      rest := Some(s[1..]);
    } else if s == "\\" {
      slash := true;
    } else {
      var l := if s[0] == '\\' then Slashed(s[1]) else Bare(s[0]);
      var t := s[|WrittenLetter(l)|..];
      assert s == WrittenLetter(l) + t;
      var ls;
      ls, rest, slash := BodyParses(t, q);
      body := [l] + ls;
      assert body[1..] == ls;
    }
  }

  lemma {:induction false} EveryTextParses(s: string) returns (atoms: seq<Atom>, end: End)
    ensures Readable(atoms, end) && s == Written(atoms, end)
    decreases |s|
  {
    atoms, end := [], Closed;
    var a, t := Plain(' '), "";
    if s == "" {
      return;
    } else if s == "\\" {
      end := Slash;
      return;
    } else if IsQuote(s[0]) {
      var body, rest, slash := BodyParses(s[1..], s[0]);
      assert s == [s[0]] + s[1..];
      if rest.None? {
        end := Open(s[0], body, slash);
        return;
      }
      a, t := Quoted(s[0], body), rest.value;
    } else if s[0] == '\\' {
      a, t := Escaped(s[1]), s[2..];
    } else {
      a, t := Plain(s[0]), s[1..];
    }
    assert s == WrittenAtom(a) + t;
    var more;
    more, end := EveryTextParses(t);
    atoms := [a] + more;
    assert atoms[1..] == more;
  }

  /** Every text means its atoms. */
  lemma SplitMeans(s: string, d: string, cleanup: bool) returns (atoms: seq<Atom>, end: End)
    requires IsDelimiter(d)
    ensures Readable(atoms, end) && s == Written(atoms, end)
    ensures Split(s, d, cleanup) == if end.Open? then None else Some(Meaning(atoms, end, d, cleanup, ""))
  {
    atoms, end := EveryTextParses(s);
    TokensMean(atoms, end, d, cleanup, "");
  }

  // ---------------------------------------------------------------- two plain cases

  ghost function Letters(w: string): seq<Letter> { seq(|w|, i requires 0 <= i < |w| => Bare(w[i])) }

  lemma {:induction false} LettersBare(w: string, q: char, cleanup: bool)
    ensures WrittenBody(Letters(w)) == w == BodyValue(Letters(w), q, cleanup)
    decreases |w|
  {
    if w != "" {
      assert Letters(w)[1..] == Letters(w[1..]);
      assert w == [w[0]] + w[1..];
      LettersBare(w[1..], q, cleanup);
    }
  }

  /** A quoted string of ordinary characters is one argument: the string itself. */
  lemma QuotedIsOneArgument(w: string, q: char)
    requires IsQuote(q) && q !in w && '\\' !in w && w != ""
    ensures Split([q] + w + [q], " ", true) == Some([w])
  {
    var atoms := [Quoted(q, Letters(w))];
    LettersBare(w, q, true);
    assert atoms[1..] == [];
    assert [q] + w + [q] == Written(atoms, Closed);
    TokensMean(atoms, Closed, " ", true, "");
    var v := AtomValue(atoms[0], true);
    assert v == w && "" + v == v && v + "" == v;
    assert Meaning([], Closed, " ", true, w) == [w];
  }

  // ---------------------------------------------------------------- commands

  lemma {:induction false} JoinedMore(args: seq<string>, w: string)
    requires args != []
    ensures Joined(args + [w]) == Joined(args) + " " + w
    decreases |args|
  {
    var more := args + [w];
    if |args| == 1 {
      assert more[1..] == [w];
    } else {
      assert more[0] == args[0] && more[1..] == args[1..] + [w];
      JoinedMore(args[1..], w);
    }
  }

  /** Joined arguments have exactly one space between neighbours. */
  lemma {:induction false} JoinedJoins(args: seq<string>)
    requires args != []
    ensures Joins(Joined(args), args)
    decreases |args|
  {
    var n := |args| - 1;
    if n == 0 {
      OneWord(args[0], args);
    } else {
      assert args == args[..n] + [args[n]];
      JoinedJoins(args[..n]);
      JoinedMore(args[..n], args[n]);
      JoinsMore(Joined(args[..n]), args[..n], args[n]);
    }
  }

  /** `text` is the arguments with single spaces between them. */
  ghost predicate IsLine(text: string, args: seq<string>) {
    if args == [] then text == "" else Joins(text, args)
  }

  /** Each piece of a line becomes one command, in order. */
  lemma {:induction false} EachInOrder(pieces: seq<string>)
    ensures EachArgs(pieces).Some? ==>
      var rs := EachArgs(pieces).value;
      |rs| == |pieces| && forall i :: 0 <= i < |pieces| ==> Split(pieces[i], " ", true) == Some(rs[i])
    ensures EachJoined(pieces).Some? ==>
      var rs := EachJoined(pieces).value;
      |rs| == |pieces| && forall i :: 0 <= i < |pieces| ==>
        Split(pieces[i], " ", false).Some? && IsLine(rs[i], Split(pieces[i], " ", false).value)
  {
    if pieces != [] {
      var n := |pieces| - 1;
      EachInOrder(pieces[..n]);
      var args := Split(pieces[n], " ", false);
      if args.Some? && args.value != [] { JoinedJoins(args.value); }
    }
  }

  /** The pieces between unquoted ampersands, in order: their arguments, or their text with single spaces. */
  lemma CommandsInOrder(cmd: string)
    ensures CommandsAndArgs(cmd).Some? ==>
      var (pieces, rs) := (Split(cmd, "&&", false).value, CommandsAndArgs(cmd).value);
      |rs| == |pieces| && forall i :: 0 <= i < |pieces| ==> Split(pieces[i], " ", true) == Some(rs[i])
    ensures Commands(cmd).Some? ==>
      var (pieces, rs) := (Split(cmd, "&&", false).value, Commands(cmd).value);
      |rs| == |pieces| && forall i :: 0 <= i < |pieces| ==>
        Split(pieces[i], " ", false).Some? && IsLine(rs[i], Split(pieces[i], " ", false).value)
  {
    var split := Split(cmd, "&&", false);
    if split.Some? { EachInOrder(split.value); }
  }
}
