/** Splitting a shell command line into commands and arguments. */
module Splitter {
  import opened Wrappers

  const SERVICE: string := " \\'\"&"

  /** The open quote, if any, and whether the previous character was an escaping backslash. */
  datatype Mode = Mode(quote: Option<char>, inEscape: bool)

  const OUT := Mode(None, false)

  predicate IsDelimiter(d: string) { d == " " || d == "&&" }

  /** What one character that starts no delimiter adds to the token. */
  function Output(c: char, cleanup: bool, mode: Mode): string {
    if mode.inEscape then
      if (mode.quote.None? && c !in SERVICE) || (mode.quote.Some? && c != '\\' && c != mode.quote.value) then ['\\', c] else [c]
    else if c == '\\' || mode.quote == Some(c) || (mode.quote.None? && (c == '"' || c == '\'')) then
      if cleanup then "" else [c]
    else [c]
  }

  function NextMode(c: char, mode: Mode): Mode {
    if mode.inEscape then mode.(inEscape := false)
    else if c == '\\' then mode.(inEscape := true)
    else if mode.quote == Some(c) then OUT
    else if mode.quote.None? && (c == '"' || c == '\'') then Mode(Some(c), false)
    else mode
  }

  function Flush(token: string): seq<string> { if token == "" then [] else [token] }

  /** The tokens that the rest `s` of the input adds, `token` being the one under way. */
  function Tokens(s: string, d: string, cleanup: bool, token: string, mode: Mode): Option<seq<string>>
    requires IsDelimiter(d)
    decreases |s|
  {
    if s == "" then
      if mode.quote.Some? then None else Some(Flush(token))
    else if mode == OUT && d <= s then
      Prefixed(Flush(token), Tokens(s[|d|..], d, cleanup, "", mode))
    else
      Tokens(s[1..], d, cleanup, token + Output(s[0], cleanup, mode), NextMode(s[0], mode))
  }

  function Split(s: string, d: string, cleanup: bool): Option<seq<string>>
    requires IsDelimiter(d)
  {
    Tokens(s, d, cleanup, "", OUT)
  }

  function Prefixed(tokens: seq<string>, r: Option<seq<string>>): Option<seq<string>> {
    match r
    case None => None
    case Some(rest) => Some(tokens + rest)
  }

  // ---------------------------------------------------------------- the program

  method SplitString(str: string, delimiter: string, cleanup: bool) returns (r: Option<seq<string>>)
    requires IsDelimiter(delimiter)
    ensures r == Split(str, delimiter, cleanup)
  {
    var tokens: seq<string>, token := [], "";
    var quote, inQuotes, inEscape := ' ', false, false;
    var i := 0;
    assert str[0..] == str;
    PrefixedNothing(Split(str, delimiter, cleanup));
    while i < |str|
      invariant 0 <= i <= |str|
      invariant Prefixed(tokens, Tokens(str[i..], delimiter, cleanup, token, ModeOf(quote, inQuotes, inEscape)))
        == Split(str, delimiter, cleanup)
    {
      var rest := str[i..];
      assert rest[0] == str[i] && rest[1..] == str[i + 1..];
      ghost var mode := ModeOf(quote, inQuotes, inEscape);
      if delimiter <= rest && !inEscape && !inQuotes {
        assert rest[|delimiter|..] == str[i + |delimiter|..];
        PrefixedTwice(tokens, Flush(token), Tokens(rest[|delimiter|..], delimiter, cleanup, "", mode));
        assert tokens + [] == tokens;
        if token != "" {
          tokens := tokens + [token];
          token := "";
        }
        i := i + |delimiter|;
      } else {
        i := i + 1;
        token, quote, inQuotes, inEscape := Put(rest[0], cleanup, token, quote, inQuotes, inEscape);
      }
    }
    assert str[i..] == "" && tokens + [] == tokens;
    if inQuotes {
      return None;
    }
    if token != "" {
      tokens := tokens + [token];
    }
    return Some(tokens);
  }

  /** Handles one character that starts no delimiter. */
  method Put(c: char, cleanup: bool, token: string, quote: char, inQuotes: bool, inEscape: bool)
    returns (token': string, quote': char, inQuotes': bool, inEscape': bool)
    ensures token' == token + Output(c, cleanup, ModeOf(quote, inQuotes, inEscape))
    ensures ModeOf(quote', inQuotes', inEscape') == NextMode(c, ModeOf(quote, inQuotes, inEscape))
  {
    token', quote', inQuotes', inEscape' := token, quote, inQuotes, inEscape;
    if !inEscape && c == '\\' {
      inEscape' := true;
      if !cleanup { token' := token' + [c]; }
      return;
    }
    if inEscape && !inQuotes && c !in SERVICE {
      token' := token' + ['\\'];
    }
    if inEscape && inQuotes && c != '\\' && c != quote {
      token' := token' + ['\\'];
    }
    if inEscape {
      token' := token' + [c];
      inEscape' := false;
      return;
    }
    if inQuotes && c == quote {
      if !cleanup { token' := token' + [c]; }
      inQuotes', quote' := false, ' ';
      return;
    }
    if !inQuotes && (c == '"' || c == '\'') {
      if !cleanup { token' := token' + [c]; }
      inQuotes', quote' := true, c;
      return;
    }
    token' := token' + [c];
  }

  lemma PrefixedNothing(r: Option<seq<string>>)
    ensures Prefixed([], r) == r
  {
    if r.Some? { assert [] + r.value == r.value; }
  }

  lemma PrefixedTwice(a: seq<string>, b: seq<string>, r: Option<seq<string>>)
    ensures Prefixed(a, Prefixed(b, r)) == Prefixed(a + b, r)
  {
    if r.Some? { assert a + (b + r.value) == (a + b) + r.value; }
  }

  function ModeOf(quote: char, inQuotes: bool, inEscape: bool): Mode {
    Mode(if inQuotes then Some(quote) else None, inEscape)
  }

  // ---------------------------------------------------------------- the three entry points

  /** Arguments of every command; an error in any is an error of the whole. */
  function EachArgs(pieces: seq<string>): Option<seq<seq<string>>> {
    if pieces == [] then Some([])
    else
      var n := |pieces| - 1;
      match (EachArgs(pieces[..n]), Split(pieces[n], " ", true))
      case (Some(done), Some(args)) => Some(done + [args])
      case _ => None
  }

  function CommandsAndArgs(cmd: string): Option<seq<seq<string>>> {
    match Split(cmd, "&&", false)
    case None => None
    case Some(pieces) => EachArgs(pieces)
  }

  function Joined(args: seq<string>): string {
    if args == [] then "" else if |args| == 1 then args[0] else args[0] + " " + Joined(args[1..])
  }

  function EachJoined(pieces: seq<string>): Option<seq<string>> {
    if pieces == [] then Some([])
    else
      var n := |pieces| - 1;
      match (EachJoined(pieces[..n]), Split(pieces[n], " ", false))
      case (Some(done), Some(args)) => Some(done + [Joined(args)])
      case _ => None
  }

  function Commands(cmd: string): Option<seq<string>> {
    match Split(cmd, "&&", false)
    case None => None
    case Some(pieces) => EachJoined(pieces)
  }

  lemma {:induction false} ErrorStays(pieces: seq<string>, k: nat)
    requires k <= |pieces|
    ensures EachArgs(pieces[..k]).None? ==> EachArgs(pieces).None?
    ensures EachJoined(pieces[..k]).None? ==> EachJoined(pieces).None?
  {
    if k < |pieces| {
      var n := |pieces| - 1;
      assert pieces[..n][..k] == pieces[..k];
      ErrorStays(pieces[..n], k);
    } else {
      assert pieces[..k] == pieces;
    }
  }

  method SplitCommandsAndArgs(cmd: string) returns (r: Option<seq<seq<string>>>)
    ensures r == CommandsAndArgs(cmd)
  {
    var split := SplitString(cmd, "&&", false);
    if split.None? { return None; }
    var pieces, res := split.value, [];
    for i := 0 to |pieces|
      invariant EachArgs(pieces[..i]) == Some(res)
    {
      assert pieces[..i + 1][..i] == pieces[..i];
      ErrorStays(pieces, i + 1);
      var args := SplitString(pieces[i], " ", true);
      if args.None? { return None; }
      res := res + [args.value];
    }
    assert pieces[..|pieces|] == pieces;
    return Some(res);
  }

  method Join(args: seq<string>) returns (r: string)
    ensures r == Joined(args)
  {
    r := "";
    for i := 0 to |args|
      invariant r + Joined(args[i..]) == Joined(args)
    {
      ghost var rest := args[i..];
      assert rest[0] == args[i] && rest[1..] == args[i + 1..];
      assert r + (args[i] + " " + Joined(rest[1..])) == (r + args[i] + " ") + Joined(rest[1..]);
      r := r + args[i];
      if i + 1 != |args| {
        r := r + " ";
      }
    }
  }

  method SplitCommands(cmd: string) returns (r: Option<seq<string>>)
    ensures r == Commands(cmd)
  {
    var split := SplitString(cmd, "&&", false);
    if split.None? { return None; }
    var pieces, res := split.value, [];
    for i := 0 to |pieces|
      invariant EachJoined(pieces[..i]) == Some(res)
    {
      assert pieces[..i + 1][..i] == pieces[..i];
      ErrorStays(pieces, i + 1);
      var args := SplitString(pieces[i], " ", false);
      if args.None? { return None; }
      var joined := Join(args.value);
      res := res + [joined];
    }
    assert pieces[..|pieces|] == pieces;
    return Some(res);
  }

  method SplitArgs(cmd: string) returns (r: Option<seq<string>>)
    ensures r == Split(cmd, " ", true)
  {
    r := SplitString(cmd, " ", true);
  }
}
