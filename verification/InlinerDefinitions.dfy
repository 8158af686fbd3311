/** Which text the definition of a variable stands for. */
module InlinerDefinitions {
  import opened Words
  import opened InlinerSyntax
  import opened Inliner

  ghost function Shown(parts: seq<Part>, quote: bool): seq<string> {
    seq(|parts|, i requires 0 <= i < |parts| => if quote then parts[i].quoted else parts[i].name)
  }

  lemma {:induction false} SpacedLast(acc: string, parts: seq<Part>, p: Part, quote: bool)
    ensures var t := Spaced(acc, parts, quote);
      Spaced(acc, parts + [p], quote) == (if t == "" then t else t + " ") + (if quote then p.quoted else p.name)
    decreases |parts|
  {
    if parts == [] {
      assert parts + [p] == [p] && [p][1..] == [];
      assert Spaced((if acc == "" then acc else acc + " ") + (if quote then p.quoted else p.name), [], quote)
        == (if acc == "" then acc else acc + " ") + (if quote then p.quoted else p.name);
    } else {
      assert (parts + [p])[0] == parts[0] && (parts + [p])[1..] == parts[1..] + [p];
      SpacedLast((if acc == "" then acc else acc + " ") + (if quote then parts[0].quoted else parts[0].name), parts[1..], p, quote);
    }
  }

  /** Values whose first is not empty are joined with exactly one space between neighbours. */
  lemma {:induction false} SpacedJoins(parts: seq<Part>, quote: bool)
    requires parts != [] && Shown(parts, quote)[0] != ""
    ensures Joins(Spaced("", parts, quote), Shown(parts, quote))
    decreases |parts|
  {
    var n := |parts| - 1;
    var init, last := parts[..n], parts[n];
    assert parts == init + [last];
    SpacedLast("", init, last, quote);
    if n == 0 {
      assert init == [] && Spaced("", init, quote) == "";
      OneWord(Shown(parts, quote)[0], Shown(parts, quote));
    } else {
      assert Shown(init, quote)[0] == Shown(parts, quote)[0];
      SpacedJoins(init, quote);
      NotEmpty(Spaced("", init, quote), Shown(init, quote));
      JoinsMore(Spaced("", init, quote), Shown(init, quote), Shown(parts, quote)[n]);
      assert Shown(parts, quote) == Shown(init, quote) + [Shown(parts, quote)[n]];
    }
  }

  /** Empty values in front leave no trace. */
  lemma EmptyFirst(parts: seq<Part>, quote: bool)
    requires parts != [] && Shown(parts, quote)[0] == ""
    ensures Spaced("", parts, quote) == Spaced("", parts[1..], quote)
  {
    assert "" + "" == "";
  }

  ghost function Trimmed(words: seq<string>): seq<string> {
    if words == [] || words[0] != "" then words else Trimmed(words[1..])
  }

  /** The text of any list of values. */
  ghost predicate Text(text: string, words: seq<string>) {
    if Trimmed(words) == [] then text == "" else Joins(text, Trimmed(words))
  }

  lemma {:induction false} SpacedText(parts: seq<Part>, quote: bool)
    ensures Text(Spaced("", parts, quote), Shown(parts, quote))
    decreases |parts|
  {
    if parts != [] {
      if Shown(parts, quote)[0] == "" {
        EmptyFirst(parts, quote);
        SpacedText(parts[1..], quote);
        assert Shown(parts, quote)[1..] == Shown(parts[1..], quote);
      } else {
        SpacedJoins(parts, quote);
      }
    }
  }

  lemma {:induction false} NamesExact(parts: seq<Part>)
    ensures Names(parts) == Shown(parts, false)
  {
    if parts != [] {
      NamesExact(parts[1..]);
      assert Shown(parts, false) == [parts[0].name] + Shown(parts[1..], false);
    }
  }

  ghost predicate AllMacros(parts: seq<Part>) {
    forall i :: 0 <= i < |parts| ==> parts[i].isMacro
  }

  ghost predicate AllPlain(parts: seq<Part>) {
    forall i :: 0 <= i < |parts| ==> !parts[i].isMacro
  }

  /** What is parsed for a definition: the text of a command; plain values joined by single spaces; mixed
      values so joined in their quoted forms; values that are all macros are not parsed, their names
      are one constant. */
  lemma DefinitionExact(cfg: Config, v: LegacyValue) returns (text: string)
    ensures match v {
      case Conventional(t) => text == t && DefinitionOf(cfg, v) == cfg.parse(text)
      case Values(parts) =>
        var quote := !AllPlain(parts);
        if parts == [] then DefinitionOf(cfg, v) == []
        else if AllMacros(parts) then DefinitionOf(cfg, v) == Constant(cfg.lateGlobs(Shown(parts, false)))
        else DefinitionOf(cfg, v) == cfg.parse(text) && Text(text, Shown(parts, quote))
    }
  {
    match v
    case Conventional(t) => text := t;
    case Values(parts) =>
      text := Spaced("", parts, !AllPlain(parts));
      NamesExact(parts);
      assert HasMacro(parts) <==> !AllPlain(parts);
      assert HasPlain(parts) <==> !AllMacros(parts);
      if parts != [] {
        assert AllMacros(parts) ==> parts[0].isMacro;
        assert AllPlain(parts) ==> !parts[0].isMacro;
        SpacedText(parts, !AllPlain(parts));
      }
  }
}
