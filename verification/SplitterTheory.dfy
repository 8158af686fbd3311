/** Keeping quotes and escapes loses nothing: splitting again, in either mode, agrees with
    splitting the original text. */
module SplitterTheory {
  import opened Wrappers
  import opened Splitter

  // ---------------------------------------------------------------- rendering text, delimiters aside

  ghost function ModeAfter(s: string, mode: Mode): Mode
    decreases |s|
  {
    if s == "" then mode else ModeAfter(s[1..], NextMode(s[0], mode))
  }

  ghost function Rendered(s: string, cleanup: bool, mode: Mode): string
    decreases |s|
  {
    if s == "" then "" else Output(s[0], cleanup, mode) + Rendered(s[1..], cleanup, NextMode(s[0], mode))
  }

  lemma {:induction false} Concat(a: string, b: string, cleanup: bool, mode: Mode)
    ensures ModeAfter(a + b, mode) == ModeAfter(b, ModeAfter(a, mode))
    ensures Rendered(a + b, cleanup, mode) == Rendered(a, cleanup, mode) + Rendered(b, cleanup, ModeAfter(a, mode))
    decreases |a|
  {
    if a == "" {
      assert a + b == b;
    } else {
      assert (a + b)[0] == a[0] && (a + b)[1..] == a[1..] + b;
      Concat(a[1..], b, cleanup, NextMode(a[0], mode));
    }
  }

  lemma One(c: char, cleanup: bool, mode: Mode)
    ensures ModeAfter([c], mode) == NextMode(c, mode) && Rendered([c], cleanup, mode) == Output(c, cleanup, mode)
  {
    assert [c][1..] == "";
    assert Output(c, cleanup, mode) + "" == Output(c, cleanup, mode);
  }

  /** What keep mode writes for a character reads back as that character. */
  lemma OutputReadsBack(c: char, mode: Mode, cleanup: bool)
    ensures var out := Output(c, false, mode);
      ModeAfter(out, mode) == NextMode(c, mode) && Rendered(out, cleanup, mode) == Output(c, cleanup, mode)
  {
    One(c, cleanup, mode);
    if Output(c, false, mode) != [c] {
      assert Output(c, false, mode) == ['\\'] + [c];
      One('\\', cleanup, mode);
      One(c, cleanup, NextMode('\\', mode));
      Concat(['\\'], [c], cleanup, mode);
    }
  }

  lemma {:induction false} ReadsBack(s: string, mode: Mode, cleanup: bool)
    ensures ModeAfter(Rendered(s, false, mode), mode) == ModeAfter(s, mode)
    ensures Rendered(Rendered(s, false, mode), cleanup, mode) == Rendered(s, cleanup, mode)
    decreases |s|
  {
    if s != "" {
      var out, next := Output(s[0], false, mode), NextMode(s[0], mode);
      OutputReadsBack(s[0], mode, cleanup);
      Concat(out, Rendered(s[1..], false, next), cleanup, mode);
      ReadsBack(s[1..], next, cleanup);
    }
  }

  // ---------------------------------------------------------------- raw segments

  /** The pieces of the text between delimiters, not yet rendered; `seg` is the one under way. */
  ghost function Segments(s: string, d: string, seg: string, mode: Mode): (r: seq<string>)
    requires IsDelimiter(d)
    ensures r != []
    decreases |s|
  {
    if s == "" then [seg]
    else if mode == OUT && d <= s then [seg] + Segments(s[|d|..], d, "", OUT)
    else Segments(s[1..], d, seg + [s[0]], NextMode(s[0], mode))
  }

  /** Every segment rendered, the empty ones dropped. */
  ghost function AllRendered(segs: seq<string>, cleanup: bool): seq<string> {
    if segs == [] then [] else Flush(Rendered(segs[0], cleanup, OUT)) + AllRendered(segs[1..], cleanup)
  }

  lemma DelimiterKeepsMode(s: string, d: string)
    requires IsDelimiter(d) && d <= s
    ensures ModeAfter(s, OUT) == ModeAfter(s[|d|..], OUT)
  {
    if d == "&&" { assert s[1..][1..] == s[2..]; }
  }

  /** Splitting is: cut at the delimiters, render each piece, drop the empty ones; it fails exactly
      when a quote stays open. */
  lemma {:induction false} TokensAreSegments(s: string, d: string, cleanup: bool, seg: string, mode: Mode)
    requires IsDelimiter(d) && mode == ModeAfter(seg, OUT)
    ensures Tokens(s, d, cleanup, Rendered(seg, cleanup, OUT), mode) ==
      if ModeAfter(s, mode).quote.Some? then None else Some(AllRendered(Segments(s, d, seg, mode), cleanup))
    decreases |s|
  {
    if s == "" {
      assert [seg][1..] == [];
      assert Flush(Rendered(seg, cleanup, OUT)) + [] == Flush(Rendered(seg, cleanup, OUT));
    } else if mode == OUT && d <= s {
      DelimiterKeepsMode(s, d);
      TokensAreSegments(s[|d|..], d, cleanup, "", OUT);
      var rest := Segments(s[|d|..], d, "", OUT);
      assert ([seg] + rest)[1..] == rest;
    } else {
      var c := s[0];
      Concat(seg, [c], cleanup, OUT);
      One(c, cleanup, mode);
      TokensAreSegments(s[1..], d, cleanup, seg + [c], NextMode(c, mode));
    }
  }

  lemma SplitIsSegments(s: string, d: string, cleanup: bool)
    requires IsDelimiter(d)
    ensures Split(s, d, cleanup) ==
      if ModeAfter(s, OUT).quote.Some? then None else Some(AllRendered(Segments(s, d, "", OUT), cleanup))
  {
    TokensAreSegments(s, d, cleanup, "", OUT);
  }

  // ---------------------------------------------------------------- rendering commutes with cutting

  ghost function Kept(segs: seq<string>): seq<string> {
    seq(|segs|, i requires 0 <= i < |segs| => Rendered(segs[i], false, OUT))
  }

  /** In keep mode a delimiter starts where one started before. */
  lemma DelimiterKept(s: string, d: string)
    requires IsDelimiter(d)
    ensures d <= Rendered(s, false, OUT) <==> d <= s
    ensures d <= s ==> Rendered(s, false, OUT)[|d|..] == Rendered(s[|d|..], false, OUT)
  {
    var r := Rendered(s, false, OUT);
    if s != "" {
      var rest := Rendered(s[1..], false, NextMode(s[0], OUT));
      assert r == [s[0]] + rest;
      assert r[1..] == rest;
      if d == "&&" && s[0] == '&' && |s| > 1 {
        assert rest[0] == s[1];
        assert s[1..][1..] == s[2..] && r[2..] == rest[1..];
      }
    }
  }

  lemma {:induction false} SegmentsKept(s: string, d: string, seg: string, mode: Mode)
    requires IsDelimiter(d) && mode == ModeAfter(seg, OUT)
    ensures Segments(Rendered(s, false, mode), d, Rendered(seg, false, OUT), mode) == Kept(Segments(s, d, seg, mode))
    decreases |s|
  {
    if s == "" {
    } else if mode == OUT && d <= s {
      DelimiterKept(s, d);
      SegmentsKept(s[|d|..], d, "", OUT);
    } else {
      if mode == OUT { DelimiterKept(s, d); }
      var c, next := s[0], NextMode(s[0], mode);
      Concat(seg, [c], false, OUT);
      One(c, false, mode);
      SegmentsKept(s[1..], d, seg + [c], next);
      PushOutput(c, Rendered(s[1..], false, next), d, Rendered(seg, false, OUT), mode);
    }
  }

  lemma PushChar(c: char, t: string, d: string, seg: string, mode: Mode)
    requires IsDelimiter(d) && !(mode == OUT && d <= [c] + t)
    ensures Segments([c] + t, d, seg, mode) == Segments(t, d, seg + [c], NextMode(c, mode))
  {
    assert ([c] + t)[1..] == t;
  }

  /** Cutting runs over what one character is rendered to. */
  lemma PushOutput(c: char, rest: string, d: string, seg: string, mode: Mode)
    requires IsDelimiter(d) && !(mode == OUT && d <= Output(c, false, mode) + rest)
    ensures Segments(Output(c, false, mode) + rest, d, seg, mode) ==
      Segments(rest, d, seg + Output(c, false, mode), NextMode(c, mode))
  {
    var out := Output(c, false, mode);
    if out == [c] {
      PushChar(c, rest, d, seg, mode);
    } else {
      assert SERVICE[0] == ' ' && SERVICE[4] == '&';
      assert out + rest == ['\\'] + ([c] + rest) && (seg + ['\\']) + [c] == seg + out;
      PushChar('\\', [c] + rest, d, seg, mode);
      PushChar(c, rest, d, seg + ['\\'], NextMode('\\', mode));
    }
  }

  // ---------------------------------------------------------------- segments hold no delimiter

  ghost predicate Whole(g: string, d: string)
    requires IsDelimiter(d)
  {
    Segments(g, d, "", OUT) == [g]
  }

  /** The text up to the first delimiter. */
  ghost function First(s: string, d: string, mode: Mode): (g: string)
    ensures g <= s
    decreases |s|
  {
    if s == "" || (mode == OUT && d <= s) then "" else [s[0]] + First(s[1..], d, NextMode(s[0], mode))
  }

  lemma {:induction false} FirstSegment(s: string, d: string, seg: string, mode: Mode)
    requires IsDelimiter(d)
    ensures var g := First(s, d, mode);
      Segments(s, d, seg, mode)[0] == seg + g && Segments(g, d, seg, mode) == [seg + g]
    decreases |s|
  {
    if s == "" || (mode == OUT && d <= s) {
      assert seg + "" == seg;
    } else {
      var c, t, next := s[0], s[1..], NextMode(s[0], mode);
      var g := First(t, d, next);
      FirstSegment(t, d, seg + [c], next);
      assert s == [c] + t && [c] + g <= s;
      assert (seg + [c]) + g == seg + ([c] + g);
      PushChar(c, t, d, seg, mode);
      PushChar(c, g, d, seg, mode);
    }
  }

  lemma FirstWhole(s: string, d: string)
    requires IsDelimiter(d)
    ensures Whole(Segments(s, d, "", OUT)[0], d)
  {
    FirstSegment(s, d, "", OUT);
    assert "" + First(s, d, OUT) == First(s, d, OUT);
  }

  /** Segments of a text: whole, outside quotes and escapes where a delimiter follows. */
  ghost predicate WellCut(segs: seq<string>, d: string, last: Mode)
    requires IsDelimiter(d)
  {
    segs != [] ==>
      && Whole(segs[0], d)
      && ModeAfter(segs[0], OUT) == (if |segs| == 1 then last else OUT)
      && WellCut(segs[1..], d, last)
  }

  lemma {:induction false} LaterWellCut(s: string, d: string, seg: string, mode: Mode)
    requires IsDelimiter(d) && mode == ModeAfter(seg, OUT)
    ensures var r := Segments(s, d, seg, mode);
      && ModeAfter(r[0], OUT) == (if |r| == 1 then ModeAfter(s, mode) else OUT)
      && WellCut(r[1..], d, ModeAfter(s, mode))
    decreases |s|
  {
    if s != "" {
      if mode == OUT && d <= s {
        var rest := Segments(s[|d|..], d, "", OUT);
        assert Segments(s, d, seg, mode)[1..] == rest;
        DelimiterKeepsMode(s, d);
        FirstWhole(s[|d|..], d);
        LaterWellCut(s[|d|..], d, "", OUT);
      } else {
        Concat(seg, [s[0]], false, OUT);
        One(s[0], false, mode);
        LaterWellCut(s[1..], d, seg + [s[0]], NextMode(s[0], mode));
      }
    }
  }

  lemma SegmentsWellCut(s: string, d: string)
    requires IsDelimiter(d)
    ensures WellCut(Segments(s, d, "", OUT), d, ModeAfter(s, OUT))
  {
    FirstWhole(s, d);
    LaterWellCut(s, d, "", OUT);
  }

  // ---------------------------------------------------------------- joining with spaces

  lemma {:induction false} CutAtSpace(a: string, z: string, seg: string, mode: Mode)
    requires Segments(a, " ", seg, mode) == [seg + a] && ModeAfter(a, mode) == OUT
    ensures Segments(a + " " + z, " ", seg, mode) == [seg + a] + Segments(z, " ", "", OUT)
    decreases |a|
  {
    var s := a + " " + z;
    if a == "" {
      assert s == " " + z && s[1..] == z;
    } else {
      assert s[0] == a[0] && s[1..] == a[1..] + " " + z;
      assert !(mode == OUT && " " <= a);
      assert (seg + [a[0]]) + a[1..] == seg + a;
      CutAtSpace(a[1..], z, seg + [a[0]], NextMode(a[0], mode));
    }
  }

  lemma {:induction false} JoinedSegments(ts: seq<string>, last: Mode)
    requires ts != [] && WellCut(ts, " ", last)
    ensures Segments(Joined(ts), " ", "", OUT) == ts && ModeAfter(Joined(ts), OUT) == last
  {
    if |ts| > 1 {
      JoinedSegments(ts[1..], last);
      JoinTwo(ts[0], Joined(ts[1..]));
      assert ts == [ts[0]] + ts[1..];
    }
  }

  lemma JoinTwo(a: string, z: string)
    requires Whole(a, " ") && ModeAfter(a, OUT) == OUT
    ensures Segments(a + " " + z, " ", "", OUT) == [a] + Segments(z, " ", "", OUT)
    ensures ModeAfter(a + " " + z, OUT) == ModeAfter(z, OUT)
  {
    assert "" + a == a;
    CutAtSpace(a, z, "", OUT);
    Concat(a + " ", z, false, OUT);
    Concat(a, " ", false, OUT);
    One(' ', false, OUT);
  }

  // ---------------------------------------------------------------- dropping empty segments

  ghost function Present(segs: seq<string>): seq<string> {
    if segs == [] then [] else Flush(segs[0]) + Present(segs[1..])
  }

  ghost predicate IsKept(text: string) { Rendered(text, false, OUT) == text }

  lemma {:induction false} KeptArePresent(segs: seq<string>)
    requires forall i :: 0 <= i < |segs| ==> IsKept(segs[i])
    ensures AllRendered(segs, false) == Present(segs)
  {
    if segs != [] {
      assert IsKept(segs[0]);
      forall i | 0 <= i < |segs[1..]|
        ensures IsKept(segs[1..][i])
      {
        assert IsKept(segs[i + 1]);
      }
      KeptArePresent(segs[1..]);
    }
  }

  lemma {:induction false} EmptyAddNothing(segs: seq<string>)
    ensures AllRendered(Present(segs), true) == AllRendered(segs, true)
  {
    if segs != [] {
      var rest := Present(segs[1..]);
      EmptyAddNothing(segs[1..]);
      if segs[0] == "" {
        assert [] + rest == rest;
      } else {
        assert ([segs[0]] + rest)[1..] == rest;
      }
    }
  }

  lemma {:induction false} PresentWellCut(segs: seq<string>, last: Mode) returns (end: Mode)
    requires WellCut(segs, " ", last)
    ensures WellCut(Present(segs), " ", end) && (end == OUT || end == last)
  {
    end := OUT;
    if segs != [] {
      end := PresentWellCut(segs[1..], last);
      var rest := Present(segs[1..]);
      if segs[0] == "" {
        assert [] + rest == rest;
      } else {
        assert ([segs[0]] + rest)[1..] == rest;
        if rest == [] {
          end := ModeAfter(segs[0], OUT);
        }
      }
    }
  }

  // ---------------------------------------------------------------- the passes agree

  lemma {:induction false} RenderedPieces(segs: seq<string>, d: string, last: Mode, i: nat)
    requires IsDelimiter(d) && WellCut(segs, d, last) && last.quote.None? && i < |AllRendered(segs, false)|
    ensures var p := AllRendered(segs, false)[i];
      p != "" && IsKept(p) && Whole(p, d) && ModeAfter(p, OUT).quote.None?
  {
    var p := Rendered(segs[0], false, OUT);
    var n := |Flush(p)|;
    if i < n {
      ReadsBack(segs[0], OUT, false);
      SegmentsKept(segs[0], d, "", OUT);
      assert Kept([segs[0]]) == [p];
    } else {
      RenderedPieces(segs[1..], d, last, i - n);
    }
  }

  /** Every piece that keep mode yields is a balanced, non-empty text that it would yield again. */
  lemma KeepIsIdempotent(s: string, d: string, i: nat)
    requires IsDelimiter(d) && Split(s, d, false).Some? && i < |Split(s, d, false).value|
    ensures var p := Split(s, d, false).value[i];
      && Split(p, d, false) == Some([p])
      && IsKept(p) && ModeAfter(p, OUT).quote.None?
  {
    SplitIsSegments(s, d, false);
    SegmentsWellCut(s, d);
    RenderedPieces(Segments(s, d, "", OUT), d, ModeAfter(s, OUT), i);
    var p := Split(s, d, false).value[i];
    SplitIsSegments(p, d, false);
    assert [p][1..] == [] && [p] + [] == [p];
  }

  lemma KeptSegments(c: string)
    requires IsKept(c)
    ensures AllRendered(Segments(c, " ", "", OUT), false) == Present(Segments(c, " ", "", OUT))
  {
    var gs := Segments(c, " ", "", OUT);
    SegmentsKept(c, " ", "", OUT);
    assert gs == Kept(gs);
    forall i | 0 <= i < |gs|
      ensures IsKept(gs[i])
    {
      assert gs[i] == Kept(gs)[i];
    }
    KeptArePresent(gs);
  }

  /** Splitting a kept text into arguments and joining them again changes neither pass. */
  lemma JoinChangesNothing(c: string)
    requires IsKept(c) && ModeAfter(c, OUT).quote.None?
    ensures Split(c, " ", false).Some?
    ensures Split(Joined(Split(c, " ", false).value), " ", true) == Split(c, " ", true)
    ensures Split(c, " ", true).Some?
  {
    var gs := Segments(c, " ", "", OUT);
    SplitIsSegments(c, " ", false);
    SplitIsSegments(c, " ", true);
    KeptSegments(c);
    var ts := Present(gs);
    EmptyAddNothing(gs);
    if ts != [] {
      SegmentsWellCut(c, " ");
      var end := PresentWellCut(gs, ModeAfter(c, OUT));
      JoinedSegments(ts, end);
      SplitIsSegments(Joined(ts), " ", true);
    }
  }

  lemma {:induction false} EachAgree(pieces: seq<string>)
    requires forall i :: 0 <= i < |pieces| ==> IsKept(pieces[i]) && ModeAfter(pieces[i], OUT).quote.None?
    ensures EachArgs(pieces).Some? && EachJoined(pieces).Some?
    ensures |EachArgs(pieces).value| == |EachJoined(pieces).value| == |pieces|
    ensures forall i :: 0 <= i < |pieces| ==> Split(EachJoined(pieces).value[i], " ", true) == Some(EachArgs(pieces).value[i])
  {
    if pieces != [] {
      var n := |pieces| - 1;
      EachAgree(pieces[..n]);
      assert IsKept(pieces[n]);
      JoinChangesNothing(pieces[n]);
    }
  }

  /** The two routes to arguments agree on every input: both fail exactly when a quote stays open,
      and otherwise splitting each command gives its arguments. */
  lemma PassesAgree(cmd: string)
    ensures Commands(cmd).None? <==> ModeAfter(cmd, OUT).quote.Some?
    ensures CommandsAndArgs(cmd).None? <==> ModeAfter(cmd, OUT).quote.Some?
    ensures Commands(cmd).Some? ==>
      var (cs, args) := (Commands(cmd).value, CommandsAndArgs(cmd).value);
      |cs| == |args| && forall i :: 0 <= i < |cs| ==> Split(cs[i], " ", true) == Some(args[i])
  {
    SplitIsSegments(cmd, "&&", false);
    if ModeAfter(cmd, OUT).quote.None? {
      var pieces := Split(cmd, "&&", false).value;
      forall i | 0 <= i < |pieces|
        ensures IsKept(pieces[i]) && ModeAfter(pieces[i], OUT).quote.None?
      {
        KeepIsIdempotent(cmd, "&&", i);
      }
      EachAgree(pieces);
    }
  }
}
