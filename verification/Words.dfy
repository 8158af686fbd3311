/** Texts made of words with single spaces between them. */
module Words {
  /** Where the `i`-th word starts if there is one character between neighbours. */
  ghost function Start(words: seq<string>, i: nat): nat
    requires i <= |words|
  {
    if i == 0 then 0 else Start(words, i - 1) + |words[i - 1]| + 1
  }

  ghost predicate HasWord(text: string, words: seq<string>, i: nat)
    requires i < |words|
  {
    && Start(words, i) + |words[i]| <= |text|
    && text[Start(words, i)..Start(words, i) + |words[i]|] == words[i]
    && (i > 0 ==> text[Start(words, i) - 1] == ' ')
  }

  /** The text is the words in order with exactly one space between neighbours: cutting it there gives the
      words back. */
  ghost predicate Joins(text: string, words: seq<string>) {
    && words != [] && |text| + 1 == Start(words, |words|)
    && forall i :: 0 <= i < |words| ==> HasWord(text, words, i)
  }

  lemma {:induction false} StartKept(words: seq<string>, w: string, i: nat)
    requires i <= |words|
    ensures Start(words + [w], i) == Start(words, i)
  {
    if i > 0 { StartKept(words, w, i - 1); }
  }

  lemma {:induction false} StartGrows(words: seq<string>, i: nat)
    requires i < |words|
    ensures Start(words, i) + |words[i]| + 1 <= Start(words, |words|)
    decreases |words| - i
  {
    if i + 1 < |words| { StartGrows(words, i + 1); }
  }

  lemma JoinsMore(text: string, words: seq<string>, w: string)
    requires Joins(text, words)
    ensures Joins(text + " " + w, words + [w])
  {
    var more, longer, n := words + [w], text + " " + w, |words|;
    StartKept(words, w, n);
    forall i | 0 <= i < |more|
      ensures HasWord(longer, more, i)
    {
      StartKept(words, w, if i < n then i else n);
      if i < n {
        assert HasWord(text, words, i);
        StartGrows(words, i);
        WordKept(text, " " + w, Start(words, i), |words[i]|);
        assert longer == text + (" " + w);
      } else {
        assert longer[|text| + 1..] == w && longer[|text|] == ' ';
      }
    }
  }

  lemma WordKept(text: string, rest: string, at: nat, len: nat)
    requires at + len <= |text|
    ensures (text + rest)[at..at + len] == text[at..at + len]
  {}

  lemma OneWord(w: string, words: seq<string>)
    requires words == [w]
    ensures Joins(w, words)
  {
    assert Start(words, 0) == 0 && Start(words, 1) == |w| + 1;
    assert w[0..|w|] == w;
  }

  lemma NotEmpty(text: string, words: seq<string>)
    requires Joins(text, words) && words[0] != ""
    ensures text != ""
  {
    assert HasWord(text, words, 0);
  }
}
