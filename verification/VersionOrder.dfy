/** The order of versions. */
module VersionOrder {
  import opened Wrappers
  import PathOrder

  /** Parses a component as an integer, if it is one. */
  type Parse = string -> Option<int>

  /** The text between dots; there is always at least one component. */
  function Components(s: string): (r: seq<string>)
    ensures r != []
  {
    if s == "" then [""]
    else
      var rest := Components(s[1..]);
      if s[0] == '.' then [""] + rest else [[s[0]] + rest[0]] + rest[1..]
  }

  /** The first component that differs decides; what is left over counts if it is not zero. */
  predicate Less(parse: Parse, l: seq<string>, r: seq<string>) {
    if l == [] || r == [] then AnyNonZero(parse, r)
    else if parse(l[0]).Some? && parse(r[0]).Some? then
      if parse(l[0]) != parse(r[0]) then parse(l[0]).value < parse(r[0]).value else Less(parse, l[1..], r[1..])
    else if l[0] != r[0] then PathOrder.Less(l[0], r[0])
    else Less(parse, l[1..], r[1..])
  }

  predicate AnyNonZero(parse: Parse, parts: seq<string>) {
    exists i :: 0 <= i < |parts| && parse(parts[i]) != Some(0)
  }

  method VersionLess(parse: Parse, l: string, r: string) returns (less: bool)
    ensures less == Less(parse, Components(l), Components(r))
  {
    var litems, ritems := Components(l), Components(r);
    var i := 0;
    while i < |litems| && i < |ritems|
      invariant 0 <= i <= |litems| && i <= |ritems|
      invariant Less(parse, litems[i..], ritems[i..]) == Less(parse, litems, ritems)
    {
      assert litems[i..][1..] == litems[i + 1..] && ritems[i..][1..] == ritems[i + 1..];
      var lval, rval := parse(litems[i]), parse(ritems[i]);
      if lval.Some? && rval.Some? {
        if lval.value != rval.value {
          return lval.value < rval.value;
        }
      } else if litems[i] != ritems[i] {
        return PathOrder.Less(litems[i], ritems[i]);
      }
      i := i + 1;
    }
    less := AnyOf(parse, ritems[i..]);
  }

  method AnyOf(parse: Parse, parts: seq<string>) returns (any: bool)
    ensures any == AnyNonZero(parse, parts)
  {
    for i := 0 to |parts|
      invariant forall j :: 0 <= j < i ==> parse(parts[j]) == Some(0)
    {
      if parse(parts[i]) != Some(0) {
        return true;
      }
    }
    return false;
  }

  // ---------------------------------------------------------------- numeric versions

  /** All components are non-negative integers. */
  ghost predicate Numeric(parse: Parse, v: seq<string>) {
    forall i :: 0 <= i < |v| ==> parse(v[i]).Some? && parse(v[i]).value >= 0
  }

  /** The value at a position, zero beyond the end. */
  ghost function ValueAt(parse: Parse, v: seq<string>, i: nat): int {
    if i < |v| && parse(v[i]).Some? then parse(v[i]).value else 0
  }

  ghost predicate DecidedAt(parse: Parse, l: seq<string>, r: seq<string>, i: nat) {
    && ValueAt(parse, l, i) < ValueAt(parse, r, i)
    && forall j: nat :: j < i ==> ValueAt(parse, l, j) == ValueAt(parse, r, j)
  }

  /** Lexicographic order of the sequences padded with zeros. */
  ghost predicate Below(parse: Parse, l: seq<string>, r: seq<string>) {
    exists i: nat :: DecidedAt(parse, l, r, i)
  }

  lemma DecidedNext(parse: Parse, l: seq<string>, r: seq<string>, i: nat)
    requires l != [] && r != [] && ValueAt(parse, l, 0) == ValueAt(parse, r, 0)
    ensures DecidedAt(parse, l, r, i + 1) <==> DecidedAt(parse, l[1..], r[1..], i)
  {
    assert forall j: nat :: ValueAt(parse, l[1..], j) == ValueAt(parse, l, j + 1);
    assert forall j: nat :: ValueAt(parse, r[1..], j) == ValueAt(parse, r, j + 1);
    if DecidedAt(parse, l[1..], r[1..], i) {
      forall j: nat | j < i + 1
        ensures ValueAt(parse, l, j) == ValueAt(parse, r, j)
      {
        if j > 0 { assert ValueAt(parse, l[1..], j - 1) == ValueAt(parse, r[1..], j - 1); }
      }
    }
  }

  lemma BelowNext(parse: Parse, l: seq<string>, r: seq<string>)
    requires l != [] && r != [] && ValueAt(parse, l, 0) == ValueAt(parse, r, 0)
    ensures Below(parse, l, r) <==> Below(parse, l[1..], r[1..])
  {
    if i: nat :| DecidedAt(parse, l, r, i) {
      DecidedNext(parse, l, r, i - 1);
    }
    if i: nat :| DecidedAt(parse, l[1..], r[1..], i) {
      DecidedNext(parse, l, r, i);
    }
  }

  /** The first nonzero among the first `n` values, if any. */
  lemma {:induction false} FirstAbove(parse: Parse, l: seq<string>, r: seq<string>, n: nat) returns (i: nat)
    requires exists k: nat :: k < n && ValueAt(parse, l, k) != ValueAt(parse, r, k)
    ensures i < n && ValueAt(parse, l, i) != ValueAt(parse, r, i)
    ensures forall j: nat :: j < i ==> ValueAt(parse, l, j) == ValueAt(parse, r, j)
  {
    if k: nat :| k < n - 1 && ValueAt(parse, l, k) != ValueAt(parse, r, k) {
      i := FirstAbove(parse, l, r, n - 1);
    } else {
      i := n - 1;
    }
  }

  lemma EmptyBelow(parse: Parse, l: seq<string>, r: seq<string>)
    requires Numeric(parse, l) && Numeric(parse, r) && (l == [] || r == [])
    ensures Below(parse, l, r) <==> AnyNonZero(parse, r)
  {
    if Below(parse, l, r) {
      var i: nat :| DecidedAt(parse, l, r, i);
      assert r != [] && parse(r[i]) != Some(0);
    }
    if AnyNonZero(parse, r) {
      var k :| 0 <= k < |r| && parse(r[k]) != Some(0);
      assert ValueAt(parse, l, k) != ValueAt(parse, r, k);
      var i := FirstAbove(parse, l, r, k + 1);
      assert DecidedAt(parse, l, r, i);
    }
  }

  /** On numeric versions the comparison is the lexicographic order of zero-padded components. */
  lemma {:induction false} LessIsLexicographic(parse: Parse, l: seq<string>, r: seq<string>)
    requires Numeric(parse, l) && Numeric(parse, r)
    ensures Less(parse, l, r) <==> Below(parse, l, r)
  {
    if l == [] || r == [] {
      EmptyBelow(parse, l, r);
    } else if parse(l[0]) == parse(r[0]) {
      BelowNext(parse, l, r);
      LessIsLexicographic(parse, l[1..], r[1..]);
    } else {
      if parse(l[0]).value < parse(r[0]).value {
        assert DecidedAt(parse, l, r, 0);
      } else {
        assert ValueAt(parse, l, 0) > ValueAt(parse, r, 0);
      }
    }
  }

  ghost predicate Same(parse: Parse, l: seq<string>, r: seq<string>) {
    forall i: nat :: ValueAt(parse, l, i) == ValueAt(parse, r, i)
  }

  /** Any two versions are ordered one way, the other way, or equal up to trailing zeros. */
  lemma Trichotomy(parse: Parse, l: seq<string>, r: seq<string>)
    ensures !(Below(parse, l, r) && Below(parse, r, l))
    ensures !Below(parse, l, r) && !Below(parse, r, l) <==> Same(parse, l, r)
  {
    forall i: nat, j: nat | DecidedAt(parse, l, r, i)
      ensures !DecidedAt(parse, r, l, j)
    {
      assert j < i ==> ValueAt(parse, l, j) == ValueAt(parse, r, j);
    }
    if !Same(parse, l, r) {
      var k: nat :| ValueAt(parse, l, k) != ValueAt(parse, r, k);
      var i := FirstAbove(parse, l, r, k + 1);
      assert DecidedAt(parse, l, r, i) || DecidedAt(parse, r, l, i);
    }
  }

  lemma BelowTransitive(parse: Parse, a: seq<string>, b: seq<string>, c: seq<string>)
    requires Below(parse, a, b) && Below(parse, b, c)
    ensures Below(parse, a, c)
  {
    var i: nat :| DecidedAt(parse, a, b, i);
    var j: nat :| DecidedAt(parse, b, c, j);
    assert DecidedAt(parse, a, c, if i <= j then i else j);
  }

  /** A strict weak order: irreflexive, transitive, and being unordered is being equal up to
      trailing zeros, which is transitive. */
  lemma StrictWeakOrder(parse: Parse, a: seq<string>, b: seq<string>, c: seq<string>)
    requires Numeric(parse, a) && Numeric(parse, b) && Numeric(parse, c)
    ensures !Less(parse, a, a)
    ensures Less(parse, a, b) && Less(parse, b, c) ==> Less(parse, a, c)
    ensures !Less(parse, a, b) && !Less(parse, b, a) <==> Same(parse, a, b)
    ensures !Less(parse, a, b) && !Less(parse, b, a) && !Less(parse, b, c) && !Less(parse, c, b)
      ==> !Less(parse, a, c) && !Less(parse, c, a)
  {
    LessIsLexicographic(parse, a, a);
    LessIsLexicographic(parse, a, b);
    LessIsLexicographic(parse, b, a);
    LessIsLexicographic(parse, b, c);
    LessIsLexicographic(parse, c, b);
    LessIsLexicographic(parse, a, c);
    LessIsLexicographic(parse, c, a);
    Trichotomy(parse, a, a);
    Trichotomy(parse, a, b);
    Trichotomy(parse, b, c);
    Trichotomy(parse, a, c);
    if Below(parse, a, b) && Below(parse, b, c) { BelowTransitive(parse, a, b, c); }
  }

  /** Trailing zeros make no difference. */
  lemma TrailingZero(parse: Parse, v: seq<string>, zero: string)
    requires Numeric(parse, v) && parse(zero) == Some(0)
    ensures !Less(parse, v, v + [zero]) && !Less(parse, v + [zero], v)
  {
    assert Same(parse, v, v + [zero]);
    StrictWeakOrder(parse, v, v + [zero], v);
  }

  /** With numbers and text mixed the order can run in a circle. */
  lemma MixedCycle(parse: Parse)
    requires parse("9") == Some(9) && parse("10") == Some(10) && parse("1a") == None
    ensures Less(parse, ["9"], ["10"]) && Less(parse, ["10"], ["1a"]) && Less(parse, ["1a"], ["9"])
  {
    assert "10"[1..] == "0" && "1a"[1..] == "a";
  }
}
