/** Saved values load back, whatever the target held and however sets and maps were iterated. */
module SaveLoadTheory {
  import opened Wrappers
  import opened SaveLoad

  // ---------------------------------------------------------------- reading more input changes nothing

  /** How an outcome continues when the input is longer by `z`. */
  ghost function Longer<T>(r: Result<(T, Input), Error>, z: Input): Result<(T, Input), Error> {
    match r
    case Err(e) => Err(e)
    case Ok((v, rest)) => Ok((v, rest + z))
  }

  /** `now`, on an input longer by `z`, agrees with `was`, unless `was` ran out of input. */
  ghost predicate Agrees<T(!new)>(was: Result<(T, Input), Error>, now: Result<(T, Input), Error>, z: Input) {
    was == Err(Eof) || now == Longer(was, z)
  }

  lemma BytesAgree(n: nat, input: Input, z: Input)
    ensures Agrees(LoadBytes(n, input), LoadBytes(n, input + z), z)
  {
    if n <= |input| {
      assert (input + z)[..n] == input[..n] && (input + z)[n..] == input[n..] + z;
    }
  }

  lemma SizeAgrees(input: Input, z: Input)
    ensures Agrees(LoadSize(input), LoadSize(input + z), z)
  {
    BytesAgree(4, input, z);
    if LoadBytes(4, input).Ok? { BytesAgree(8, LoadBytes(4, input).value.1, z); }
  }

  lemma {:induction false} LoadAgrees(s: Schema, target: Value, input: Input, z: Input)
    ensures Agrees(Load(s, target, input), Load(s, target, input + z), z)
    decreases s, 1, 0
  {
    match s
    case Pod(n) => BytesAgree(n, input, z);
    case Vec(e) =>
      SizeAgrees(input, z);
      if LoadSize(input).Ok? { AllAgree(e, LoadSize(input).value.0, 0, target, LoadSize(input).value.1, z); }
    case Arr(e, n) => AllAgree(e, n, 0, target, input, z);
    case Pair(a, b) => PairAgrees(s, target, input, z);
    case Tuple(ss) => TupleAgrees(s, |ss|, target, input, z);
    case SetOf(e) =>
      SizeAgrees(input, z);
      if LoadSize(input).Ok? { MembersAgree(e, LoadSize(input).value.0, Default(e), {}, LoadSize(input).value.1, z); }
    case MapOf(k, v) =>
      SizeAgrees(input, z);
      if LoadSize(input).Ok? {
        EntriesAgree(s, LoadSize(input).value.0, Both(Default(k), Default(v)), map[], LoadSize(input).value.1, z);
      }
    case Opt(e) =>
      BytesAgree(1, input, z);
      if LoadBytes(1, input).Ok? { LoadAgrees(e, Default(e), LoadBytes(1, input).value.1, z); }
    case Variant(ss) =>
      BytesAgree(1, input, z);
      if LoadBytes(1, input).Ok? {
        var (b, rest) := LoadBytes(1, input).value;
        if b[0] as nat < |ss| { LoadAgrees(ss[b[0]], Default(ss[b[0]]), rest, z); }
      }
  }

  lemma {:induction false} PairAgrees(s: Schema, target: Value, input: Input, z: Input)
    requires s.Pair? || s.MapOf?
    ensures Agrees(LoadPair(s, target, input), LoadPair(s, target, input + z), z)
    decreases s, 0, 0
  {
    var (a, b) := if s.Pair? then (s.first, s.second) else (s.key, s.mapped);
    var first := if target.Both? then target.first else Default(a);
    LoadAgrees(a, first, input, z);
    if Load(a, first, input).Ok? {
      LoadAgrees(b, if target.Both? then target.second else Default(b), Load(a, first, input).value.1, z);
    }
  }

  lemma {:induction false} AllAgree(e: Schema, n: nat, i: nat, target: Value, input: Input, z: Input)
    ensures Agrees(LoadAll(e, n, i, target, input), LoadAll(e, n, i, target, input + z), z)
    decreases e, 2, n
  {
    if n > 0 {
      var t := ItemTarget(e, target, i);
      LoadAgrees(e, t, input, z);
      if Load(e, t, input).Ok? { AllAgree(e, n - 1, i + 1, target, Load(e, t, input).value.1, z); }
    }
  }

  lemma {:induction false} TupleAgrees(s: Schema, n: nat, target: Value, input: Input, z: Input)
    requires s.Tuple? && n <= |s.items|
    ensures Agrees(LoadTuple(s, n, target, input), LoadTuple(s, n, target, input + z), z)
    decreases s, 0, n
  {
    if n > 0 {
      var t := ItemTarget(s.items[n - 1], target, n - 1);
      LoadAgrees(s.items[n - 1], t, input, z);
      if Load(s.items[n - 1], t, input).Ok? { TupleAgrees(s, n - 1, target, Load(s.items[n - 1], t, input).value.1, z); }
    }
  }

  lemma {:induction false} MembersAgree(e: Schema, n: nat, v: Value, done: set<Value>, input: Input, z: Input)
    ensures Agrees(LoadMembers(e, n, v, done, input), LoadMembers(e, n, v, done, input + z), z)
    decreases e, 2, n
  {
    if n > 0 {
      LoadAgrees(e, v, input, z);
      if Load(e, v, input).Ok? {
        var (v', rest) := Load(e, v, input).value;
        MembersAgree(e, n - 1, v', done + {v'}, rest, z);
      }
    }
  }

  lemma {:induction false} EntriesAgree(s: Schema, n: nat, v: Value, done: map<Value, Value>, input: Input, z: Input)
    requires s.MapOf?
    ensures Agrees(LoadEntries(s, n, v, done, input), LoadEntries(s, n, v, done, input + z), z)
    decreases s, 0, n + 1
  {
    if n > 0 {
      PairAgrees(s, v, input, z);
      if LoadPair(s, v, input).Ok? {
        var (v', rest) := LoadPair(s, v, input).value;
        EntriesAgree(s, n - 1, v', Inserted(done, v'), rest, z);
      }
    }
  }

  // ---------------------------------------------------------------- round trip

  lemma NumberLoads(n: nat, k: nat, rest: Input)
    requires n < Pow256(k)
    ensures LoadBytes(k, LittleEndian(n, k) + rest) == Ok((LittleEndian(n, k), rest))
    ensures FromLittleEndian(LittleEndian(n, k)) == n
  {
    NumberRoundTrip(n, k);
    var b := LittleEndian(n, k);
    assert (b + rest)[..k] == b && (b + rest)[k..] == rest;
  }

  lemma EscapeFits()
    ensures ESCAPE < Pow256(4)
  {
    assert Pow256(2) == 65536;
    assert Pow256(3) == 16777216;
  }

  /** Sizes of up to 64 bits come back, escaped or not. */
  lemma SizeRoundTrip(n: nat, rest: Input)
    requires Fits(n)
    ensures LoadSize(SavedSize(n) + rest) == Ok((n, rest))
  {
    EscapeFits();
    if n < ESCAPE {
      NumberLoads(n, 4, rest);
    } else {
      assert SavedSize(n) + rest == LittleEndian(ESCAPE, 4) + (LittleEndian(n, 8) + rest);
      NumberLoads(ESCAPE, 4, LittleEndian(n, 8) + rest);
      NumberLoads(n, 8, rest);
    }
  }

  ghost function AbsAll(items: seq<Stored>): seq<Value> {
    seq(|items|, i requires 0 <= i < |items| => Abs(items[i]))
  }

  ghost function AbsSet(items: seq<Stored>): set<Value> {
    set i | 0 <= i < |items| :: Abs(items[i])
  }

  /** A saved value loads back and leaves the rest of the input, whatever the target held. */
  lemma {:induction false} RoundTrip(s: Schema, x: Stored, target: Value, rest: Input)
    requires IsA(s, x)
    ensures Load(s, target, Saved(s, x) + rest) == Ok((Abs(x), rest))
    decreases s, 1, 0
  {
    match s
    case Pod(n) => assert (x.bytes + rest)[..n] == x.bytes && (x.bytes + rest)[n..] == rest;
    case Vec(e) => VecRoundTrip(s, x, target, rest);
    case Arr(e, n) => AllRoundTrip(e, x.items, 0, target, rest);
    case Pair(a, b) => PairRoundTrip(s, x, target, rest);
    case Tuple(ss) =>
      TupleRoundTrip(s, x.items, |ss|, target, rest);
      assert x.items[..|ss|] == x.items;
    case SetOf(e) => SetRoundTrip(s, x, target, rest);
    case MapOf(k, v) => MapRoundTrip(s, x, target, rest);
    case Opt(e) => OptRoundTrip(s, x, target, rest);
    case Variant(ss) => VariantRoundTrip(s, x, target, rest);
  }

  lemma VecRoundTrip(s: Schema, x: Stored, target: Value, rest: Input)
    requires s.Vec? && IsA(s, x)
    ensures Load(s, target, Saved(s, x) + rest) == Ok((Abs(x), rest))
    decreases s, 0, 0
  {
    var all := SavedAll(s.elem, x.items);
    Assoc(SavedSize(|x.items|), all, rest);
    SizeRoundTrip(|x.items|, all + rest);
    AllRoundTrip(s.elem, x.items, 0, target, rest);
  }

  lemma PairRoundTrip(s: Schema, x: Stored, target: Value, rest: Input)
    requires (s.Pair? && IsA(s, x)) || (s.MapOf? && IsEntry(s, x))
    ensures var (a, b) := if s.Pair? then (s.first, s.second) else (s.key, s.mapped);
      LoadPair(s, target, Saved(a, x.first) + Saved(b, x.second) + rest) == Ok((Abs(x), rest))
    decreases s, -1, 0
  {
    var (a, b) := if s.Pair? then (s.first, s.second) else (s.key, s.mapped);
    Assoc(Saved(a, x.first), Saved(b, x.second), rest);
    RoundTrip(a, x.first, if target.Both? then target.first else Default(a), Saved(b, x.second) + rest);
    RoundTrip(b, x.second, if target.Both? then target.second else Default(b), rest);
  }

  lemma SetRoundTrip(s: Schema, x: Stored, target: Value, rest: Input)
    requires s.SetOf? && IsA(s, x)
    ensures Load(s, target, Saved(s, x) + rest) == Ok((Abs(x), rest))
    decreases s, 0, 0
  {
    var all := SavedAll(s.elem, x.members);
    Assoc(SavedSize(|x.members|), all, rest);
    SizeRoundTrip(|x.members|, all + rest);
    MembersRoundTrip(s.elem, x.members, Default(s.elem), {}, rest);
    assert {} + AbsSet(x.members) == AbsSet(x.members);
  }

  lemma MapRoundTrip(s: Schema, x: Stored, target: Value, rest: Input)
    requires s.MapOf? && IsA(s, x)
    ensures Load(s, target, Saved(s, x) + rest) == Ok((Abs(x), rest))
    decreases s, 0, |x.entries| + 2
  {
    var n, all := |x.entries|, SavedEntries(s, x.entries);
    Assoc(SavedSize(n), all, rest);
    SizeRoundTrip(n, all + rest);
    assert x.entries[0..] == x.entries;
    LoadMapUnfold(s, target, Saved(s, x) + rest, n, all + rest);
    EntriesRoundTrip(s, x, 0, Both(Default(s.key), Default(s.mapped)), rest);
  }

  lemma OptRoundTrip(s: Schema, x: Stored, target: Value, rest: Input)
    requires s.Opt? && IsA(s, x)
    ensures Load(s, target, Saved(s, x) + rest) == Ok((Abs(x), rest))
    decreases s, 0, 0
  {
    var input := Saved(s, x) + rest;
    if x.SNone? {
      assert input[..1] == [0] && input[1..] == rest;
    } else {
      var inner := Saved(s.elem, x.inner);
      assert input[..1] == [1] && input[1..] == inner + rest;
      RoundTrip(s.elem, x.inner, Default(s.elem), rest);
    }
  }

  lemma VariantRoundTrip(s: Schema, x: Stored, target: Value, rest: Input)
    requires s.Variant? && IsA(s, x)
    ensures Load(s, target, Saved(s, x) + rest) == Ok((Abs(x), rest))
    decreases s, 0, 0
  {
    var input, alt := Saved(s, x) + rest, s.alts[x.tag];
    assert input[..1] == [x.tag as byte] && input[1..] == Saved(alt, x.alt) + rest;
    RoundTrip(alt, x.alt, Default(alt), rest);
  }

  lemma {:induction false} AllRoundTrip(e: Schema, items: seq<Stored>, i: nat, target: Value, rest: Input)
    requires forall i :: 0 <= i < |items| ==> IsA(e, items[i])
    ensures LoadAll(e, |items|, i, target, SavedAll(e, items) + rest) == Ok((AbsAll(items), rest))
    decreases e, 2, |items|
  {
    if items == [] {
      assert SavedAll(e, items) + rest == rest;
    } else {
      var all := SavedAll(e, items[1..]);
      Assoc(Saved(e, items[0]), all, rest);
      RoundTrip(e, items[0], ItemTarget(e, target, i), all + rest);
      AllRoundTrip(e, items[1..], i + 1, target, rest);
      assert [Abs(items[0])] + AbsAll(items[1..]) == AbsAll(items);
    }
  }

  lemma {:induction false} TupleRoundTrip(s: Schema, items: seq<Stored>, n: nat, target: Value, rest: Input)
    requires s.Tuple? && n <= |s.items| == |items| && forall i :: 0 <= i < |items| ==> IsA(s.items[i], items[i])
    ensures LoadTuple(s, n, target, SavedTuple(s, items, n) + rest) == Ok((AbsAll(items[..n]), rest))
    decreases s, 0, n
  {
    if n == 0 {
      assert SavedTuple(s, items, n) + rest == rest;
    } else {
      var last, all := Saved(s.items[n - 1], items[n - 1]), SavedTuple(s, items, n - 1);
      Assoc(last, all, rest);
      RoundTrip(s.items[n - 1], items[n - 1], ItemTarget(s.items[n - 1], target, n - 1), all + rest);
      TupleRoundTrip(s, items, n - 1, target, rest);
      assert AbsAll(items[..n - 1]) + [Abs(items[n - 1])] == AbsAll(items[..n]);
    }
  }

  lemma AbsSetFirst(items: seq<Stored>, done: set<Value>)
    requires items != []
    ensures done + {Abs(items[0])} + AbsSet(items[1..]) == done + AbsSet(items)
  {
    forall v | v in AbsSet(items)
      ensures v == Abs(items[0]) || v in AbsSet(items[1..])
    {
      var i :| 0 <= i < |items| && Abs(items[i]) == v;
      if i > 0 { assert items[1..][i - 1] == items[i]; }
    }
    forall v | v in AbsSet(items[1..])
      ensures v in AbsSet(items)
    {
      var i :| 0 <= i < |items[1..]| && Abs(items[1..][i]) == v;
      assert items[1..][i] == items[i + 1];
    }
  }

  lemma {:induction false} MembersRoundTrip(e: Schema, items: seq<Stored>, v: Value, done: set<Value>, rest: Input)
    requires forall i :: 0 <= i < |items| ==> IsA(e, items[i])
    ensures LoadMembers(e, |items|, v, done, SavedAll(e, items) + rest) == Ok((SetV(done + AbsSet(items)), rest))
    decreases e, 2, |items|
  {
    if items == [] {
      assert done + AbsSet(items) == done && SavedAll(e, items) + rest == rest;
    } else {
      var all := SavedAll(e, items[1..]);
      Assoc(Saved(e, items[0]), all, rest);
      RoundTrip(e, items[0], v, all + rest);
      var v' := Abs(items[0]);
      MembersRoundTrip(e, items[1..], v', done + {v'}, rest);
      AbsSetFirst(items, done);
    }
  }

  lemma AbsEntriesNext(x: Stored, i: nat)
    requires x.SMap? && i < |x.entries| && x.entries[i].SPair?
    ensures AbsEntries(x, i + 1) == Inserted(AbsEntries(x, i), Abs(x.entries[i]))
  {}

  lemma LoadEntriesNext(s: Schema, n: nat, v: Value, done: map<Value, Value>, input: Input, v': Value, rest: Input)
    requires s.MapOf? && n > 0 && LoadPair(s, v, input) == Ok((v', rest))
    ensures LoadEntries(s, n, v, done, input) == LoadEntries(s, n - 1, v', Inserted(done, v'), rest)
  {}

  lemma SavedEntriesFirst(s: Schema, entries: seq<Stored>, rest: Input)
    requires s.MapOf? && entries != [] && forall i :: 0 <= i < |entries| ==> IsEntry(s, entries[i])
    ensures IsEntry(s, entries[0])
    ensures var e, all := entries[0], SavedEntries(s, entries[1..]) + rest;
      SavedEntries(s, entries) + rest == Saved(s.key, e.first) + Saved(s.mapped, e.second) + all
  {
    var e, all := entries[0], SavedEntries(s, entries[1..]);
    assert IsEntry(s, e);
    Assoc(Saved(s.key, e.first) + Saved(s.mapped, e.second), all, rest);
  }

  ghost predicate AllEntries(s: Schema, x: Stored) {
    s.MapOf? && x.SMap? && forall j :: 0 <= j < |x.entries| ==> IsEntry(s, x.entries[j])
  }

  /** Loading one entry leads to the same question about the remaining ones. */
  lemma EntryRoundTrip(s: Schema, x: Stored, i: nat, v: Value, rest: Input)
    requires AllEntries(s, x) && i < |x.entries|
    ensures LoadEntries(s, |x.entries| - i, v, AbsEntries(x, i), SavedEntries(s, x.entries[i..]) + rest)
      == LoadEntries(s, |x.entries| - i - 1, Abs(x.entries[i]), AbsEntries(x, i + 1), SavedEntries(s, x.entries[i + 1..]) + rest)
    decreases s, 0, 0
  {
    var entries := x.entries[i..];
    var all := SavedEntries(s, x.entries[i + 1..]) + rest;
    assert entries[0] == x.entries[i] && entries[1..] == x.entries[i + 1..];
    SavedEntriesFirst(s, entries, rest);
    PairRoundTrip(s, x.entries[i], v, all);
    AbsEntriesNext(x, i);
    LoadEntriesNext(s, |x.entries| - i, v, AbsEntries(x, i), SavedEntries(s, entries) + rest, Abs(x.entries[i]), all);
  }

  lemma {:induction false} EntriesRoundTrip(s: Schema, x: Stored, i: nat, v: Value, rest: Input)
    requires AllEntries(s, x) && i <= |x.entries|
    ensures LoadEntries(s, |x.entries| - i, v, AbsEntries(x, i), SavedEntries(s, x.entries[i..]) + rest)
      == Ok((MapV(AbsEntries(x, |x.entries|)), rest))
    decreases s, 0, |x.entries| - i + 1
  {
    if i == |x.entries| {
      assert SavedEntries(s, x.entries[i..]) + rest == rest;
    } else {
      EntryRoundTrip(s, x, i, v, rest);
      EntriesRoundTrip(s, x, i + 1, Abs(x.entries[i]), rest);
    }
  }

  lemma LoadMapUnfold(s: Schema, target: Value, input: Input, n: nat, rest: Input)
    requires s.MapOf? && LoadSize(input) == Ok((n, rest))
    ensures Load(s, target, input) == LoadEntries(s, n, Both(Default(s.key), Default(s.mapped)), map[], rest)
  {}

  // ---------------------------------------------------------------- consequences

  /** Every proper prefix of a saved value runs out of input. */
  lemma PrefixFails(s: Schema, x: Stored, target: Value, p: Input)
    requires IsA(s, x) && p < Saved(s, x)
    ensures Load(s, target, p) == Err(Eof)
  {
    var z := Saved(s, x)[|p|..];
    assert p + z == Saved(s, x) == Saved(s, x) + [];
    RoundTrip(s, x, target, []);
    LoadAgrees(s, target, p, z);
  }

  /** No saved value is a prefix of another. */
  lemma SelfDelimiting(s: Schema, x: Stored, y: Stored)
    requires IsA(s, x) && IsA(s, y) && Saved(s, x) <= Saved(s, y)
    ensures Saved(s, x) == Saved(s, y) && Abs(x) == Abs(y)
  {
    var z := Saved(s, y)[|Saved(s, x)|..];
    assert Saved(s, x) + z == Saved(s, y) == Saved(s, y) + [];
    RoundTrip(s, x, Default(s), z);
    RoundTrip(s, y, Default(s), []);
  }
}
