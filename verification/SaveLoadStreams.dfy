/** Saving to and loading from streams. */
module SaveLoadStreams {
  import opened Wrappers
  import opened SaveLoad

  // ---------------------------------------------------------------- plain elements as one block

  /** All bytes of a list of plain elements. */
  function Block(items: seq<Stored>): seq<byte> {
    if items == [] then [] else (if items[0].SBytes? then items[0].bytes else []) + Block(items[1..])
  }

  /** Written as one block, plain elements give the same bytes as written one by one. */
  lemma {:induction false} BlockSaves(k: nat, items: seq<Stored>)
    requires forall i :: 0 <= i < |items| ==> IsA(Pod(k), items[i])
    ensures SavedAll(Pod(k), items) == Block(items)
  {
    if items != [] { BlockSaves(k, items[1..]); }
  }

  function BlockSize(k: nat, n: nat): nat { if n == 0 then 0 else k + BlockSize(k, n - 1) }

  /** A block cut into elements of `k` bytes. */
  function Cut(k: nat, n: nat, block: seq<byte>): seq<Value>
    requires |block| == BlockSize(k, n)
    decreases n
  {
    if n == 0 then [] else [Bytes(block[..k])] + Cut(k, n - 1, block[k..])
  }

  /** Read as one block, plain elements give the same outcome as read one by one. */
  lemma {:induction false} BlockLoads(k: nat, n: nat, i: nat, target: Value, input: Input)
    ensures LoadAll(Pod(k), n, i, target, input) ==
      if |input| < BlockSize(k, n) then Err(Eof)
      else Ok((Cut(k, n, input[..BlockSize(k, n)]), input[BlockSize(k, n)..]))
    decreases n
  {
    if n == 0 {
      assert input[..0] == [] && input[0..] == input;
    } else if |input| >= k {
      var rest, size := input[k..], BlockSize(k, n - 1);
      BlockLoads(k, n - 1, i + 1, target, rest);
      if |rest| >= size {
        var block := input[..k + size];
        assert block[..k] == input[..k] && block[k..] == rest[..size] && rest[size..] == input[k + size..];
      }
    }
  }

  class OutputStream {
    var written: seq<byte>

    constructor ()
      ensures written == []
    {
      written := [];
    }

    method Write(b: seq<byte>)
      modifies this
      ensures written == old(written) + b
    {
      written := written + b;
    }

    method SaveSize(n: nat)
      modifies this
      ensures written == old(written) + SavedSize(n)
    {
      if n < ESCAPE {
        Write(LittleEndian(n, 4));
      } else {
        Write(LittleEndian(ESCAPE, 4));
        Write(LittleEndian(n, 8));
      }
    }

    method Save(s: Schema, x: Stored)
      requires IsA(s, x)
      modifies this
      ensures written == old(written) + Saved(s, x)
      decreases s, 1, 0
    {
      match s {
        case Pod(_) => Write(x.bytes);
        case Vec(_) => SaveVector(s, x);
        case Arr(e, _) => SaveRange(e, x.items);
        case Pair(_, _) => SavePair(s, x);
        case Tuple(_) => SaveReversed(s, x.items);
        case SetOf(_) => SaveSet(s, x);
        case MapOf(_, _) => SaveMap(s, x);
        case Opt(_) => SaveOptional(s, x);
        case Variant(_) => SaveVariant(s, x);
      }
    }

    method SaveVector(s: Schema, x: Stored)
      requires s.Vec? && IsA(s, x)
      modifies this
      ensures written == old(written) + Saved(s, x)
      decreases s, 0, 1
    {
      Assoc(written, SavedSize(|x.items|), SavedAll(s.elem, x.items));
      SaveSize(|x.items|);
      SaveRange(s.elem, x.items);
    }

    method SavePair(s: Schema, x: Stored)
      requires s.Pair? && IsA(s, x)
      modifies this
      ensures written == old(written) + Saved(s, x)
      decreases s, 0, 1
    {
      Save(s.first, x.first);
      Save(s.second, x.second);
    }

    method SaveSet(s: Schema, x: Stored)
      requires s.SetOf? && IsA(s, x)
      modifies this
      ensures written == old(written) + Saved(s, x)
      decreases s, 0, 1
    {
      Assoc(written, SavedSize(|x.members|), SavedAll(s.elem, x.members));
      SaveSize(|x.members|);
      SaveRange(s.elem, x.members);
    }

    method SaveMap(s: Schema, x: Stored)
      requires s.MapOf? && IsA(s, x)
      modifies this
      ensures written == old(written) + Saved(s, x)
      decreases s, 0, 1
    {
      Assoc(written, SavedSize(|x.entries|), SavedEntries(s, x.entries));
      SaveSize(|x.entries|);
      SaveEntries(s, x.entries);
    }

    method SaveOptional(s: Schema, x: Stored)
      requires s.Opt? && IsA(s, x)
      modifies this
      ensures written == old(written) + Saved(s, x)
      decreases s, 0, 1
    {
      Write([if x.SSome? then 1 else 0]);
      if x.SSome? { Save(s.elem, x.inner); }
    }

    method SaveVariant(s: Schema, x: Stored)
      requires s.Variant? && IsA(s, x)
      modifies this
      ensures written == old(written) + Saved(s, x)
      decreases s, 0, 1
    {
      Write([x.tag as byte]);
      Save(s.alts[x.tag], x.alt);
    }

    method SaveRange(e: Schema, items: seq<Stored>)
      requires forall i :: 0 <= i < |items| ==> IsA(e, items[i])
      modifies this
      ensures written == old(written) + SavedAll(e, items)
      decreases e, 2, 0
    {
      var contiguous: bool := *; // depends on the container
      if e.Pod? && contiguous {
        BlockSaves(e.size, items);
        Write(Block(items));
        return;
      }
      for i := 0 to |items|
        invariant written + SavedAll(e, items[i..]) == old(written) + SavedAll(e, items)
      {
        assert items[i..][0] == items[i] && items[i..][1..] == items[i + 1..];
        Assoc(written, Saved(e, items[i]), SavedAll(e, items[i + 1..]));
        Save(e, items[i]);
      }
    }

    method SaveReversed(s: Schema, items: seq<Stored>)
      requires s.Tuple? && |s.items| == |items| && forall i :: 0 <= i < |items| ==> IsA(s.items[i], items[i])
      modifies this
      ensures written == old(written) + SavedTuple(s, items, |items|)
      decreases s, 0, 0
    {
      for i := |items| downto 0
        invariant written + SavedTuple(s, items, i) == old(written) + SavedTuple(s, items, |items|)
      {
        Assoc(written, Saved(s.items[i], items[i]), SavedTuple(s, items, i));
        Save(s.items[i], items[i]);
      }
    }

    method SaveEntries(s: Schema, entries: seq<Stored>)
      requires s.MapOf? && forall i :: 0 <= i < |entries| ==> IsEntry(s, entries[i])
      modifies this
      ensures written == old(written) + SavedEntries(s, entries)
      decreases s, 0, 0
    {
      for i := 0 to |entries|
        invariant written + SavedEntries(s, entries[i..]) == old(written) + SavedEntries(s, entries)
      {
        assert entries[i..][0] == entries[i] && entries[i..][1..] == entries[i + 1..];
        assert IsEntry(s, entries[i]);
        ghost var a, b := Saved(s.key, entries[i].first), Saved(s.mapped, entries[i].second);
        Assoc(written, a + b, SavedEntries(s, entries[i + 1..]));
        Assoc(written, a, b);
        Save(s.key, entries[i].first);
        Save(s.mapped, entries[i].second);
      }
    }
  }

  /** A method's outcome is the one specified, and the stream is left where it should be. */
  ghost predicate Does<T>(spec: Result<(T, Input), Error>, r: Result<T, Error>, left: Input) {
    match spec
    case Err(e) => r == Err(e)
    case Ok((v, rest)) => r == Ok(v) && left == rest
  }

  ghost function After(items: seq<Value>, r: Result<(seq<Value>, Input), Error>): Result<(seq<Value>, Input), Error> {
    match r
    case Err(e) => Err(e)
    case Ok((vs, rest)) => Ok((items + vs, rest))
  }

  ghost function Before(r: Result<(seq<Value>, Input), Error>, items: seq<Value>): Result<(seq<Value>, Input), Error> {
    match r
    case Err(e) => Err(e)
    case Ok((vs, rest)) => Ok((vs + items, rest))
  }

  lemma AfterNext(items: seq<Value>, v: Value, r: Result<(seq<Value>, Input), Error>)
    ensures After(items, After([v], r)) == After(items + [v], r)
  {
    if r.Ok? { assert items + ([v] + r.value.0) == (items + [v]) + r.value.0; }
  }

  lemma BeforeNext(r: Result<(seq<Value>, Input), Error>, v: Value, items: seq<Value>)
    ensures Before(Before(r, [v]), items) == Before(r, [v] + items)
  {
    if r.Ok? { assert (r.value.0 + [v]) + items == r.value.0 + ([v] + items); }
  }

  lemma Whole(r: Result<(seq<Value>, Input), Error>)
    ensures After([], r) == r == Before(r, [])
  {
    if r.Ok? { assert [] + r.value.0 == r.value.0 == r.value.0 + []; }
  }

  class InputStream {
    var left: Input

    constructor (input: Input)
      ensures left == input
    {
      left := input;
    }

    /** Reads up to `n` bytes. */
    method Read(n: nat) returns (b: seq<byte>)
      modifies this
      ensures b == if n <= |old(left)| then old(left)[..n] else old(left)
      ensures left == old(left)[|b|..]
    {
      b := if n <= |left| then left[..n] else left;
      left := left[|b|..];
    }

    method LoadPod(n: nat) returns (r: Result<seq<byte>, Error>)
      modifies this
      ensures Does(LoadBytes(n, old(left)), r, left)
    {
      var b := Read(n);
      if |b| != n {
        return Err(Eof);
      }
      return Ok(b);
    }

    method ReadSize() returns (r: Result<nat, Error>)
      modifies this
      ensures Does(LoadSize(old(left)), r, left)
    {
      var b := LoadPod(4);
      if b.Err? { return Err(b.error); }
      if FromLittleEndian(b.value) != ESCAPE {
        return Ok(FromLittleEndian(b.value));
      }
      b := LoadPod(8);
      if b.Err? { return Err(b.error); }
      return Ok(FromLittleEndian(b.value));
    }

    method LoadValue(s: Schema, target: Value) returns (r: Result<Value, Error>)
      modifies this
      ensures Does(Load(s, target, old(left)), r, left)
      decreases s, 1, 0
    {
      match s {
        case Pod(n) =>
          var b := LoadPod(n);
          r := if b.Err? then Err(b.error) else Ok(Bytes(b.value));
        case Vec(e) => r := LoadVector(s, target);
        case Arr(e, n) =>
          var items := LoadRange(e, n, target);
          r := if items.Err? then Err(items.error) else Ok(List(items.value));
        case Pair(_, _) => r := LoadBoth(s, target);
        case Tuple(ss) =>
          var items := LoadReversed(s, target);
          r := if items.Err? then Err(items.error) else Ok(List(items.value));
        case SetOf(_) => r := LoadSet(s, target);
        case MapOf(_, _) => r := LoadMap(s, target);
        case Opt(_) => r := LoadOptional(s, target);
        case Variant(_) => r := LoadVariant(s, target);
      }
    }

    method LoadVector(s: Schema, target: Value) returns (r: Result<Value, Error>)
      requires s.Vec?
      modifies this
      ensures Does(Load(s, target, old(left)), r, left)
      decreases s, 0, 1
    {
      var n := ReadSize();
      if n.Err? { return Err(n.error); }
      var items := LoadRange(s.elem, n.value, target);
      r := if items.Err? then Err(items.error) else Ok(List(items.value));
    }

    method LoadRange(e: Schema, n: nat, target: Value) returns (r: Result<seq<Value>, Error>)
      modifies this
      ensures Does(LoadAll(e, n, 0, target, old(left)), r, left)
      decreases e, 2, 0
    {
      var contiguous: bool := *; // depends on the container
      if e.Pod? && contiguous {
        BlockLoads(e.size, n, 0, target, left);
        var block := LoadPod(BlockSize(e.size, n));
        if block.Err? { return Err(block.error); }
        return Ok(Cut(e.size, n, block.value));
      }
      var items: seq<Value> := [];
      Whole(LoadAll(e, n, 0, target, left));
      for i := 0 to n
        invariant After(items, LoadAll(e, n - i, i, target, left)) == LoadAll(e, n, 0, target, old(left))
      {
        ghost var was := left;
        var v := LoadValue(e, ItemTarget(e, target, i));
        if v.Err? { return Err(v.error); }
        AfterNext(items, v.value, LoadAll(e, n - i - 1, i + 1, target, left));
        items := items + [v.value];
      }
      assert items + [] == items;
      return Ok(items);
    }

    /** Components are stored last first. */
    method LoadReversed(s: Schema, target: Value) returns (r: Result<seq<Value>, Error>)
      requires s.Tuple?
      modifies this
      ensures Does(LoadTuple(s, |s.items|, target, old(left)), r, left)
      decreases s, 0, 1
    {
      var items: seq<Value> := [];
      Whole(LoadTuple(s, |s.items|, target, left));
      for i := |s.items| downto 0
        invariant Before(LoadTuple(s, i, target, left), items) == LoadTuple(s, |s.items|, target, old(left))
      {
        var v := LoadValue(s.items[i], ItemTarget(s.items[i], target, i));
        if v.Err? { return Err(v.error); }
        BeforeNext(LoadTuple(s, i, target, left), v.value, items);
        items := [v.value] + items;
      }
      assert [] + items == items;
      return Ok(items);
    }

    method LoadBoth(s: Schema, target: Value) returns (r: Result<Value, Error>)
      requires s.Pair? || s.MapOf?
      modifies this
      ensures Does(LoadPair(s, target, old(left)), r, left)
      decreases s, 0, 0
    {
      var (a, b) := if s.Pair? then (s.first, s.second) else (s.key, s.mapped);
      var first := LoadValue(a, if target.Both? then target.first else Default(a));
      if first.Err? { return first; }
      var second := LoadValue(b, if target.Both? then target.second else Default(b));
      if second.Err? { return second; }
      return Ok(Both(first.value, second.value));
    }

    method LoadSet(s: Schema, target: Value) returns (r: Result<Value, Error>)
      requires s.SetOf?
      modifies this
      ensures Does(Load(s, target, old(left)), r, left)
      decreases s, 0, 1
    {
      var n := ReadSize();
      if n.Err? { return Err(n.error); }
      r := InsertMembers(s.elem, n.value);
    }

    method InsertMembers(e: Schema, n: nat) returns (r: Result<Value, Error>)
      modifies this
      ensures Does(LoadMembers(e, n, Default(e), {}, old(left)), r, left)
      decreases e, 2, 0
    {
      var done: set<Value>, v := {}, Default(e);
      for i := 0 to n
        invariant LoadMembers(e, n - i, v, done, left) == LoadMembers(e, n, Default(e), {}, old(left))
      {
        r := LoadValue(e, v);
        if r.Err? { return; }
        v := r.value;
        done := done + {v};
      }
      return Ok(SetV(done));
    }

    method LoadMap(s: Schema, target: Value) returns (r: Result<Value, Error>)
      requires s.MapOf?
      modifies this
      ensures Does(Load(s, target, old(left)), r, left)
      decreases s, 0, 2
    {
      var n := ReadSize();
      if n.Err? { return Err(n.error); }
      r := InsertEntries(s, n.value);
    }

    method InsertEntries(s: Schema, n: nat) returns (r: Result<Value, Error>)
      requires s.MapOf?
      modifies this
      ensures Does(LoadEntries(s, n, Both(Default(s.key), Default(s.mapped)), map[], old(left)), r, left)
      decreases s, 0, 1
    {
      var done: map<Value, Value>, v := map[], Both(Default(s.key), Default(s.mapped));
      ghost var spec := LoadEntries(s, n, v, done, left);
      for i := 0 to n
        invariant LoadEntries(s, n - i, v, done, left) == spec
      {
        r := LoadBoth(s, v);
        if r.Err? { return; }
        v := r.value;
        done := Inserted(done, v);
      }
      return Ok(MapV(done));
    }

    method LoadOptional(s: Schema, target: Value) returns (r: Result<Value, Error>)
      requires s.Opt?
      modifies this
      ensures Does(Load(s, target, old(left)), r, left)
      decreases s, 0, 1
    {
      var hasValue := LoadPod(1);
      if hasValue.Err? { return Err(hasValue.error); }
      if hasValue.value[0] == 0 {
        return Ok(Nothing);
      }
      r := LoadValue(s.elem, Default(s.elem));
      if r.Ok? { r := Ok(Just(r.value)); }
    }

    method LoadVariant(s: Schema, target: Value) returns (r: Result<Value, Error>)
      requires s.Variant?
      modifies this
      ensures Does(Load(s, target, old(left)), r, left)
      decreases s, 0, 1
    {
      var index := LoadPod(1);
      if index.Err? { return Err(index.error); }
      var tag := index.value[0] as nat;
      if tag >= |s.alts| {
        return Err(BadTag);
      }
      r := LoadValue(s.alts[tag], Default(s.alts[tag]));
      if r.Ok? { r := Ok(Alt(tag, r.value)); }
    }
  }
}
