/** The binary format of saved values. */
module SaveLoad {
  import opened Wrappers

  newtype byte = x: int | 0 <= x < 256

  datatype Error = Eof | BadTag

  /** The types that can be saved. `Pod(n)` is plain data of `n` bytes; strings, lists and deques are `Vec`. */
  datatype Schema =
    | Pod(size: nat)
    | Vec(elem: Schema)
    | Arr(elem: Schema, length: nat)
    | Pair(first: Schema, second: Schema)
    | Tuple(items: seq<Schema>)
    | SetOf(elem: Schema)
    | MapOf(key: Schema, mapped: Schema)
    | Opt(elem: Schema)
    | Variant(alts: seq<Schema>)

  /** A value in memory; sets and maps list their elements in the order in which they are iterated. */
  datatype Stored =
    | SBytes(bytes: seq<byte>)
    | SList(items: seq<Stored>)
    | SPair(first: Stored, second: Stored)
    | SSet(members: seq<Stored>)
    | SMap(entries: seq<Stored>)
    | SNone
    | SSome(inner: Stored)
    | SAlt(tag: nat, alt: Stored)

  /** A value as such; the order of a set or map is not part of it. */
  datatype Value =
    | Bytes(bytes: seq<byte>)
    | List(items: seq<Value>)
    | Both(first: Value, second: Value)
    | SetV(members: set<Value>)
    | MapV(entries: map<Value, Value>)
    | Nothing
    | Just(inner: Value)
    | Alt(tag: nat, alt: Value)

  // ---------------------------------------------------------------- meaning

  ghost function Abs(x: Stored): Value
    decreases x, 0
  {
    match x
    case SBytes(b) => Bytes(b)
    case SList(items) => List(seq(|items|, i requires 0 <= i < |items| => Abs(items[i])))
    case SPair(a, b) => Both(Abs(a), Abs(b))
    case SSet(members) => SetV(set i | 0 <= i < |members| :: Abs(members[i]))
    case SMap(entries) => MapV(AbsEntries(x, |entries|))
    case SNone => Nothing
    case SSome(v) => Just(Abs(v))
    case SAlt(tag, v) => Alt(tag, Abs(v))
  }

  /** The first `n` entries of a map, first come first kept. */
  ghost function AbsEntries(x: Stored, n: nat): map<Value, Value>
    requires x.SMap? && n <= |x.entries|
    decreases x, 0, n
  {
    if n == 0 then map[]
    else
      var prior := AbsEntries(x, n - 1);
      match x.entries[n - 1]
      case SPair(k, v) => if Abs(k) in prior then prior else prior[Abs(k) := Abs(v)]
      case _ => prior
  }

  ghost predicate Fits(n: nat) { n < Pow256(8) }

  /** `x` is a value of the type: sizes fit in 64 bits and tags exist. */
  ghost predicate IsA(s: Schema, x: Stored)
    decreases s, 1, 0
  {
    match s
    case Pod(n) => x.SBytes? && |x.bytes| == n
    case Vec(e) => x.SList? && Fits(|x.items|) && forall i :: 0 <= i < |x.items| ==> IsA(e, x.items[i])
    case Arr(e, n) => x.SList? && |x.items| == n && forall i :: 0 <= i < |x.items| ==> IsA(e, x.items[i])
    case Pair(a, b) => x.SPair? && IsA(a, x.first) && IsA(b, x.second)
    case Tuple(ss) => x.SList? && |x.items| == |ss| && forall i :: 0 <= i < |ss| ==> IsA(ss[i], x.items[i])
    case SetOf(e) => x.SSet? && Fits(|x.members|) && forall i :: 0 <= i < |x.members| ==> IsA(e, x.members[i])
    case MapOf(k, v) =>
      && x.SMap? && Fits(|x.entries|)
      && (forall i :: 0 <= i < |x.entries| ==> x.entries[i].SPair? && IsA(k, x.entries[i].first) && IsA(v, x.entries[i].second))
    case Opt(e) => x.SNone? || (x.SSome? && IsA(e, x.inner))
    case Variant(ss) => x.SAlt? && |ss| < 256 && x.tag < |ss| && IsA(ss[x.tag], x.alt)
  }

  // ---------------------------------------------------------------- numbers

  function Pow256(k: nat): nat { if k == 0 then 1 else 256 * Pow256(k - 1) }

  /** `k` bytes, lowest first. */
  function LittleEndian(n: nat, k: nat): (b: seq<byte>)
    ensures |b| == k
  {
    if k == 0 then [] else [(n % 256) as byte] + LittleEndian(n / 256, k - 1)
  }

  function FromLittleEndian(b: seq<byte>): nat {
    if b == [] then 0 else b[0] as nat + 256 * FromLittleEndian(b[1..])
  }

  lemma {:induction false} NumberRoundTrip(n: nat, k: nat)
    requires n < Pow256(k)
    ensures FromLittleEndian(LittleEndian(n, k)) == n
    decreases k
  {
    if k > 0 {
      NumberRoundTrip(n / 256, k - 1);
    }
  }

  const ESCAPE: nat := 0xffffffff

  function SavedSize(n: nat): seq<byte> {
    if n < ESCAPE then LittleEndian(n, 4) else LittleEndian(ESCAPE, 4) + LittleEndian(n, 8)
  }

  // ---------------------------------------------------------------- saving

  ghost function Saved(s: Schema, x: Stored): seq<byte>
    requires IsA(s, x)
    decreases s, 1, 0
  {
    match s
    case Pod(_) => x.bytes
    case Vec(e) => SavedSize(|x.items|) + SavedAll(e, x.items)
    case Arr(e, _) => SavedAll(e, x.items)
    case Pair(a, b) => Saved(a, x.first) + Saved(b, x.second)
    case Tuple(ss) => SavedTuple(s, x.items, |ss|)
    case SetOf(e) => SavedSize(|x.members|) + SavedAll(e, x.members)
    case MapOf(k, v) => SavedSize(|x.entries|) + SavedEntries(s, x.entries)
    case Opt(e) => if x.SNone? then [0] else [1] + Saved(e, x.inner)
    case Variant(ss) => [x.tag as byte] + Saved(ss[x.tag], x.alt)
  }

  ghost function SavedAll(e: Schema, items: seq<Stored>): seq<byte>
    requires forall i :: 0 <= i < |items| ==> IsA(e, items[i])
    decreases e, 2, |items|
  {
    if items == [] then [] else Saved(e, items[0]) + SavedAll(e, items[1..])
  }

  /** The first `n` components, last first. */
  ghost function SavedTuple(s: Schema, items: seq<Stored>, n: nat): seq<byte>
    requires s.Tuple? && n <= |s.items| == |items| && forall i :: 0 <= i < |items| ==> IsA(s.items[i], items[i])
    decreases s, 0, n
  {
    if n == 0 then [] else Saved(s.items[n - 1], items[n - 1]) + SavedTuple(s, items, n - 1)
  }

  ghost predicate IsEntry(s: Schema, x: Stored)
    requires s.MapOf?
    decreases s, 0, 0
  {
    x.SPair? && IsA(s.key, x.first) && IsA(s.mapped, x.second)
  }

  ghost function SavedEntries(s: Schema, entries: seq<Stored>): seq<byte>
    requires s.MapOf? && forall i :: 0 <= i < |entries| ==> IsEntry(s, entries[i])
    decreases s, 0, |entries|
  {
    if entries == [] then []
    else
      assert IsEntry(s, entries[0]);
      Saved(s.key, entries[0].first) + Saved(s.mapped, entries[0].second) + SavedEntries(s, entries[1..])
  }

  lemma Assoc(a: seq<byte>, b: seq<byte>, c: seq<byte>)
    ensures (a + b) + c == a + (b + c)
  {}

  // ---------------------------------------------------------------- loading

  type Input = seq<byte>

  function LoadBytes(n: nat, input: Input): Result<(seq<byte>, Input), Error> {
    if |input| < n then Err(Eof) else Ok((input[..n], input[n..]))
  }

  function LoadSize(input: Input): Result<(nat, Input), Error> {
    match LoadBytes(4, input)
    case Err(e) => Err(e)
    case Ok((b, rest)) =>
      if FromLittleEndian(b) != ESCAPE then Ok((FromLittleEndian(b), rest))
      else
        match LoadBytes(8, rest)
        case Err(e) => Err(e)
        case Ok((b, rest)) => Ok((FromLittleEndian(b), rest))
  }

  /** The value a fresh object of the type holds. */
  function Default(s: Schema): Value {
    match s
    case Pod(n) => Bytes(seq(n, _ => 0))
    case Vec(_) => List([])
    case Arr(e, n) => List(seq(n, _ => Default(e)))
    case Pair(a, b) => Both(Default(a), Default(b))
    case Tuple(ss) => List(seq(|ss|, i requires 0 <= i < |ss| => Default(ss[i])))
    case SetOf(_) => SetV({})
    case MapOf(_, _) => MapV(map[])
    case Opt(_) => Nothing
    case Variant(ss) => if ss == [] then Nothing else Alt(0, Default(ss[0]))
  }

  /** What the `i`-th element held before. */
  function ItemTarget(e: Schema, target: Value, i: nat): Value {
    if target.List? && i < |target.items| then target.items[i] else Default(e)
  }

  /** Loads over `target`; answers the value and what is left of the input. */
  ghost function Load(s: Schema, target: Value, input: Input): Result<(Value, Input), Error>
    decreases s, 1, 0
  {
    match s
    case Pod(n) =>
      (match LoadBytes(n, input)
       case Err(e) => Err(e)
       case Ok((b, rest)) => Ok((Bytes(b), rest)))
    case Vec(e) =>
      (match LoadSize(input)
       case Err(err) => Err(err)
       case Ok((n, rest)) => AsList(LoadAll(e, n, 0, target, rest)))
    case Arr(e, n) => AsList(LoadAll(e, n, 0, target, input))
    case Pair(a, b) => LoadPair(s, target, input)
    case Tuple(ss) => AsList(LoadTuple(s, |ss|, target, input))
    case SetOf(e) =>
      (match LoadSize(input)
       case Err(err) => Err(err)
       case Ok((n, rest)) => LoadMembers(e, n, Default(e), {}, rest))
    case MapOf(k, v) =>
      (match LoadSize(input)
       case Err(err) => Err(err)
       case Ok((n, rest)) => LoadEntries(s, n, Both(Default(k), Default(v)), map[], rest))
    case Opt(e) =>
      (match LoadBytes(1, input)
       case Err(err) => Err(err)
       case Ok((b, rest)) => if b[0] == 0 then Ok((Nothing, rest)) else Wrapped(Load(e, Default(e), rest), v => Just(v)))
    case Variant(ss) =>
      (match LoadBytes(1, input)
       case Err(err) => Err(err)
       case Ok((b, rest)) =>
         if b[0] as nat >= |ss| then Err(BadTag)
         else Wrapped(Load(ss[b[0]], Default(ss[b[0]]), rest), v => Alt(b[0] as nat, v)))
  }

  function Wrapped(r: Result<(Value, Input), Error>, wrap: Value -> Value): Result<(Value, Input), Error> {
    match r
    case Err(e) => Err(e)
    case Ok((v, rest)) => Ok((wrap(v), rest))
  }

  function AsList(r: Result<(seq<Value>, Input), Error>): Result<(Value, Input), Error> {
    match r
    case Err(e) => Err(e)
    case Ok((items, rest)) => Ok((List(items), rest))
  }

  ghost function LoadPair(s: Schema, target: Value, input: Input): Result<(Value, Input), Error>
    requires s.Pair? || s.MapOf?
    decreases s, 0, 0
  {
    var (a, b) := if s.Pair? then (s.first, s.second) else (s.key, s.mapped);
    match Load(a, if target.Both? then target.first else Default(a), input)
    case Err(e) => Err(e)
    case Ok((x, rest)) => Wrapped(Load(b, if target.Both? then target.second else Default(b), rest), y => Both(x, y))
  }

  ghost function LoadAll(e: Schema, n: nat, i: nat, target: Value, input: Input): Result<(seq<Value>, Input), Error>
    decreases e, 2, n
  {
    if n == 0 then Ok(([], input))
    else
      match Load(e, ItemTarget(e, target, i), input)
      case Err(err) => Err(err)
      case Ok((v, rest)) =>
        match LoadAll(e, n - 1, i + 1, target, rest)
        case Err(err) => Err(err)
        case Ok((vs, rest)) => Ok(([v] + vs, rest))
  }

  ghost function LoadTuple(s: Schema, n: nat, target: Value, input: Input): Result<(seq<Value>, Input), Error>
    requires s.Tuple? && n <= |s.items|
    decreases s, 0, n
  {
    if n == 0 then Ok(([], input))
    else
      match Load(s.items[n - 1], ItemTarget(s.items[n - 1], target, n - 1), input)
      case Err(err) => Err(err)
      case Ok((v, rest)) =>
        match LoadTuple(s, n - 1, target, rest)
        case Err(err) => Err(err)
        case Ok((vs, rest)) => Ok((vs + [v], rest))
  }

  /** One variable `v` is loaded over and over and inserted. */
  ghost function LoadMembers(e: Schema, n: nat, v: Value, done: set<Value>, input: Input): Result<(Value, Input), Error>
    decreases e, 2, n
  {
    if n == 0 then Ok((SetV(done), input))
    else
      match Load(e, v, input)
      case Err(err) => Err(err)
      case Ok((v', rest)) => LoadMembers(e, n - 1, v', done + {v'}, rest)
  }

  function Inserted(m: map<Value, Value>, v: Value): map<Value, Value> {
    if v.Both? && v.first !in m then m[v.first := v.second] else m
  }

  ghost function LoadEntries(s: Schema, n: nat, v: Value, done: map<Value, Value>, input: Input): Result<(Value, Input), Error>
    requires s.MapOf?
    decreases s, 0, n + 1
  {
    if n == 0 then Ok((MapV(done), input))
    else
      match LoadPair(s, v, input)
      case Err(err) => Err(err)
      case Ok((v', rest)) => LoadEntries(s, n - 1, v', Inserted(done, v'), rest)
  }
}
