/** The bytes of the format, said without the functions that write them. */
module SaveLoadLayout {
  import opened SaveLoad

  /** Four bytes, lowest first. */
  ghost function Word(b: seq<byte>): nat
    requires |b| == 4
  {
    b[0] as nat + 0x100 * b[1] as nat + 0x1_0000 * b[2] as nat + 0x100_0000 * b[3] as nat
  }

  lemma OneByte(b: seq<byte>, rest: seq<byte>)
    requires b != [] && rest == b[1..]
    ensures FromLittleEndian(b) == b[0] as nat + 256 * FromLittleEndian(rest)
  {}

  lemma FromWord(b: seq<byte>)
    requires |b| >= 4
    ensures FromLittleEndian(b) == Word(b[..4]) + 0x1_0000_0000 * FromLittleEndian(b[4..])
  {
    OneByte(b, b[1..]);
    OneByte(b[1..], b[2..]);
    OneByte(b[2..], b[3..]);
    OneByte(b[3..], b[4..]);
  }

  lemma Powers()
    ensures Pow256(4) == 0x1_0000_0000 && Pow256(8) == 0x1_0000_0000_0000_0000
  {
    assert Pow256(2) == 0x1_0000;
    assert Pow256(3) == 0x100_0000;
    assert Pow256(4) == 0x1_0000_0000;
    assert Pow256(5) == 0x100_0000_0000;
    assert Pow256(6) == 0x1_0000_0000_0000;
    assert Pow256(7) == 0x100_0000_0000_0000;
  }

  lemma FourBytes(n: nat)
    requires n < 0x1_0000_0000
    ensures Word(LittleEndian(n, 4)) == n
  {
    Powers();
    NumberRoundTrip(n, 4);
    var b := LittleEndian(n, 4);
    assert b[..4] == b && b[4..] == [];
    FromWord(b);
  }

  lemma EightBytes(n: nat)
    requires n < 0x1_0000_0000_0000_0000
    ensures Word(LittleEndian(n, 8)[..4]) + 0x1_0000_0000 * Word(LittleEndian(n, 8)[4..]) == n
  {
    Powers();
    NumberRoundTrip(n, 8);
    var b := LittleEndian(n, 8);
    FromWord(b);
    assert b[4..][..4] == b[4..] && b[4..][4..] == [];
    FromWord(b[4..]);
  }

  /** A size takes four bytes; from 2^32 - 1 on it takes four bytes of all ones and eight for the size. */
  lemma SizeBytes(n: nat)
    requires n < 0x1_0000_0000_0000_0000
    ensures n < 0xffff_ffff ==> |SavedSize(n)| == 4 && Word(SavedSize(n)) == n
    ensures n >= 0xffff_ffff ==>
      var b := SavedSize(n);
      && |b| == 12 && (forall i :: 0 <= i < 4 ==> b[i] == 0xff)
      && Word(b[4..8]) + 0x1_0000_0000 * Word(b[8..]) == n
  {
    if n < 0xffff_ffff {
      FourBytes(n);
    } else {
      var head, tail := LittleEndian(0xffff_ffff, 4), LittleEndian(n, 8);
      FourBytes(0xffff_ffff);
      AllOnes(head);
      EightBytes(n);
      assert SavedSize(n) == head + tail;
      assert (head + tail)[4..8] == tail[..4] && (head + tail)[8..] == tail[4..];
    }
  }

  lemma AllOnes(b: seq<byte>)
    requires |b| == 4 && Word(b) == 0xffff_ffff
    ensures forall i :: 0 <= i < 4 ==> b[i] == 0xff
  {}

  // ---------------------------------------------------------------- composite values

  lemma Flushed(b: seq<byte>)
    ensures b + [] == b == [] + b
  {}

  lemma {:induction false} ElementsAppend(e: Schema, items: seq<Stored>, y: Stored)
    requires IsA(e, y) && forall i :: 0 <= i < |items| ==> IsA(e, items[i])
    ensures SavedAll(e, items + [y]) == SavedAll(e, items) + Saved(e, y)
    decreases |items|
  {
    var all := items + [y];
    if items == [] {
      assert all[0] == y && all[1..] == [];
      Flushed(Saved(e, y));
    } else {
      assert all[0] == items[0] && all[1..] == items[1..] + [y];
      ElementsAppend(e, items[1..], y);
      Assoc(Saved(e, items[0]), SavedAll(e, items[1..]), Saved(e, y));
    }
  }

  lemma {:induction false} EntriesAppend(s: Schema, entries: seq<Stored>, y: Stored)
    requires s.MapOf? && IsEntry(s, y) && forall i :: 0 <= i < |entries| ==> IsEntry(s, entries[i])
    ensures SavedEntries(s, entries + [y]) == SavedEntries(s, entries) + Saved(s.key, y.first) + Saved(s.mapped, y.second)
    decreases |entries|
  {
    var all := entries + [y];
    if entries == [] {
      assert all[1..] == [];
    } else {
      assert all[0] == entries[0] && all[1..] == entries[1..] + [y];
      EntriesAppend(s, entries[1..], y);
    }
  }

  /** What follows the size of a list. */
  ghost function Body(e: Schema, items: seq<Stored>): seq<byte>
    requires IsA(Vec(e), SList(items))
  {
    Saved(Vec(e), SList(items))[|SavedSize(|items|)|..]
  }

  /** A list or set is its size and its elements one after the other; one more element goes last. */
  lemma ListLayout(e: Schema, items: seq<Stored>, y: Stored)
    requires IsA(Vec(e), SList(items)) && IsA(e, y) && Fits(|items| + 1)
    ensures Saved(Vec(e), SList([])) == SavedSize(0) == Saved(SetOf(e), SSet([]))
    ensures IsA(Vec(e), SList(items + [y]))
    ensures Saved(Vec(e), SList(items + [y])) == SavedSize(|items| + 1) + Body(e, items) + Saved(e, y)
    ensures IsA(SetOf(e), SSet(items)) && Saved(SetOf(e), SSet(items)) == Saved(Vec(e), SList(items))
  {
    ElementsAppend(e, items, y);
    assert Body(e, items) == SavedAll(e, items);
    Assoc(SavedSize(|items| + 1), SavedAll(e, items), Saved(e, y));
  }

  /** A pair is its first component, then its second; a map of one entry is a list of one pair. */
  lemma PairLayout(a: Schema, b: Schema, x: Stored, y: Stored)
    requires IsA(a, x) && IsA(b, y)
    ensures Saved(Pair(a, b), SPair(x, y)) == Saved(a, x) + Saved(b, y)
    ensures IsA(MapOf(a, b), SMap([SPair(x, y)])) && Saved(MapOf(a, b), SMap([SPair(x, y)])) == SavedSize(1) + (Saved(a, x) + Saved(b, y))
  {
    var s := MapOf(a, b);
    assert Fits(1) by { Powers(); }
    assert IsEntry(s, SPair(x, y));
    EntriesAppend(s, [], SPair(x, y));
    assert [] + [SPair(x, y)] == [SPair(x, y)];
  }

  /** One more component of a tuple goes first. */
  lemma {:induction false} TupleAppend(s: Schema, t: Schema, items: seq<Stored>, y: Stored, n: nat)
    requires s.Tuple? && t.Tuple? && |t.items| == |s.items| + 1 && s.items <= t.items
    requires |items| == |s.items| && n <= |items| && IsA(t.items[|items|], y)
    requires forall i :: 0 <= i < |items| ==> IsA(s.items[i], items[i])
    ensures SavedTuple(t, items + [y], n) == SavedTuple(s, items, n)
  {
    if n > 0 { TupleAppend(s, t, items, y, n - 1); }
  }

  lemma TupleLayout(ss: seq<Schema>, e: Schema, items: seq<Stored>, y: Stored)
    requires IsA(Tuple(ss), SList(items)) && IsA(e, y)
    ensures IsA(Tuple(ss + [e]), SList(items + [y]))
    ensures Saved(Tuple(ss + [e]), SList(items + [y])) == Saved(e, y) + Saved(Tuple(ss), SList(items))
  {
    TupleAppend(Tuple(ss), Tuple(ss + [e]), items, y, |ss|);
  }

  /** An optional value has a leading flag, an alternative a leading tag of one byte. */
  lemma FlagLayout(e: Schema, alts: seq<Schema>, tag: nat, x: Stored)
    requires IsA(e, x) && tag < |alts| < 256 && alts[tag] == e
    ensures Saved(Opt(e), SNone) == [0] && Saved(Opt(e), SSome(x)) == [1] + Saved(e, x)
    ensures Saved(Variant(alts), SAlt(tag, x)) == [tag as byte] + Saved(e, x)
  {}
}
