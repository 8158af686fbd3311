/** The order in which sets and maps are iterated does not matter, at any depth. */
module SaveLoadOrder {
  import opened Wrappers
  import opened SaveLoad
  import opened SaveLoadTheory

  /** `perm` and `inv` pair the positions of two lists one to one. */
  ghost predicate Pairing(perm: seq<nat>, inv: seq<nat>, n: nat, m: nat) {
    && |perm| == n && |inv| == m
    && (forall i :: 0 <= i < n ==> perm[i] < m && inv[perm[i]] == i)
    && (forall j :: 0 <= j < m ==> inv[j] < n && perm[inv[j]] == j)
  }

  /** A map in memory has one entry per key. */
  ghost predicate OneEntryPerKey(entries: seq<Stored>) {
    && (forall i :: 0 <= i < |entries| ==> entries[i].SPair?)
    && (forall i, j :: 0 <= i < j < |entries| ==> Abs(entries[i].first) != Abs(entries[j].first))
  }

  /** Equal up to the order of set members and map entries, at any depth. */
  ghost predicate Same(x: Stored, y: Stored)
    decreases x, 1
  {
    match x
    case SBytes(_) => x == y
    case SList(xs) => y.SList? && |xs| == |y.items| && forall i :: 0 <= i < |xs| ==> Same(xs[i], y.items[i])
    case SPair(a, b) => y.SPair? && Same(a, y.first) && Same(b, y.second)
    case SSet(xs) =>
      && y.SSet?
      && exists perm, inv :: SamePaired(x, xs, y.members, perm, inv)
    case SMap(xs) =>
      && y.SMap? && OneEntryPerKey(xs)
      && exists perm, inv :: SamePaired(x, xs, y.entries, perm, inv)
    case SNone => y.SNone?
    case SSome(v) => y.SSome? && Same(v, y.inner)
    case SAlt(tag, v) => y.SAlt? && y.tag == tag && Same(v, y.alt)
  }

  /** The elements of container `x` are, one to one, the same as those of another. */
  ghost predicate SamePaired(x: Stored, xs: seq<Stored>, ys: seq<Stored>, perm: seq<nat>, inv: seq<nat>)
    requires x == SSet(xs) || x == SMap(xs)
    decreases x, 0
  {
    Pairing(perm, inv, |xs|, |ys|) && forall i :: 0 <= i < |xs| ==> Same(xs[i], ys[perm[i]])
  }

  // ---------------------------------------------------------------- reordering keeps the meaning

  lemma {:induction false} SameMeaning(x: Stored, y: Stored)
    requires Same(x, y)
    ensures Abs(x) == Abs(y)
    decreases x, 1
  {
    match x
    case SBytes(_) =>
    case SList(xs) =>
      forall i | 0 <= i < |xs| ensures Abs(xs[i]) == Abs(y.items[i]) { SameMeaning(xs[i], y.items[i]); }
      assert AbsAll(xs) == AbsAll(y.items);
    case SPair(a, b) => SameMeaning(a, y.first); SameMeaning(b, y.second);
    case SSet(xs) =>
      var perm, inv :| SamePaired(x, xs, y.members, perm, inv);
      PairedMeaning(x, xs, y.members, perm, inv);
      PairedSets(xs, y.members, perm, inv);
    case SMap(xs) =>
      var perm, inv :| SamePaired(x, xs, y.entries, perm, inv);
      PairedMeaning(x, xs, y.entries, perm, inv);
      PairedMaps(xs, y.entries, perm, inv);
    case SNone =>
    case SSome(v) => SameMeaning(v, y.inner);
    case SAlt(_, v) => SameMeaning(v, y.alt);
  }

  lemma PairedMeaning(x: Stored, xs: seq<Stored>, ys: seq<Stored>, perm: seq<nat>, inv: seq<nat>)
    requires (x == SSet(xs) || x == SMap(xs)) && SamePaired(x, xs, ys, perm, inv)
    ensures PairedAbs(xs, ys, perm, inv)
    decreases x, 0
  {
    forall i | 0 <= i < |xs|
      ensures Abs(xs[i]) == Abs(ys[perm[i]])
    {
      SameMeaning(xs[i], ys[perm[i]]);
    }
  }

  ghost predicate PairedAbs(xs: seq<Stored>, ys: seq<Stored>, perm: seq<nat>, inv: seq<nat>) {
    Pairing(perm, inv, |xs|, |ys|) && forall i :: 0 <= i < |xs| ==> Abs(xs[i]) == Abs(ys[perm[i]])
  }

  lemma PairedSets(xs: seq<Stored>, ys: seq<Stored>, perm: seq<nat>, inv: seq<nat>)
    requires PairedAbs(xs, ys, perm, inv)
    ensures AbsSet(xs) == AbsSet(ys)
  {
    forall v | v in AbsSet(xs)
      ensures v in AbsSet(ys)
    {
      var i :| 0 <= i < |xs| && Abs(xs[i]) == v;
      assert Abs(ys[perm[i]]) == v;
    }
    forall v | v in AbsSet(ys)
      ensures v in AbsSet(xs)
    {
      var j :| 0 <= j < |ys| && Abs(ys[j]) == v;
      assert Abs(xs[inv[j]]) == v;
    }
  }

  // ---------------------------------------------------------------- maps by lookup

  /** Entry `i` is the one kept for its key. */
  lemma {:induction false} EntryFound(entries: seq<Stored>, n: nat, i: nat)
    requires OneEntryPerKey(entries) && i < n <= |entries|
    ensures var (m, e) := (AbsEntries(SMap(entries), n), entries[i]);
      Abs(e.first) in m && m[Abs(e.first)] == Abs(e.second)
  {
    var e := entries[n - 1];
    assert e.SPair?;
    if i < n - 1 {
      EntryFound(entries, n - 1, i);
    } else {
      if Abs(e.first) in AbsEntries(SMap(entries), n - 1) {
        var j := KeyHasEntry(entries, n - 1, Abs(e.first));
      }
    }
  }

  lemma {:induction false} KeyHasEntry(entries: seq<Stored>, n: nat, k: Value) returns (i: nat)
    requires OneEntryPerKey(entries) && n <= |entries| && k in AbsEntries(SMap(entries), n)
    ensures i < n && Abs(entries[i].first) == k
  {
    assert entries[n - 1].SPair?;
    if k in AbsEntries(SMap(entries), n - 1) {
      i := KeyHasEntry(entries, n - 1, k);
    } else {
      i := n - 1;
    }
  }

  ghost function AbsMap(entries: seq<Stored>): map<Value, Value> { AbsEntries(SMap(entries), |entries|) }

  /** The map that entries stand for, described by its entries. */
  lemma MapByEntries(entries: seq<Stored>, k: Value)
    requires OneEntryPerKey(entries)
    ensures k in AbsMap(entries) <==> exists i :: 0 <= i < |entries| && Abs(entries[i].first) == k
    ensures forall i :: 0 <= i < |entries| && Abs(entries[i].first) == k ==> k in AbsMap(entries) && AbsMap(entries)[k] == Abs(entries[i].second)
  {
    if k in AbsMap(entries) {
      var i := KeyHasEntry(entries, |entries|, k);
    }
    forall i | 0 <= i < |entries| && Abs(entries[i].first) == k
      ensures k in AbsMap(entries) && AbsMap(entries)[k] == Abs(entries[i].second)
    {
      EntryFound(entries, |entries|, i);
    }
  }

  /** An entry stands for a pair of a key and a value. */
  lemma PairedEntry(e: Stored, f: Stored)
    requires e.SPair? && Abs(e) == Abs(f)
    ensures f.SPair? && Abs(e.first) == Abs(f.first) && Abs(e.second) == Abs(f.second)
  {}

  lemma PairedKeys(xs: seq<Stored>, ys: seq<Stored>, perm: seq<nat>, inv: seq<nat>)
    requires PairedAbs(xs, ys, perm, inv) && OneEntryPerKey(xs)
    ensures OneEntryPerKey(ys)
    ensures forall j :: 0 <= j < |ys| ==> ys[j].SPair? && Abs(xs[inv[j]].first) == Abs(ys[j].first) && Abs(xs[inv[j]].second) == Abs(ys[j].second)
  {
    forall j | 0 <= j < |ys|
      ensures ys[j].SPair? && Abs(xs[inv[j]].first) == Abs(ys[j].first) && Abs(xs[inv[j]].second) == Abs(ys[j].second)
    {
      assert perm[inv[j]] == j;
      PairedEntry(xs[inv[j]], ys[j]);
    }
    forall i, j | 0 <= i < j < |ys|
      ensures Abs(ys[i].first) != Abs(ys[j].first)
    {
      assert inv[i] != inv[j];
    }
  }

  lemma PairedMaps(xs: seq<Stored>, ys: seq<Stored>, perm: seq<nat>, inv: seq<nat>)
    requires PairedAbs(xs, ys, perm, inv) && OneEntryPerKey(xs)
    ensures AbsMap(xs) == AbsMap(ys)
  {
    PairedKeys(xs, ys, perm, inv);
    forall k
      ensures k in AbsMap(xs) <==> k in AbsMap(ys)
      ensures k in AbsMap(xs) && k in AbsMap(ys) ==> AbsMap(xs)[k] == AbsMap(ys)[k]
    {
      MapByEntries(xs, k);
      MapByEntries(ys, k);
      if i :| 0 <= i < |xs| && Abs(xs[i].first) == k {
        PairedEntry(xs[i], ys[perm[i]]);
        assert Abs(ys[perm[i]].first) == k;
      }
      if j :| 0 <= j < |ys| && Abs(ys[j].first) == k {
        assert Abs(xs[inv[j]].first) == k;
      }
    }
  }

  // ---------------------------------------------------------------- equal meaning is a reordering

  /** Containers as they are in memory: a set has each member once, a map one entry per key. */
  ghost predicate Proper(x: Stored) {
    match x
    case SBytes(_) => true
    case SList(xs) => forall i :: 0 <= i < |xs| ==> Proper(xs[i])
    case SPair(a, b) => Proper(a) && Proper(b)
    case SSet(xs) => EachOnce(xs) && forall i :: 0 <= i < |xs| ==> Proper(xs[i])
    case SMap(xs) => OneEntryPerKey(xs) && forall i :: 0 <= i < |xs| ==> Proper(xs[i])
    case SNone => true
    case SSome(v) => Proper(v)
    case SAlt(_, v) => Proper(v)
  }

  ghost predicate EachOnce(xs: seq<Stored>) {
    forall i, j :: 0 <= i < j < |xs| ==> Abs(xs[i]) != Abs(xs[j])
  }

  /** Where `v` is in the list. */
  ghost function Position(xs: seq<Stored>, v: Value): (i: nat)
    requires v in AbsSet(xs)
    ensures i < |xs| && Abs(xs[i]) == v
  {
    var i :| 0 <= i < |xs| && Abs(xs[i]) == v; i
  }

  lemma InAbsSet(xs: seq<Stored>, i: nat)
    requires i < |xs|
    ensures Abs(xs[i]) in AbsSet(xs)
  {}

  /** Lists without repetition that have the same members are paired. */
  lemma PairUp(xs: seq<Stored>, ys: seq<Stored>) returns (perm: seq<nat>, inv: seq<nat>)
    requires EachOnce(xs) && EachOnce(ys) && AbsSet(xs) == AbsSet(ys)
    ensures PairedAbs(xs, ys, perm, inv)
  {
    forall i | 0 <= i < |xs| ensures Abs(xs[i]) in AbsSet(ys) { InAbsSet(xs, i); }
    forall j | 0 <= j < |ys| ensures Abs(ys[j]) in AbsSet(xs) { InAbsSet(ys, j); }
    perm := seq(|xs|, i requires 0 <= i < |xs| && Abs(xs[i]) in AbsSet(ys) => Position(ys, Abs(xs[i])));
    inv := seq(|ys|, j requires 0 <= j < |ys| && Abs(ys[j]) in AbsSet(xs) => Position(xs, Abs(ys[j])));
    forall i | 0 <= i < |xs|
      ensures perm[i] < |ys| && Abs(xs[i]) == Abs(ys[perm[i]]) && inv[perm[i]] == i
    {
      assert Abs(xs[inv[perm[i]]]) == Abs(ys[perm[i]]);
    }
    forall j | 0 <= j < |ys|
      ensures inv[j] < |xs| && perm[inv[j]] == j
    {
      assert Abs(ys[perm[inv[j]]]) == Abs(xs[inv[j]]);
    }
  }

  lemma EntriesEachOnce(xs: seq<Stored>)
    requires OneEntryPerKey(xs)
    ensures EachOnce(xs)
  {
    forall i, j | 0 <= i < j < |xs|
      ensures Abs(xs[i]) != Abs(xs[j])
    {
      if Abs(xs[i]) == Abs(xs[j]) { PairedEntry(xs[i], xs[j]); }
    }
  }

  /** Equal maps have equal sets of entries. */
  lemma SameEntries(xs: seq<Stored>, ys: seq<Stored>)
    requires OneEntryPerKey(xs) && OneEntryPerKey(ys) && AbsMap(xs) == AbsMap(ys)
    ensures AbsSet(xs) <= AbsSet(ys)
  {
    forall v | v in AbsSet(xs)
      ensures v in AbsSet(ys)
    {
      var i :| 0 <= i < |xs| && Abs(xs[i]) == v;
      var k := Abs(xs[i].first);
      MapByEntries(xs, k);
      MapByEntries(ys, k);
      var j :| 0 <= j < |ys| && Abs(ys[j].first) == k;
      assert Abs(ys[j]) == Both(k, Abs(ys[j].second));
      assert Abs(xs[i]) == Both(k, Abs(xs[i].second));
      InAbsSet(ys, j);
    }
  }

  /** Values in memory that mean the same differ at most in the order of their containers. */
  lemma {:induction false} MeaningSame(x: Stored, y: Stored)
    requires Proper(x) && Proper(y) && Abs(x) == Abs(y)
    ensures Same(x, y)
    decreases x
  {
    match x
    case SBytes(_) =>
    case SList(xs) =>
      assert |xs| == |AbsAll(xs)| == |AbsAll(y.items)| == |y.items|;
      forall i | 0 <= i < |xs|
        ensures Same(xs[i], y.items[i])
      {
        assert AbsAll(xs)[i] == AbsAll(y.items)[i];
        MeaningSame(xs[i], y.items[i]);
      }
    case SPair(a, b) => MeaningSame(a, y.first); MeaningSame(b, y.second);
    case SSet(xs) =>
      assert AbsSet(xs) == AbsSet(y.members);
      var perm, inv := PairUp(xs, y.members);
      forall i | 0 <= i < |xs| ensures Same(xs[i], y.members[perm[i]]) { MeaningSame(xs[i], y.members[perm[i]]); }
      assert SamePaired(x, xs, y.members, perm, inv);
    case SMap(xs) =>
      assert AbsMap(xs) == AbsMap(y.entries);
      SameEntries(xs, y.entries);
      SameEntries(y.entries, xs);
      EntriesEachOnce(xs);
      EntriesEachOnce(y.entries);
      var perm, inv := PairUp(xs, y.entries);
      forall i | 0 <= i < |xs| ensures Same(xs[i], y.entries[perm[i]]) { MeaningSame(xs[i], y.entries[perm[i]]); }
      assert SamePaired(x, xs, y.entries, perm, inv);
    case SNone =>
    case SSome(v) => MeaningSame(v, y.inner);
    case SAlt(_, v) => MeaningSame(v, y.alt);
  }

  /** What is loaded does not depend on the order in which containers were iterated when saved, nor
      on what the targets held; and only such reorderings load alike. */
  lemma OrderIndependent(s: Schema, x: Stored, y: Stored, target: Value, other: Value, rest: Input)
    requires IsA(s, x) && IsA(s, y)
    ensures Same(x, y) ==> Load(s, target, Saved(s, x) + rest) == Load(s, other, Saved(s, y) + rest)
    ensures Proper(x) && Proper(y) && Load(s, target, Saved(s, x) + rest) == Load(s, other, Saved(s, y) + rest) ==> Same(x, y)
  {
    RoundTrip(s, x, target, rest);
    RoundTrip(s, y, other, rest);
    if Same(x, y) { SameMeaning(x, y); }
    if Proper(x) && Proper(y) && Abs(x) == Abs(y) { MeaningSame(x, y); }
  }
}
