/** Paths as strings in byte order, and maps kept sorted by path. */
module PathOrder {

  predicate Less(a: string, b: string) {
    b != "" && (a == "" || a[0] < b[0] || (a[0] == b[0] && Less(a[1..], b[1..])))
  }

  lemma {:induction false} LessTotal(a: string, b: string)
    ensures !(Less(a, b) && Less(b, a)) && (a == b || Less(a, b) || Less(b, a)) && (a == b ==> !Less(a, b))
  {
    if a != "" && b != "" && a[0] == b[0] {
      LessTotal(a[1..], b[1..]);
      assert a == [a[0]] + a[1..] && b == [b[0]] + b[1..];
    }
  }

  lemma {:induction false} LessTransitive(a: string, b: string, c: string)
    requires Less(a, b) && Less(b, c)
    ensures Less(a, c)
  {
    if a != "" && a[0] == b[0] == c[0] {
      LessTransitive(a[1..], b[1..], c[1..]);
    }
  }

  lemma {:induction false} PrefixNotGreater(p: string, s: string)
    requires p <= s
    ensures !Less(s, p)
  {
    if p != "" {
      PrefixNotGreater(p[1..], s[1..]);
    }
  }

  // ---------------------------------------------------------------- ordered maps

  datatype Entry = Entry(key: string, index: nat)

  type Entries = seq<Entry>

  ghost predicate Sorted(m: Entries) {
    forall i, j :: 0 <= i < j < |m| ==> Less(m[i].key, m[j].key)
  }

  /** The map that sorted entries stand for. */
  ghost function View(m: Entries): map<string, nat> {
    if m == [] then map[] else View(m[..|m| - 1])[m[|m| - 1].key := m[|m| - 1].index]
  }

  lemma {:induction false} ViewEntry(m: Entries, i: nat)
    requires Sorted(m) && i < |m|
    ensures m[i].key in View(m) && View(m)[m[i].key] == m[i].index
  {
    var n := |m| - 1;
    if i < n {
      ViewEntry(m[..n], i);
      LessTotal(m[i].key, m[n].key);
    }
  }

  lemma {:induction false} ViewKey(m: Entries, k: string)
    requires k in View(m)
    ensures exists i :: 0 <= i < |m| && m[i].key == k
  {
    var n := |m| - 1;
    if m[n].key != k {
      ViewKey(m[..n], k);
      var i :| 0 <= i < n && m[..n][i].key == k;
      assert m[i].key == k;
    }
  }

  /** Index of the first entry not below `k`. */
  function LowerBound(m: Entries, k: string): (b: nat)
    ensures b <= |m|
  {
    if m != [] && Less(m[0].key, k) then 1 + LowerBound(m[1..], k) else 0
  }

  lemma {:induction false} LowerBoundSplits(m: Entries, k: string)
    requires Sorted(m)
    ensures var b := LowerBound(m, k);
      && (forall i :: 0 <= i < b ==> Less(m[i].key, k))
      && (forall i :: b <= i < |m| ==> !Less(m[i].key, k))
  {
    if m != [] {
      if Less(m[0].key, k) {
        LowerBoundSplits(m[1..], k);
      } else {
        forall i | 0 <= i < |m|
          ensures !Less(m[i].key, k)
        {
          if i > 0 && Less(m[i].key, k) { LessTransitive(m[0].key, m[i].key, k); }
        }
      }
    }
  }

  function InsertOrAssign(m: Entries, k: string, index: nat): Entries {
    var b := LowerBound(m, k);
    if b < |m| && m[b].key == k then m[b := Entry(k, index)] else m[..b] + [Entry(k, index)] + m[b..]
  }

  lemma InsertSorted(m: Entries, k: string, index: nat)
    requires Sorted(m)
    ensures Sorted(InsertOrAssign(m, k, index))
  {
    var b, r := LowerBound(m, k), InsertOrAssign(m, k, index);
    LowerBoundSplits(m, k);
    if !(b < |m| && m[b].key == k) {
      forall i, j | 0 <= i < j < |r|
        ensures Less(r[i].key, r[j].key)
      {
        if i == b {
          assert r[j] == m[j - 1];
          LessTotal(k, m[j - 1].key);
          if j - 1 > b { LessTotal(k, m[b].key); LessTransitive(k, m[b].key, m[j - 1].key); }
        }
      }
    }
  }

  lemma {:induction false} ViewConcat(a: Entries, b: Entries)
    ensures View(a + b) == View(a) + View(b)
  {
    if b == [] {
      assert a + b == a;
    } else {
      var n := |b| - 1;
      assert (a + b)[..|a| + n] == a + b[..n];
      ViewConcat(a, b[..n]);
    }
  }

  lemma ViewOne(e: Entry)
    ensures View([e]) == map[e.key := e.index]
  {
    assert [e][..0] == [];
  }

  lemma KeyAbsent(m: Entries, k: string)
    requires forall i :: 0 <= i < |m| ==> m[i].key != k
    ensures k !in View(m)
  {
    if k in View(m) { ViewKey(m, k); }
  }

  /** Entries behind the place of `k`. */
  function Behind(m: Entries, k: string): Entries {
    var b := LowerBound(m, k);
    if b < |m| && m[b].key == k then m[b + 1..] else m[b..]
  }

  lemma BehindLacks(m: Entries, k: string)
    requires Sorted(m)
    ensures k !in View(Behind(m, k))
  {
    var b, after := LowerBound(m, k), Behind(m, k);
    LowerBoundSplits(m, k);
    LessTotal(k, k);
    forall i | 0 <= i < |after|
      ensures after[i].key != k
    {
      if b < |m| && m[b].key == k {
        assert Less(k, after[i].key);
      } else if i > 0 {
        assert Less(m[b].key, after[i].key);
      }
    }
    KeyAbsent(after, k);
  }

  lemma ViewAround(before: Entries, e: Entry, after: Entries)
    requires e.key !in View(after)
    ensures View(before + [e] + after) == (View(before) + View(after))[e.key := e.index]
  {
    ViewConcat(before + [e], after);
    ViewConcat(before, [e]);
    ViewOne(e);
  }

  lemma Around(m: Entries, b: nat, e: Entry)
    requires b <= |m|
    ensures m == m[..b] + m[b..]
    ensures b < |m| ==> m == m[..b] + [m[b]] + m[b + 1..] && m[b := e] == m[..b] + [e] + m[b + 1..]
  {}

  lemma InsertShape(m: Entries, k: string, index: nat)
    ensures var b := LowerBound(m, k);
      && InsertOrAssign(m, k, index) == m[..b] + [Entry(k, index)] + Behind(m, k)
      && m == if b < |m| && m[b].key == k then m[..b] + [m[b]] + Behind(m, k) else m[..b] + Behind(m, k)
  {
    Around(m, LowerBound(m, k), Entry(k, index));
  }

  /** Inserting is updating the map. */
  lemma InsertUpdates(m: Entries, k: string, index: nat)
    requires Sorted(m)
    ensures View(InsertOrAssign(m, k, index)) == View(m)[k := index]
  {
    var b := LowerBound(m, k);
    var before, e, after := m[..b], Entry(k, index), Behind(m, k);
    InsertShape(m, k, index);
    BehindLacks(m, k);
    ViewAround(before, e, after);
    if b < |m| && m[b].key == k {
      ViewAround(before, m[b], after);
    } else {
      ViewConcat(before, after);
    }
  }
}
