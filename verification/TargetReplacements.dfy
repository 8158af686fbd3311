/** Semantic replacements of export targets, looked up by path prefix. */
module TargetReplacements {
  import opened PathOrder
  import opened Wrappers

  type Semantics = seq<string>

  datatype Replacement = Replacement(replacement: Semantics, addition: Semantics)

  datatype PathPrefix = PathPrefix(path: string, excepts: seq<string>)

  datatype Spec = Spec(replacePrefixes: seq<PathPrefix>, skipPrefixes: seq<PathPrefix>, replacement: Semantics, addition: Semantics)

  /** The answer of a lookup; links have no path of their own to look up. */
  datatype Answer = Failure | NoReplacement | Found(index: nat)

  // ---------------------------------------------------------------- paths

  const PREFIX_LENGTH := 3

  predicate IsTypedPath(path: string) { |path| > 1 && path[0] == '$' }

  function CutType(path: string): Option<string> {
    if |path| > 1 && path[1] == 'L' then None
    else Some(if |path| < PREFIX_LENGTH then "" else path[PREFIX_LENGTH..])
  }

  /** The position of the last separator. */
  function LastSeparator(path: string): (p: Option<nat>)
    ensures p.Some? ==> p.value < |path| && path[p.value] == '/' && forall i :: p.value < i < |path| ==> path[i] != '/'
    ensures p.None? ==> '/' !in path
  {
    if path == "" then None
    else
      var n := |path| - 1;
      if path[n] == '/' then Some(n)
      else
        var p := LastSeparator(path[..n]);
        assert p.None? ==> forall i :: 0 <= i < n ==> path[i] == path[..n][i] != '/';
        p
  }

  function FirstSeparator(path: string): (p: Option<nat>)
    ensures p.Some? ==> p.value < |path| && path[p.value] == '/' && forall i :: 0 <= i < p.value ==> path[i] != '/'
    ensures p.None? ==> '/' !in path
  {
    if path == "" then None
    else if path[0] == '/' then Some(0)
    else match FirstSeparator(path[1..]) case None => None case Some(p) => Some(p + 1)
  }

  // ---------------------------------------------------------------- the simple rule

  datatype Verdict = Replace(index: nat) | Skip | Unmatched

  /** Walk up one component at a time; a replacement beats a skip at the same level. */
  function Walk(replaced: map<string, nat>, skipped: map<string, nat>, path: string): Verdict
    decreases |path|
  {
    if path in replaced then Replace(replaced[path])
    else if path in skipped then Skip
    else
      match LastSeparator(path)
      case None => Unmatched
      case Some(p) => Walk(replaced, skipped, path[..p])
  }

  /** What a lookup should answer. */
  function Expected(replaced: map<string, nat>, skipped: map<string, nat>, global: Option<nat>, path: string): Answer {
    var none := if global.Some? then Found(global.value) else NoReplacement;
    if replaced == map[] && skipped == map[] then none
    else if IsTypedPath(path) && CutType(path).None? then Failure
    else
      match Walk(replaced, skipped, if IsTypedPath(path) then CutType(path).value else path)
      case Replace(i) => Found(i)
      case Skip => NoReplacement
      case Unmatched => none
  }

  /** `q` is `path` or a directory above it. */
  ghost predicate IsAbove(q: string, path: string) {
    q <= path && (|q| < |path| ==> path[|q|] == '/')
  }

  ghost predicate Unlisted(replaced: map<string, nat>, skipped: map<string, nat>, q: string) {
    q !in replaced && q !in skipped
  }

  /** `q` is the nearest listed directory. */
  ghost predicate Decides(replaced: map<string, nat>, skipped: map<string, nat>, q: string, path: string) {
    && IsAbove(q, path) && !Unlisted(replaced, skipped, q)
    && forall r :: IsAbove(r, path) && |q| < |r| ==> Unlisted(replaced, skipped, r)
  }

  /** The walk stops at the nearest listed directory, and only there. */
  lemma {:induction false} NearestDecides(replaced: map<string, nat>, skipped: map<string, nat>, path: string)
    ensures Walk(replaced, skipped, path) == Unmatched <==> forall q :: IsAbove(q, path) ==> Unlisted(replaced, skipped, q)
    ensures forall q :: Decides(replaced, skipped, q, path) ==>
      Walk(replaced, skipped, path) == if q in replaced then Replace(replaced[q]) else Skip
    decreases |path|
  {
    assert IsAbove(path, path);
    if path in replaced || path in skipped {
      forall q | Decides(replaced, skipped, q, path)
        ensures q == path
      {}
    } else {
      var p := LastSeparator(path);
      if p.Some? { NearestDecides(replaced, skipped, path[..p.value]); }
      forall q | IsAbove(q, path)
        ensures q == path || (p.Some? && IsAbove(q, path[..p.value]))
      {}
      if p.Some? {
        var up := path[..p.value];
        forall q | IsAbove(q, up)
          ensures IsAbove(q, path)
        {}
      }
    }
  }

  /** The path below its root: `x` for `$S/x` and the like, none for a link. */
  function Untyped(path: string): Option<string> {
    if IsTypedPath(path) then CutType(path) else Some(path)
  }

  lemma UntypedExact(x: string, t: char, path: string)
    ensures t != 'L' ==> Untyped(['$', t, '/'] + x) == Some(x)
    ensures Untyped(['$', 'L'] + x) == None
    ensures path == "" || path[0] != '$' ==> Untyped(path) == Some(path)
  {
    assert (['$', t, '/'] + x)[PREFIX_LENGTH..] == x;
  }

  /** What a lookup should answer, over the tables: the nearest listed directory decides, a skip means no
      replacement, and the global replacement is for paths that nothing decides. */
  ghost predicate Answers(replaced: map<string, nat>, skipped: map<string, nat>, global: Option<nat>, path: string, r: Answer) {
    var p := Untyped(path);
    if replaced == map[] && skipped == map[] then r == GlobalAnswer(global)
    else if p.None? then r == Failure
    else
      && (forall q :: Decides(replaced, skipped, q, p.value) ==> r == if q in replaced then Found(replaced[q]) else NoReplacement)
      && ((forall q :: IsAbove(q, p.value) ==> Unlisted(replaced, skipped, q)) ==> r == GlobalAnswer(global))
  }

  function GlobalAnswer(global: Option<nat>): Answer {
    match global
    case None => NoReplacement
    case Some(i) => Found(i)
  }

  lemma ExpectedAnswers(replaced: map<string, nat>, skipped: map<string, nat>, global: Option<nat>, path: string)
    ensures Answers(replaced, skipped, global, path, Expected(replaced, skipped, global, path))
  {
    if Untyped(path).Some? { NearestDecides(replaced, skipped, Untyped(path).value); }
  }

  // ---------------------------------------------------------------- adding specifications

  function Paths(prefixes: seq<PathPrefix>): set<string> { set i | 0 <= i < |prefixes| :: prefixes[i].path }

  function Members(keys: seq<string>): set<string> { set i | 0 <= i < |keys| :: keys[i] }

  function Excepts(prefixes: seq<PathPrefix>): set<string> {
    if prefixes == [] then {} else Excepts(prefixes[..|prefixes| - 1]) + Members(prefixes[|prefixes| - 1].excepts)
  }

  ghost function Assigned(m: map<string, nat>, keys: set<string>, index: nat): map<string, nat> {
    map k | k in m.Keys + keys :: if k in keys then index else m[k]
  }

  lemma AssignedOne(m: map<string, nat>, keys: set<string>, k: string, index: nat)
    ensures Assigned(m, keys, index)[k := index] == Assigned(m, keys + {k}, index)
  {}

  lemma AssignedBoth(m: map<string, nat>, a: set<string>, b: set<string>, index: nat)
    ensures Assigned(Assigned(m, a, index), b, index) == Assigned(m, a + b, index)
  {}

  lemma MembersNext(keys: seq<string>, i: nat)
    requires i < |keys|
    ensures Members(keys[..i + 1]) == Members(keys[..i]) + {keys[i]}
  {
    forall k | k in Members(keys[..i + 1])
      ensures k in Members(keys[..i]) + {keys[i]}
    {
      var j :| 0 <= j <= i && keys[..i + 1][j] == k;
      if j < i { assert keys[..i][j] == k; }
    }
    forall k | k in Members(keys[..i]) + {keys[i]}
      ensures k in Members(keys[..i + 1])
    {
      if k == keys[i] { assert keys[..i + 1][i] == k; } else {
        var j :| 0 <= j < i && keys[..i][j] == k;
        assert keys[..i + 1][j] == k;
      }
    }
  }

  method AssignExcepts(m: Entries, keys: seq<string>, index: nat) returns (r: Entries)
    requires Sorted(m)
    ensures Sorted(r) && View(r) == Assigned(View(m), Members(keys), index)
  {
    r := m;
    assert Members(keys[..0]) == {};
    for i := 0 to |keys|
      invariant Sorted(r) && View(r) == Assigned(View(m), Members(keys[..i]), index)
    {
      MembersNext(keys, i);
      AssignedOne(View(m), Members(keys[..i]), keys[i], index);
      InsertSorted(r, keys[i], index);
      InsertUpdates(r, keys[i], index);
      r := InsertOrAssign(r, keys[i], index);
    }
    assert keys[..|keys|] == keys;
  }

  lemma PathsNext(prefixes: seq<PathPrefix>, i: nat)
    requires i < |prefixes|
    ensures Paths(prefixes[..i + 1]) == Paths(prefixes[..i]) + {prefixes[i].path}
    ensures Excepts(prefixes[..i + 1]) == Excepts(prefixes[..i]) + Members(prefixes[i].excepts)
  {
    assert prefixes[..i + 1][..i] == prefixes[..i];
    forall k | k in Paths(prefixes[..i]) + {prefixes[i].path}
      ensures k in Paths(prefixes[..i + 1])
    {
      if k == prefixes[i].path { assert prefixes[..i + 1][i].path == k; } else {
        var j :| 0 <= j < i && prefixes[..i][j].path == k;
        assert prefixes[..i + 1][j].path == k;
      }
    }
    forall k | k in Paths(prefixes[..i + 1])
      ensures k in Paths(prefixes[..i]) + {prefixes[i].path}
    {
      var j :| 0 <= j <= i && prefixes[..i + 1][j].path == k;
      if j < i { assert prefixes[..i][j].path == k; }
    }
  }

  /** Lists the prefixes in one map and their exceptions in the other. */
  method AddPrefixes(own: Entries, other: Entries, prefixes: seq<PathPrefix>, index: nat) returns (own': Entries, other': Entries)
    requires Sorted(own) && Sorted(other)
    ensures Sorted(own') && View(own') == Assigned(View(own), Paths(prefixes), index)
    ensures Sorted(other') && View(other') == Assigned(View(other), Excepts(prefixes), index)
  {
    own', other' := own, other;
    assert Paths(prefixes[..0]) == {};
    for i := 0 to |prefixes|
      invariant Sorted(own') && View(own') == Assigned(View(own), Paths(prefixes[..i]), index)
      invariant Sorted(other') && View(other') == Assigned(View(other), Excepts(prefixes[..i]), index)
    {
      var p := prefixes[i];
      PathsNext(prefixes, i);
      AssignedOne(View(own), Paths(prefixes[..i]), p.path, index);
      AssignedBoth(View(other), Excepts(prefixes[..i]), Members(p.excepts), index);
      InsertSorted(own', p.path, index);
      InsertUpdates(own', p.path, index);
      own' := InsertOrAssign(own', p.path, index);
      other' := AssignExcepts(other', p.excepts, index);
    }
    assert prefixes[..|prefixes|] == prefixes;
  }

  // ---------------------------------------------------------------- cursors over sorted entries

  /** Every entry that may still match `path` or a directory above it lies between the cursors. */
  ghost predicate Within(m: Entries, has: bool, min: nat, max: nat, minPath: string, path: string) {
    && (has ==> min <= max < |m|)
    && forall i :: 0 <= i < |m| && minPath <= m[i].key && m[i].key <= path ==> has && min <= i <= max
  }

  /** Inclusive range of the entries between two paths; `min` is `|m|` if all are below. */
  method GetRange(m: Entries, minPath: string, maxPath: string) returns (min: nat, max: nat)
    requires m != [] && Sorted(m) && minPath <= maxPath
    ensures min <= |m| && Within(m, min < |m|, min, max, minPath, maxPath)
  {
    max := LowerBound(m, maxPath);
    LowerBoundSplits(m, maxPath);
    LowerBoundSplits(m, minPath);
    if max == |m| {
      max := max - 1;
    }
    if |minPath| == |maxPath| {
      min := max;
    } else {
      min := LowerBound(m, minPath);
    }
    forall i | 0 <= i < |m| && minPath <= m[i].key && m[i].key <= maxPath
      ensures min < |m| && min <= i <= max
    {
      MatchInRange(m, minPath, maxPath, i);
    }
    RangeOrdered(m, minPath, maxPath);
  }

  lemma MatchInRange(m: Entries, minPath: string, maxPath: string, i: nat)
    requires Sorted(m) && i < |m| && minPath <= m[i].key && m[i].key <= maxPath
    ensures LowerBound(m, minPath) <= i <= LowerBound(m, maxPath)
    ensures m[i].key == maxPath ==> LowerBound(m, maxPath) == i
  {
    var k := m[i].key;
    LowerBoundSplits(m, maxPath);
    LowerBoundSplits(m, minPath);
    PrefixNotGreater(minPath, k);
    PrefixNotGreater(k, maxPath);
    LessTotal(k, maxPath);
    forall j | 0 <= j < i
      ensures Less(m[j].key, maxPath)
    {
      if k != maxPath { LessTransitive(m[j].key, k, maxPath); }
    }
    var b := LowerBound(m, maxPath);
    assert b < |m| ==> !Less(m[b].key, maxPath);
  }

  lemma RangeOrdered(m: Entries, minPath: string, maxPath: string)
    requires Sorted(m) && minPath <= maxPath
    ensures LowerBound(m, minPath) <= LowerBound(m, maxPath)
  {
    LowerBoundSplits(m, maxPath);
    LowerBoundSplits(m, minPath);
    PrefixNotGreater(minPath, maxPath);
    LessTotal(minPath, maxPath);
    forall j | 0 <= j < LowerBound(m, minPath)
      ensures Less(m[j].key, maxPath)
    {
      if minPath != maxPath { LessTransitive(m[j].key, minPath, maxPath); }
    }
  }

  /** Moves the cursor down to below `path`; answers the entry of `path` if there is one. */
  method Descend(m: Entries, path: string, minPath: string, min: nat, max: nat) returns (hit: Option<nat>, has: bool, max': nat)
    requires Sorted(m) && minPath <= path && Within(m, true, min, max, minPath, path)
    ensures hit.Some? ==> path in View(m) && View(m)[path] == hit.value
    ensures hit.None? ==> path !in View(m) && Within(m, has, min, max', minPath, path)
  {
    max', has := max, true;
    while !Less(m[max'].key, path)
      invariant Within(m, true, min, max', minPath, path)
      decreases max'
    {
      if m[max'].key == path {
        ViewEntry(m, max');
        return Some(m[max'].index), true, max';
      }
      LessTotal(m[max'].key, path);
      NoPrefixAbove(m[max'].key, path);
      if max' == min {
        AbsentOutside(m, false, min, max', minPath, path);
        return None, false, max';
      }
      max' := max' - 1;
    }
    hit := None;
    AbsentBelow(m, min, max', minPath, path);
  }

  lemma NoPrefixAbove(k: string, path: string)
    requires Less(path, k)
    ensures !(k <= path)
  {
    if k <= path { PrefixNotGreater(k, path); }
  }

  lemma AbsentOutside(m: Entries, has: bool, min: nat, max: nat, minPath: string, path: string)
    requires Within(m, has, min, max, minPath, path) && !has && minPath <= path
    ensures path !in View(m)
  {
    forall i | 0 <= i < |m|
      ensures m[i].key != path
    {}
    KeyAbsent(m, path);
  }

  lemma AbsentBelow(m: Entries, min: nat, max: nat, minPath: string, path: string)
    requires Sorted(m) && minPath <= path && Within(m, true, min, max, minPath, path) && Less(m[max].key, path)
    ensures path !in View(m)
  {
    forall i | 0 <= i < |m|
      ensures m[i].key != path
    {
      LessTotal(m[max].key, path);
      if i < max { LessTransitive(m[i].key, m[max].key, path); LessTotal(m[i].key, path); }
    }
    KeyAbsent(m, path);
  }

  // ---------------------------------------------------------------- the table of replacements

  class TTargetReplacements {
    var replacements: seq<Replacement>
    var replaced: Entries
    var skipped: Entries
    var globalReplacement: int
    var bufferSem: Semantics

    ghost predicate Valid()
      reads this
    {
      && Sorted(replaced) && Sorted(skipped) && -1 <= globalReplacement < |replacements|
      && (forall k :: k in View(replaced) ==> View(replaced)[k] < |replacements|)
      && (globalReplacement >= 0 ==> skipped != [])
    }

    function Global(): Option<nat>
      reads this
    {
      if globalReplacement >= 0 then Some(globalReplacement) else None
    }

    constructor ()
      ensures Valid() && replacements == [] && View(replaced) == map[] && View(skipped) == map[] && Global() == None
    {
      replacements, replaced, skipped, globalReplacement, bufferSem := [], [], [], -1, [];
    }

    /** Lists a specification: all its paths lead to its replacement, all its exceptions away from it. */
    method AddSpec(spec: Spec)
      requires Valid()
      modifies this
      ensures Valid() && bufferSem == old(bufferSem)
      ensures replacements == old(replacements) + [Replacement(spec.replacement, spec.addition)]
      ensures View(replaced) == Assigned(old(View(replaced)), Paths(spec.replacePrefixes) + Excepts(spec.skipPrefixes), old(|replacements|))
      ensures View(skipped) == Assigned(old(View(skipped)), Excepts(spec.replacePrefixes) + Paths(spec.skipPrefixes), old(|replacements|))
      ensures Global() == if spec.skipPrefixes != [] then Some(old(|replacements|)) else old(Global())
    {
      var index := |replacements|;
      if spec.skipPrefixes != [] {
        globalReplacement := index;
      }
      replacements := replacements + [Replacement(spec.replacement, spec.addition)];
      var r, s := AddPrefixes(replaced, skipped, spec.replacePrefixes, index);
      var s', r' := AddPrefixes(s, r, spec.skipPrefixes, index);
      AssignedBoth(View(replaced), Paths(spec.replacePrefixes), Excepts(spec.skipPrefixes), index);
      AssignedBoth(View(skipped), Excepts(spec.replacePrefixes), Paths(spec.skipPrefixes), index);
      SkipsListed(skipped, s', Excepts(spec.replacePrefixes), spec.skipPrefixes, index);
      replaced, skipped := r', s';
    }

    /** The answer of the simple rule, found with two cursors instead of one lookup per level. */
    method GetReplacement(path: string) returns (r: Answer)
      requires Valid()
      ensures r == Expected(View(replaced), View(skipped), Global(), path)
      ensures Answers(View(replaced), View(skipped), Global(), path, r)
      ensures r.Found? ==> r.index < |replacements|
    {
      ExpectedAnswers(View(replaced), View(skipped), Global(), path);
      if replaced == [] && skipped == [] {
        return NoReplacement;
      }
      ViewEmpty(replaced);
      ViewEmpty(skipped);
      var p := path;
      if IsTypedPath(p) {
        var cut := CutType(p);
        if cut.None? { return Failure; }
        p := cut.value;
      }
      var v := Lookup(replaced, skipped, p);
      WalkIndex(View(replaced), View(skipped), p, |replacements|);
      match v {
        case Replace(i) => return Found(i);
        case Skip => return NoReplacement;
        case Unmatched =>
          if globalReplacement >= 0 { return Found(globalReplacement); }
          return NoReplacement;
      }
    }

    /** The input semantics replaced, or extended by the additions it lacks. */
    method ApplyReplacement(path: string, inputSem: Semantics) returns (ok: bool, r: Semantics)
      requires Valid()
      modifies this`bufferSem
      ensures Valid()
      ensures Applied(Expected(View(replaced), View(skipped), Global(), path), replacements, inputSem, ok, r)
      ensures Answers(View(replaced), View(skipped), Global(), path, Expected(View(replaced), View(skipped), Global(), path))
    {
      ok := true;
      var e := GetReplacement(path);
      match e {
        case Failure => ok, r := false, inputSem;
        case NoReplacement => r := inputSem;
        case Found(i) =>
          var replacement := replacements[i];
          if replacement.replacement != [] {
            return true, replacement.replacement;
          }
          bufferSem := inputSem;
          for j := 0 to |replacement.addition|
            invariant Extends(bufferSem, inputSem, replacement.addition[..j])
            invariant Valid() && replacements == old(replacements) && replaced == old(replaced)
            invariant skipped == old(skipped) && globalReplacement == old(globalReplacement)
          {
            ExtendsNext(bufferSem, inputSem, replacement.addition, j);
            if replacement.addition[j] !in bufferSem {
              bufferSem := bufferSem + [replacement.addition[j]];
            }
          }
          assert replacement.addition[..|replacement.addition|] == replacement.addition;
          r := bufferSem;
      }
    }
  }

  /** What applying the answer of a lookup yields. */
  ghost predicate Applied(e: Answer, replacements: seq<Replacement>, input: Semantics, ok: bool, r: Semantics) {
    match e
    case Failure => !ok
    case NoReplacement => ok && r == input
    case Found(i) =>
      && ok && i < |replacements|
      && if replacements[i].replacement != [] then r == replacements[i].replacement
         else Extends(r, input, replacements[i].addition)
  }

  /** `r` is the input followed by what it lacks of the additions, each once and in their order. */
  ghost predicate Extends(r: Semantics, input: Semantics, addition: Semantics) {
    && input <= r
    && (forall x :: x in r <==> x in input || x in addition)
    && (forall i, j :: |input| <= j < |r| && 0 <= i < j ==> r[i] != r[j])
    && (forall i, j :: |input| <= i < j < |r| ==> FirstAt(addition, r[i]) < FirstAt(addition, r[j]))
  }

  lemma {:induction false} FirstAtLonger(xs: Semantics, y: string, x: string)
    ensures FirstAt(xs + [y], x) == if x in xs then FirstAt(xs, x) else FirstAt(xs, x) + Bit(x != y)
    ensures x in xs <==> FirstAt(xs, x) < |xs|
  {
    if xs == [] {
      assert xs + [y] == [y];
    } else {
      assert (xs + [y])[0] == xs[0] && (xs + [y])[1..] == xs[1..] + [y];
      FirstAtLonger(xs[1..], y, x);
    }
  }

  function Bit(b: bool): nat { if b then 1 else 0 }

  lemma ExtendsNext(r: Semantics, input: Semantics, addition: Semantics, j: nat)
    requires j < |addition| && Extends(r, input, addition[..j])
    ensures Extends(if addition[j] in r then r else r + [addition[j]], input, addition[..j + 1])
  {
    var before, x := addition[..j], addition[j];
    assert addition[..j + 1] == before + [x];
    forall y { FirstAtLonger(before, x, y); }
  }

  lemma ViewEmpty(m: Entries)
    ensures View(m) == map[] <==> m == []
  {
    if m != [] { assert m[|m| - 1].key in View(m); }
  }

  lemma {:induction false} WalkIndex(replaced: map<string, nat>, skipped: map<string, nat>, path: string, n: nat)
    requires forall k :: k in replaced ==> replaced[k] < n
    ensures Walk(replaced, skipped, path).Replace? ==> Walk(replaced, skipped, path).index < n
    decreases |path|
  {
    if path !in replaced && path !in skipped && LastSeparator(path).Some? {
      WalkIndex(replaced, skipped, path[..LastSeparator(path).value], n);
    }
  }

  /** The two cursors walk down the maps while the path is shortened. */
  method Lookup(replaced: Entries, skipped: Entries, path: string) returns (v: Verdict)
    requires Sorted(replaced) && Sorted(skipped)
    ensures v == Walk(View(replaced), View(skipped), path)
  {
    var firstSeparator := FirstSeparator(path);
    var minPath := if firstSeparator.None? then path else path[..firstSeparator.value];
    var hasReplaces, minReplaces, maxReplaces := Start(replaced, minPath, path);
    var hasSkips, minSkips, maxSkips := Start(skipped, minPath, path);
    var p := path;
    while hasReplaces || hasSkips
      invariant minPath <= p && forall i :: 0 <= i < |minPath| ==> minPath[i] != '/'
      invariant Within(replaced, hasReplaces, minReplaces, maxReplaces, minPath, p)
      invariant Within(skipped, hasSkips, minSkips, maxSkips, minPath, p)
      invariant Walk(View(replaced), View(skipped), p) == Walk(View(replaced), View(skipped), path)
      decreases |p|
    {
      var hit: Option<nat> := None;
      if hasReplaces {
        hit, hasReplaces, maxReplaces := Descend(replaced, p, minPath, minReplaces, maxReplaces);
        if hit.Some? { return Replace(hit.value); }
      } else {
        AbsentOutside(replaced, hasReplaces, minReplaces, maxReplaces, minPath, p);
      }
      if hasSkips {
        hit, hasSkips, maxSkips := Descend(skipped, p, minPath, minSkips, maxSkips);
        if hit.Some? { return Skip; }
      } else {
        AbsentOutside(skipped, hasSkips, minSkips, maxSkips, minPath, p);
      }
      var lastSeparator := LastSeparator(p);
      if lastSeparator.None? {
        return Unmatched;
      }
      var up := p[..lastSeparator.value];
      PrefixStays(minPath, p, lastSeparator.value);
      WithinUp(replaced, hasReplaces, minReplaces, maxReplaces, minPath, p, up);
      WithinUp(skipped, hasSkips, minSkips, maxSkips, minPath, p, up);
      p := up;
    }
    NoneLeft(replaced, skipped, minPath, p, minReplaces, maxReplaces, minSkips, maxSkips);
    v := Unmatched;
  }

  lemma PrefixStays(minPath: string, p: string, last: nat)
    requires minPath <= p && last < |p| && p[last] == '/' && forall i :: 0 <= i < |minPath| ==> minPath[i] != '/'
    ensures minPath <= p[..last]
  {
    assert last >= |minPath|;
  }

  lemma WithinUp(m: Entries, has: bool, min: nat, max: nat, minPath: string, p: string, up: string)
    requires Within(m, has, min, max, minPath, p) && up <= p
    ensures Within(m, has, min, max, minPath, up)
  {}

  method Start(m: Entries, minPath: string, path: string) returns (has: bool, min: nat, max: nat)
    requires Sorted(m) && minPath <= path
    ensures Within(m, has, min, max, minPath, path)
  {
    has, min, max := false, 0, 0;
    if m != [] {
      min, max := GetRange(m, minPath, path);
      has := min < |m|;
    }
  }

  /** With both cursors exhausted no directory above is listed. */
  lemma {:induction false} NoneLeft(r: Entries, s: Entries, minPath: string, p: string, a: nat, b: nat, c: nat, d: nat)
    requires Within(r, false, a, b, minPath, p) && Within(s, false, c, d, minPath, p)
    requires minPath <= p && forall i :: 0 <= i < |minPath| ==> minPath[i] != '/'
    ensures Walk(View(r), View(s), p) == Unmatched
    decreases |p|
  {
    AbsentOutside(r, false, a, b, minPath, p);
    AbsentOutside(s, false, c, d, minPath, p);
    var last := LastSeparator(p);
    if last.Some? {
      NoneLeft(r, s, minPath, p[..last.value], a, b, c, d);
    }
  }

  /** The early return of a lookup is safe: where there are prefixes to skip, the map lists them. */
  lemma SkipsListed(was: Entries, now: Entries, keys: set<string>, prefixes: seq<PathPrefix>, index: nat)
    requires View(now) == Assigned(View(was), keys + Paths(prefixes), index)
    ensures was != [] || prefixes != [] ==> now != []
  {
    if prefixes != [] {
      assert prefixes[0].path in View(now);
    } else if was != [] {
      assert was[|was| - 1].key in View(was);
      assert was[|was| - 1].key in View(now);
    }
  }
}
