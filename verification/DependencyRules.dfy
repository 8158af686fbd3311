/** Dependency management rules of a module: which version of a library it asks for. */
module DependencyRules {

  /** A directory as its path components; the library of a versioned directory is its parent. */
  type Dir = seq<string>

  function Parent(d: Dir): Dir { if d == [] then [] else d[..|d| - 1] }

  function Basename(d: Dir): string { if d == [] then "" else d[|d| - 1] }

  datatype Rules = Rules(
    lib2ver: map<Dir, Dir>,
    forced: map<Dir, Dir>,
    excludes: seq<Dir>,
    forbidConflict: bool,
    forbidConflictDM: bool,
    forbidConflictDMRecent: bool)

  predicate IsExcluded(rules: Rules, path: Dir) {
    exists i :: 0 <= i < |rules.excludes| && rules.excludes[i] <= path
  }

  /** The directory a peer is to be replaced by; empty if no rule applies. */
  function GetRuleForPeer(rules: Rules, peer: Dir, isDirect: bool): Dir {
    var lib := Parent(peer);
    if peer in rules.lib2ver && (isDirect || !IsExcluded(rules, rules.lib2ver[peer])) then rules.lib2ver[peer]
    else if lib in rules.lib2ver && isDirect then peer
    else if lib in rules.lib2ver && !IsExcluded(rules, rules.lib2ver[lib]) then rules.lib2ver[lib]
    else if peer in rules.forced then rules.forced[peer]
    else if lib in rules.forced then rules.forced[lib]
    else []
  }

  /** Every rule is filed under the library of the version it names. */
  ghost predicate KeyedByLibrary(m: map<Dir, Dir>) {
    forall lib :: lib in m ==> Parent(m[lib]) == lib
  }

  ghost predicate Keyed(rules: Rules) {
    KeyedByLibrary(rules.lib2ver) && KeyedByLibrary(rules.forced)
  }

  /** `exceptions[lib]` are the modules exempt from the forced rule for `lib`. */
  predicate Exempt(exceptions: map<Dir, set<Dir>>, lib: Dir, mod: Dir) {
    lib in exceptions && mod in exceptions[lib]
  }

  function AddDependencyManagement(rules: Rules, exceptions: map<Dir, set<Dir>>, mod: Dir, libWithVer: Dir): Rules {
    var lib := Parent(libWithVer);
    if !Exempt(exceptions, libWithVer, mod) && libWithVer in rules.forced then rules
    else if libWithVer in rules.lib2ver then rules
    else if !Exempt(exceptions, lib, mod) && lib in rules.forced then rules
    else rules.(lib2ver := rules.lib2ver[lib := libWithVer])
  }

  function AddAll(rules: Rules, exceptions: map<Dir, set<Dir>>, mod: Dir, items: seq<Dir>): Rules {
    if items == [] then rules
    else AddDependencyManagement(AddAll(rules, exceptions, mod, items[..|items| - 1]), exceptions, mod, items[|items| - 1])
  }

  /** Whatever a module declares, its rules stay keyed by library, and a forced rule is never
      shadowed unless the module is exempt. */
  lemma {:induction false} AddAllKeyed(rules: Rules, exceptions: map<Dir, set<Dir>>, mod: Dir, items: seq<Dir>)
    requires Keyed(rules)
    ensures var r := AddAll(rules, exceptions, mod, items);
      && Keyed(r) && r.forced == rules.forced
      && forall lib :: lib in r.lib2ver && lib in r.forced ==> lib in rules.lib2ver || Exempt(exceptions, lib, mod)
    decreases items
  {
    if items != [] { AddAllKeyed(rules, exceptions, mod, items[..|items| - 1]); }
  }

  /** A peer that is not itself a library is replaced only within its library. */
  lemma RuleStaysInLibrary(rules: Rules, peer: Dir, isDirect: bool)
    requires Keyed(rules) && peer !in rules.lib2ver && peer !in rules.forced
    ensures var rule := GetRuleForPeer(rules, peer, isDirect); rule == [] || Parent(rule) == Parent(peer)
  {}

  // ---------------------------------------------------------------- which rule applies

  /** A module's own rule for `key` applies: always to direct peers, else unless a prefix of it is excluded. */
  ghost predicate OwnApplies(rules: Rules, key: Dir, isDirect: bool) {
    key in rules.lib2ver && (isDirect || forall e :: e in rules.excludes ==> !(e <= rules.lib2ver[key]))
  }

  /** Own rules come first and let a direct peer keep its version; forced rules apply exactly where no own
      rule does, and no rule at all only where neither kind has one. */
  lemma RuleExact(rules: Rules, peer: Dir, isDirect: bool)
    ensures var (rule, lib) := (GetRuleForPeer(rules, peer, isDirect), Parent(peer));
      && (OwnApplies(rules, peer, isDirect) ==> rule == rules.lib2ver[peer])
      && (!OwnApplies(rules, peer, isDirect) && OwnApplies(rules, lib, isDirect) ==>
            rule == if isDirect then peer else rules.lib2ver[lib])
      && (!OwnApplies(rules, peer, isDirect) && !OwnApplies(rules, lib, isDirect) ==>
            (if peer in rules.forced then rule == rules.forced[peer]
             else if lib in rules.forced then rule == rules.forced[lib] else rule == []))
  {
    if peer in rules.lib2ver { ExcludedExact(rules, rules.lib2ver[peer]); }
    if Parent(peer) in rules.lib2ver { ExcludedExact(rules, rules.lib2ver[Parent(peer)]); }
  }

  lemma ExcludedExact(rules: Rules, path: Dir)
    ensures IsExcluded(rules, path) <==> !forall e :: e in rules.excludes ==> !(e <= path)
  {
    if e :| e in rules.excludes && e <= path {
      var i :| 0 <= i < |rules.excludes| && rules.excludes[i] == e;
    }
    if i :| 0 <= i < |rules.excludes| && rules.excludes[i] <= path {
      assert rules.excludes[i] in rules.excludes;
    }
  }

  // ---------------------------------------------------------------- which declarations count

  ghost predicate ForcedOn(rules: Rules, exceptions: map<Dir, set<Dir>>, mod: Dir, key: Dir) {
    key in rules.forced && !Exempt(exceptions, key, mod)
  }

  ghost predicate DeclaresIn(items: seq<Dir>, lib: Dir) { exists i :: 0 <= i < |items| && Parent(items[i]) == lib }

  /** A declaration is refused where a forced rule binds the module, and where an earlier rule treats the
      declared version as a library. */
  ghost predicate Refused(rules: Rules, exceptions: map<Dir, set<Dir>>, mod: Dir, counted: seq<Dir>, item: Dir) {
    || ForcedOn(rules, exceptions, mod, item) || ForcedOn(rules, exceptions, mod, Parent(item))
    || item in rules.lib2ver || DeclaresIn(counted, item)
  }

  /** The declarations that count, in order. */
  ghost function Counted(rules: Rules, exceptions: map<Dir, set<Dir>>, mod: Dir, items: seq<Dir>): seq<Dir>
    decreases items
  {
    if items == [] then []
    else
      var prior := Counted(rules, exceptions, mod, items[..|items| - 1]);
      var item := items[|items| - 1];
      if Refused(rules, exceptions, mod, prior, item) then prior else prior + [item]
  }

  /** The last declaration of a library stands; where there is none, what was before. */
  ghost predicate LastStands(was: map<Dir, Dir>, counted: seq<Dir>, now: map<Dir, Dir>) {
    && (forall lib :: lib in now <==> lib in was || DeclaresIn(counted, lib))
    && (forall lib :: lib in was && !DeclaresIn(counted, lib) ==> now[lib] == was[lib])
    && (forall i :: 0 <= i < |counted| && (forall j :: i < j < |counted| ==> Parent(counted[j]) != Parent(counted[i])) ==>
          now[Parent(counted[i])] == counted[i])
  }

  lemma DeclaresMore(counted: seq<Dir>, item: Dir, lib: Dir)
    ensures DeclaresIn(counted + [item], lib) <==> DeclaresIn(counted, lib) || Parent(item) == lib
  {
    var more := counted + [item];
    assert more[|counted|] == item;
    if i :| 0 <= i < |counted| && Parent(counted[i]) == lib { assert more[i] == counted[i]; }
  }

  lemma OneMoreStands(was: map<Dir, Dir>, counted: seq<Dir>, now: map<Dir, Dir>, item: Dir)
    requires LastStands(was, counted, now)
    ensures LastStands(was, counted + [item], now[Parent(item) := item])
  {
    var more, now' := counted + [item], now[Parent(item) := item];
    forall lib { DeclaresMore(counted, item, lib); }
    forall i | 0 <= i < |more| && (forall j :: i < j < |more| ==> Parent(more[j]) != Parent(more[i]))
      ensures Parent(more[i]) in now' && now'[Parent(more[i])] == more[i]
    {
      if i < |counted| {
        assert more[|counted|] == item && Parent(item) != Parent(more[i]);
        forall j | i < j < |counted|
          ensures Parent(counted[j]) != Parent(counted[i])
        {
          assert more[j] == counted[j];
        }
      }
    }
  }

  /** The rules a module ends with, whatever it declares in whatever order. */
  lemma {:induction false} DeclarationsExact(rules: Rules, exceptions: map<Dir, set<Dir>>, mod: Dir, items: seq<Dir>)
    ensures var r := AddAll(rules, exceptions, mod, items);
      && LastStands(rules.lib2ver, Counted(rules, exceptions, mod, items), r.lib2ver)
      && r.(lib2ver := rules.lib2ver) == rules
    decreases items
  {
    if items != [] {
      var prior, item := items[..|items| - 1], items[|items| - 1];
      DeclarationsExact(rules, exceptions, mod, prior);
      var counted := Counted(rules, exceptions, mod, prior);
      if !Refused(rules, exceptions, mod, counted, item) {
        OneMoreStands(rules.lib2ver, counted, AddAll(rules, exceptions, mod, prior).lib2ver, item);
      }
    }
  }
}
