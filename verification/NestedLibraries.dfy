/** Why versioned directories must not be libraries: otherwise two versions of one are listed. */
module NestedLibraries {
  import opened Wrappers
  import opened ModuleGraph
  import opened PeersClosures
  import opened DependencyRules
  import opened ConflictResolver
  import opened ConflictSearch
  import opened ConflictResolution
  import opened ConflictTheory
  import opened PreorderSort
  import opened SearchStart

  /** A versioned module filed under its own directory. */
  ghost predicate Filed(env: Env, id: NodeId) {
    env.contrib(id) && env.dirOf(id) in env.libIds && env.libIds[env.dirOf(id)] == id && env.dirOf(id) != []
  }

  /** `w` is a versioned module whose directory has a rule, `t` the version the rule names, and `y`
      another version of the library that the directory of `w` is. */
  ghost predicate Nests(env: Env, rules: Rules, w: NodeId, t: NodeId, y: NodeId) {
    && Filed(env, w) && Filed(env, t) && Filed(env, y) && t != y
    && env.dirOf(w) in rules.lib2ver && rules.lib2ver[env.dirOf(w)] == env.dirOf(t)
    && env.LibOf(y) == env.dirOf(w) && env.dirOf(y) !in rules.lib2ver
  }

  /** Resolving `w` as a direct peer records the version of its rule. */
  lemma ResolvedByRule(env: Env, rules: Rules, st: State, w: NodeId, t: NodeId, y: NodeId, kind: Kind)
    requires Nests(env, rules, w, t, y) && kind != Unversioned
    requires env.LibOf(w) !in st.resolutions && w !in st.accumulated
    ensures var (st', next) := Resolved(env, rules, st, ResolvedPeer(w, kind), 1);
      && next == Some(t) && st'.resolutions.Keys == st.resolutions.Keys + {env.LibOf(w)}
      && w in st'.accumulated && st'.accumulated[w].peer.id == t
      && st'.accumulated.Keys == st.accumulated.Keys + {w, t}
  {
    assert GetRuleForPeer(rules, env.dirOf(w), true) == env.dirOf(t);
  }

  /** Resolving `y` as a direct peer then keeps `y`. */
  lemma ResolvedToItself(env: Env, rules: Rules, st: State, w: NodeId, t: NodeId, y: NodeId, kind: Kind)
    requires Nests(env, rules, w, t, y) && kind != Unversioned
    requires env.LibOf(y) !in st.resolutions && y !in st.accumulated
    ensures var st' := Resolved(env, rules, st, ResolvedPeer(y, kind), 1).0;
      y in st'.accumulated && st'.accumulated[y].peer.id == y
  {
    assert GetRuleForPeer(rules, env.dirOf(y), true) == env.dirOf(y);
  }

  lemma LibrariesDiffer(env: Env, rules: Rules, w: NodeId, t: NodeId, y: NodeId)
    requires Keyed(rules) && Nests(env, rules, w, t, y)
    ensures env.LibOf(w) != env.LibOf(y) == env.LibOf(t) && w != y && y != t
  {
    assert |env.LibOf(w)| < |env.dirOf(w)|;
    assert |env.LibOf(y)| < |env.dirOf(y)|;
  }

  // ---------------------------------------------------------------- two versions in the list

  lemma DirectIsListed(p: Problem, i: nat, id: NodeId)
    requires Closed(p) && i < |p.roots| && p.roots[i].id in Final(p).st.accumulated
    requires Final(p).st.accumulated[p.roots[i].id].peer.id == id
    ensures id in PeerList(p)
  {
    var res := Final(p).st.accumulated;
    StartSound(p);
    RunSound(p, Start(p));
    assert Finished(p.m, res);
    ListExact(p.m, res, p.roots);
    assert ResolvesTo(res, p.roots, id);
    assert Chain(p.m, res, p.roots, [id]);
    assert Reachable(p.m, res, p.roots, id);
  }

  /** `w` and `y` are the direct peers, both versioned. */
  ghost predicate DirectPeers(p: Problem, w: NodeId, y: NodeId) {
    && TwoRoots(p) && p.roots[0].id == w && p.roots[1].id == y
    && p.roots[0].kind != Unversioned && p.roots[1].kind != Unversioned
  }

  /** If the directory of a versioned module is a library with a rule, then with that module and
      any other version of that library as direct peers two versions of the library are listed. */
  lemma NestedLibraryBreaks(p: Problem, w: NodeId, t: NodeId, y: NodeId)
    requires Closed(p) && Keyed(p.rules) && Nests(p.env, p.rules, w, t, y) && DirectPeers(p, w, y)
    ensures t in PeerList(p) && y in PeerList(p) && t != y
    ensures p.env.contrib(t) && p.env.contrib(y) && p.env.LibOf(t) == p.env.LibOf(y)
  {
    LibrariesDiffer(p.env, p.rules, w, t, y);
    BothAccepted(p, w, t, y);
    assert t in PeerList(p) by { DirectIsListed(p, 0, t); }
    assert y in PeerList(p) by { DirectIsListed(p, 1, y); }
  }

  lemma BothResolved(p: Problem, w: NodeId, t: NodeId, y: NodeId)
    requires Keyed(p.rules) && Nests(p.env, p.rules, w, t, y) && DirectPeers(p, w, y)
    ensures var acc := SecondResolved(p).0.accumulated;
      w in acc && acc[w].peer.id == t && y in acc && acc[y].peer.id == y
  {
    LibrariesDiffer(p.env, p.rules, w, t, y);
    ResolvedByRule(p.env, p.rules, State(map[], map[]), w, t, y, p.roots[0].kind);
    ResolvedToItself(p.env, p.rules, FirstResolved(p).0, w, t, y, p.roots[1].kind);
    ResolvedKeeps(p.env, p.rules, FirstResolved(p).0, p.roots[1], 1, w);
  }

  lemma BothAccepted(p: Problem, w: NodeId, t: NodeId, y: NodeId)
    requires Closed(p) && Keyed(p.rules) && Nests(p.env, p.rules, w, t, y) && DirectPeers(p, w, y)
    ensures var res := Final(p).st.accumulated;
      w in res && res[w].peer.id == t && y in res && res[y].peer.id == y
  {
    var b := SecondTurn(p);
    BothResolved(p, w, t, y);
    RunKeeps(p, b, w);
    RunKeeps(p, b, y);
  }

  // ---------------------------------------------------------------- such problems exist

  /** Module 1 in `lib/1`, modules 2 and 3 in `lib/1/x` and `lib/1/y`, all filed. */
  ghost function ExampleDir(id: NodeId): Dir {
    if id == 1 then ["lib", "1"] else if id == 2 then ["lib", "1", "x"] else ["lib", "1", "y"]
  }

  ghost function Example(): Problem {
    Problem(
      Env(ExampleDir, id => id in {1, 2, 3}, map[["lib", "1"] := 1, ["lib", "1", "x"] := 2, ["lib", "1", "y"] := 3]),
      Rules(map[["lib", "1"] := ["lib", "1", "x"]], map[], [], false, false, false),
      Modules(map[1 := [], 2 := [], 3 := []], map[1 := EMPTY, 2 := EMPTY, 3 := EMPTY]),
      [ResolvedPeer(1, Direct), ResolvedPeer(3, Direct)],
      Closure(map[1 := ClosureStats(false, 1), 3 := ClosureStats(false, 1)], [1, 3]),
      id => false)
  }

  lemma ExampleBreaks()
    ensures var p := Example(); 2 in PeerList(p) && 3 in PeerList(p) && SameLibrary(p.env, 2, 3)
  {
    var p := Example();
    assert ["lib", "1"] != ["lib", "1", "x"] && ["lib", "1"] != ["lib", "1", "y"];
    assert ["lib", "1", "x"] != ["lib", "1", "y"] by { assert ["lib", "1", "x"][2] != ["lib", "1", "y"][2]; }
    assert Parent(["lib", "1", "x"]) == ["lib", "1"] == Parent(["lib", "1", "y"]);
    assert Complete(p.m);
    NestedLibraryBreaks(p, 1, 2, 3);
  }

  ghost predicate SameLibrary(env: Env, a: NodeId, b: NodeId) {
    env.contrib(a) && env.contrib(b) && env.LibOf(a) == env.LibOf(b)
  }
}
