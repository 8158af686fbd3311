/** Where exclusion stops being exact: counters that wrap, and rules of several ancestors. */
module ExclusionLimits {
  import opened ModuleGraph
  import opened PeersClosures
  import opened PeersClosureTheory
  import opened ClosureCollector

  // ---------------------------------------------------------------- doubled edges

  /** A chain of `n` doubled edges down to node 0; node `n + 1` leads to 0 directly; node `n + 2`
      leads to the top of the chain and to `n + 1`. */
  ghost function ChainEdges(n: nat, i: nat): seq<NodeId> {
    if i == 0 then [] else if i <= n then [i - 1, i - 1] else if i == n + 1 then [0] else [n, n + 1]
  }

  ghost function DoublingGraph(n: nat): Graph {
    Graph(map i: nat | 0 <= i <= n + 2 :: ChainEdges(n, i), i => i)
  }

  lemma DoublingAcyclic(n: nat)
    ensures Acyclic(DoublingGraph(n))
  {}

  ghost function Doubling(n: nat): Dag {
    DoublingAcyclic(n);
    DoublingGraph(n)
  }

  ghost function Pow2(i: nat): nat { if i == 0 then 1 else 2 * Pow2(i - 1) }

  /** Two edges to the same node count twice. */
  lemma TwoEdges(g: Dag, v: NodeId, d: NodeId, u: NodeId)
    requires g.Peers(v) == [d, d]
    ensures Paths(g, v, u) == 2 * Paths(g, d, u) + (if d == u then 2 else 0)
  {
    assert PathsVia(g, v, 1, u) == (if d == u then 1 else 0) + Paths(g, d, u);
  }

  /** Every doubled edge doubles the number of paths. */
  lemma {:induction false} ChainPaths(n: nat, i: nat)
    requires 0 < i <= n
    ensures Paths(Doubling(n), i, 0) == Pow2(i)
    decreases i
  {
    var g := Doubling(n);
    assert g.Peers(i) == [i - 1, i - 1];
    TwoEdges(g, i, i - 1, 0);
    if i > 1 { ChainPaths(n, i - 1); } else { assert g.Peers(0) == []; }
  }

  lemma TopPaths(n: nat)
    requires n > 0
    ensures var g := Doubling(n);
      Paths(g, n + 2, 0) == Pow2(n) + 1 && Paths(g, n + 2, n + 1) == 1 && Paths(g, n + 1, 0) == 1
  {
    var g := Doubling(n);
    assert g.Peers(n + 2) == [n, n + 1] && g.Peers(n + 1) == [0] && g.Peers(0) == [];
    ChainPaths(n, n);
    NotAbove(g, n, n + 1);
    NotAbove(g, n + 1, n + 1);
    assert PathsVia(g, n + 1, 1, 0) == 1 + Paths(g, 0, 0);
    assert PathsVia(g, n + 2, 1, 0) == Pow2(n);
    assert PathsVia(g, n + 2, 1, n + 1) == 0;
  }

  /** Paths lead downwards. */
  lemma NotAbove(g: Dag, v: NodeId, u: NodeId)
    requires g.rank(v) <= g.rank(u)
    ensures Paths(g, v, u) == 0
  {
    if Paths(g, v, u) > 0 { RankDecreases(g, v, g.Degree(v), u); }
  }

  // ---------------------------------------------------------------- one excluded node

  /** If only `w` is excluded, its paths are all that is counted. */
  lemma {:induction false} OnlyOneExcluded(c: Closure, w: NodeId, closures: map<NodeId, Closure>, k: nat)
    requires Listed(c) && w in closures && k <= |c.topSort|
    ensures ExcludedPaths(c, x => x == w, closures, k) ==
      if w in c.topSort[k..] then ExcludedNode(map[], w, c.stats[w].pathCount, closures[w].stats) else map[]
    decreases |c.topSort| - k
  {
    if k < |c.topSort| {
      OnlyOneExcluded(c, w, closures, k + 1);
      assert c.topSort[k..] == [c.topSort[k]] + c.topSort[k + 1..];
      if c.topSort[k] == w {
        forall j | k < j < |c.topSort|
          ensures c.topSort[j] != w
        {}
        assert w !in c.topSort[k + 1..];
      }
    } else {
      assert c.topSort[k..] == [];
    }
  }

  /** Whenever the paths over the chain wrap to none, node 0 is marked as soon as node `n + 1` is
      excluded, although all paths over the chain avoid that node. */
  lemma WrappedCountersMark(n: nat, c: Closure, closures: map<NodeId, Closure>)
    requires n > 0 && Pow2(n) % LIMIT31 == 0
    requires Represents(Doubling(n), n + 2, Doubling(n).Degree(n + 2), c)
    requires n + 1 in closures && Represents(Doubling(n), n + 1, Doubling(n).Degree(n + 1), closures[n + 1])
    ensures 0 in c.stats && Excluding(c, x => x == n + 1, closures).stats[0].excluded
    ensures !AllBlocked(Doubling(n), x => x == n + 1, n + 2, 0)
  {
    WrappedCounts(n, c, closures[n + 1]);
    OneExcludedMarks(c, n + 1, closures, 0);
    OpenThroughChain(n);
  }

  lemma WrappedCounts(n: nat, c: Closure, below: Closure)
    requires n > 0 && Pow2(n) % LIMIT31 == 0
    requires Represents(Doubling(n), n + 2, Doubling(n).Degree(n + 2), c)
    requires Represents(Doubling(n), n + 1, Doubling(n).Degree(n + 1), below)
    ensures 0 in c.stats && n + 1 in c.stats && 0 in below.stats
    ensures c.stats[0].pathCount == 1 && c.stats[n + 1].pathCount == 1 && below.stats[0].pathCount == 1
  {
    var g := Doubling(n);
    TopPaths(n);
    WrapsToOne(0);
    WrapsToOne(Pow2(n));
    StoredOne(g, n + 2, c, 0);
    StoredOne(g, n + 2, c, n + 1);
    StoredOne(g, n + 1, below, 0);
  }

  lemma WrapsToOne(a: nat)
    requires a % LIMIT31 == 0
    ensures Wrap(a + 1) == 1
  {}

  lemma StoredOne(g: Dag, v: NodeId, c: Closure, u: NodeId)
    requires Represents(g, v, g.Degree(v), c) && Paths(g, v, u) > 0 && Wrap(Paths(g, v, u)) == 1
    ensures u in c.stats && c.stats[u].pathCount == 1
  {
    assert Counts(g, v, g.Degree(v), c, u);
  }

  /** With wrapped counters exclusion by counting is not exact: whatever the collector has stored,
      a chain of 31 or more doubled edges has node 0 marked although 2^31 or more paths to it are
      open. */
  lemma LongChainsMark(n: nat, rules: Rules, managed: map<NodeId, Closure>)
    requires n >= 31 && Collected(Doubling(n), rules, managed) && n + 2 in managed
    ensures 0 in managed[n + 2].stats && Excluding(managed[n + 2], x => x == n + 1, managed).stats[0].excluded
    ensures !AllBlocked(Doubling(n), x => x == n + 1, n + 2, 0)
    ensures OpenPaths(Doubling(n), x => x == n + 1, n + 2, 0) == Pow2(n) >= LIMIT31
  {
    PowersWrap(n);
    StoredPeer(n, rules, managed);
    WrappedCountersMark(n, managed[n + 2], managed);
    OpenThroughChain(n);
  }

  /** The collector gets as far as that, under any rules. */
  lemma ChainsCollected(n: nat, rules: Rules) returns (managed: map<NodeId, Closure>)
    ensures Collected(Doubling(n), rules, managed) && n + 2 in managed
  {
    managed := SomeCollected(Doubling(n), rules, Doubling(n).direct.Keys);
  }

  lemma {:induction false} PowersWrap(n: nat)
    requires n >= 31
    ensures Pow2(n) % LIMIT31 == 0 && Pow2(n) >= LIMIT31
    decreases n
  {
    if n == 31 { PowerOfTwo31(); } else { PowersWrap(n - 1); }
  }

  lemma StoredPeer(n: nat, rules: Rules, managed: map<NodeId, Closure>)
    requires Collected(Doubling(n), rules, managed) && n + 2 in managed
    ensures n + 1 in managed
    ensures StoredExactly(Doubling(n), rules, n + 2, managed[n + 2]) && StoredExactly(Doubling(n), rules, n + 1, managed[n + 1])
  {
    assert Doubling(n).Peers(n + 2)[1] == n + 1;
  }

  /** One excluded node with one path and one path on to `u` marks `u` if the stored count of `u` is 1. */
  lemma OneExcludedMarks(c: Closure, w: NodeId, closures: map<NodeId, Closure>, u: NodeId)
    requires Listed(c) && w in c.stats && u in c.stats && u != w && w in closures && u in closures[w].stats
    requires c.stats[w].pathCount == 1 && closures[w].stats[u].pathCount == 1 && c.stats[u].pathCount == 1
    ensures Excluding(c, x => x == w, closures).stats[u].excluded
  {
    OnlyOneExcluded(c, w, closures, 0);
    assert c.topSort[0..] == c.topSort;
    var ex := ExcludedNode(map[], w, 1, closures[w].stats);
    assert ex == Spread(map[w := 1], 1, closures[w].stats);
    assert u in ex && ex[u] == 1;
  }

  lemma PowerOfTwo31()
    ensures Pow2(31) == LIMIT31
  {
    assert Pow2(8) == 256;
    assert Pow2(16) == 65536;
    assert Pow2(24) == 16777216;
  }

  /** The chain itself meets no excluded node. */
  lemma OpenThroughChain(n: nat)
    requires n > 0
    ensures OpenPaths(Doubling(n), x => x == n + 1, n + 2, 0) == Pow2(n) > 0
    ensures !AllBlocked(Doubling(n), x => x == n + 1, n + 2, 0)
  {
    var g, blocked := Doubling(n), x => x == n + 1;
    assert g.Peers(n + 2) == [n, n + 1];
    ChainOpen(n, n);
    assert OpenPathsVia(g, blocked, n + 2, 1, 0) == Pow2(n);
    AllBlockedByCount(g, blocked, n + 2, 0);
  }

  lemma {:induction false} ChainOpen(n: nat, i: nat)
    requires 0 < i <= n
    ensures OpenPaths(Doubling(n), x => x == n + 1, i, 0) == Pow2(i) > 0
    decreases i
  {
    var g, blocked := Doubling(n), x => x == n + 1;
    assert g.Peers(i) == [i - 1, i - 1];
    if i > 1 { ChainOpen(n, i - 1); } else { assert g.Peers(0) == [] && OpenPaths(g, blocked, 0, 0) == 0; }
    assert OpenPathsVia(g, blocked, i, 1, 0) == (if i == 1 then 1 else 0) + OpenPaths(g, blocked, i - 1, 0);
  }

  // ---------------------------------------------------------------- rules of several ancestors

  /** 5 -> 4, 4 -> 3 and 2, 3 -> 0, 2 -> 1, 1 -> 0. */
  ghost function TwoWays(): Dag {
    Graph(map[5 := [4], 4 := [3, 2], 3 := [0], 2 := [1], 1 := [0], 0 := []], i => i)
  }

  /** Module 5 excludes 3, module 4 excludes 1. */
  ghost function TwoRules(): Rules {
    v => (x => (v == 5 && x == 3) || (v == 4 && x == 1))
  }

  lemma Path(g: Dag, v: NodeId, d: NodeId, p: seq<nat>, u: NodeId)
    requires g.Peers(v) == [d] && u != d && IsPath(g, v, p, u)
    ensures IsPath(g, d, p[1..], u) && Visited(g, v, p) == [d] + Visited(g, d, p[1..])
  {}

  /** Every way from 4 to 0 meets 3, or meets 1. */
  lemma WaysFrom4(p: seq<nat>)
    requires IsPath(TwoWays(), 4, p, 0)
    ensures var ns := Visited(TwoWays(), 4, p); |ns| >= 2 && (ns[0] == 3 || ns[1] == 1)
  {
    var g := TwoWays();
    assert g.Peers(4) == [3, 2] && g.Peers(3) == [0] && g.Peers(2) == [1];
    var d := g.Peers(4)[p[0]];
    assert IsPath(g, d, p[1..], 0);
    assert Visited(g, 4, p) == [d] + Visited(g, d, p[1..]);
    if d == 2 { Path(g, 2, 1, p[1..], 0); }
  }

  /** Every path from 5 to 0 is blocked by the rules of a non-immediate ancestor on it... */
  lemma EveryWayBlocked(p: seq<nat>)
    requires IsPath(TwoWays(), 5, p, 0)
    ensures BlockedByAncestor(TwoWays(), TwoRules(), 5, p)
  {
    var g := TwoWays();
    assert g.Peers(5) == [4];
    Path(g, 5, 4, p, 0);
    WaysFrom4(p[1..]);
    var nodes := [5] + Visited(g, 5, p);
    var ns := Visited(g, 4, p[1..]);
    assert nodes[0] == 5 && nodes[1] == 4 && nodes[2] == ns[0] && nodes[3] == ns[1];
    if ns[0] == 3 {
      assert TwoRules()(nodes[0])(nodes[2]);
    } else {
      assert TwoRules()(nodes[1])(nodes[3]);
    }
  }

  lemma NotMarkedAt3()
    ensures !Marked(TwoWays(), TwoRules(), 3, 0) && !AllBlocked(TwoWays(), TwoRules()(4), 3, 0)
  {
    var g := TwoWays();
    assert g.Peers(3) == [0] && g.Peers(3)[0] == 0;
    assert IsPath(g, 3, [0], 0) && Visited(g, 3, [0]) == [0];
  }

  lemma NotMarkedAt4()
    ensures !Marked(TwoWays(), TwoRules(), 4, 0) && !AllBlocked(TwoWays(), TwoRules()(5), 4, 0)
  {
    var g := TwoWays();
    assert g.Peers(4) == [3, 2] && g.Peers(3) == [0] && g.Peers(2) == [1] && g.Peers(1) == [0];
    NotMarkedAt3();
    EdgeReaches(g, 3, 1, 0, 0);
    assert g.Peers(4)[0] == 3 && Reaches(g, 3, 0);
    var p := [1, 0, 0];
    assert p[1..] == [0, 0] && p[1..][1..] == [0];
    assert IsPath(g, 4, p, 0);
    assert Visited(g, 1, [0]) == [0] && Visited(g, 2, [0, 0]) == [1] + [0] && Visited(g, 4, p) == [2] + ([1] + [0]);
    assert !Meets(g, TwoRules()(5), 4, p);
  }

  /** ... and yet 0 is not marked below 5: no single ancestor blocks every path. */
  lemma NotMarkedAt5()
    ensures !Marked(TwoWays(), TwoRules(), 5, 0)
  {
    var g := TwoWays();
    assert g.Peers(5) == [4] && g.Peers(4) == [3, 2] && g.Peers(3) == [0];
    NotMarkedAt4();
    EdgeReaches(g, 3, 1, 0, 0);
    EdgeReaches(g, 4, 2, 0, 0);
    assert g.Peers(5)[0] == 4 && Reaches(g, 4, 0);
  }

  lemma FewWays(u: NodeId)
    ensures Paths(TwoWays(), 5, u) <= 6
  {
    var g := TwoWays();
    assert g.Peers(5) == [4] && g.Peers(4) == [3, 2] && g.Peers(3) == [0] && g.Peers(2) == [1] && g.Peers(1) == [0] && g.Peers(0) == [];
    assert Paths(g, 1, u) <= 1 && Paths(g, 3, u) <= 1;
    assert Paths(g, 2, u) <= 2;
    assert PathsVia(g, 4, 1, u) <= 2;
    assert Paths(g, 4, u) <= 5;
  }

  /** Nested exclusion is not complete: whatever the collector has stored for module 5, node 0 is
      unmarked although every path to it is blocked by the rules of a non-immediate ancestor. */
  lemma NestedExclusionIncomplete(managed: map<NodeId, Closure>)
    requires Collected(TwoWays(), TwoRules(), managed) && 5 in managed
    ensures 0 in managed[5].stats && !managed[5].stats[0].excluded
    ensures forall p :: IsPath(TwoWays(), 5, p, 0) ==> BlockedByAncestor(TwoWays(), TwoRules(), 5, p)
  {
    var g := TwoWays();
    forall u
      ensures Paths(g, 5, u) < LIMIT31
    {
      FewWays(u);
    }
    forall p | IsPath(g, 5, p, 0) { EveryWayBlocked(p); }
    assert StoredExactly(g, TwoRules(), 5, managed[5]);
    NotMarkedAt5();
    ReachedAt5();
    assert Counts(g, 5, g.Degree(5), managed[5], 0);
    assert FlagExact(g, TwoRules(), 5, g.Degree(5), managed[5], 0);
  }

  /** The collector gets as far as that. */
  lemma WaysCollected() returns (managed: map<NodeId, Closure>)
    ensures Collected(TwoWays(), TwoRules(), managed) && 5 in managed
  {
    managed := SomeCollected(TwoWays(), TwoRules(), TwoWays().direct.Keys);
  }

  lemma ReachedAt5()
    ensures Reaches(TwoWays(), 5, 0)
  {
    var g := TwoWays();
    assert g.Peers(5) == [4] && g.Peers(4) == [3, 2] && g.Peers(3) == [0];
    EdgeReaches(g, 3, 1, 0, 0);
    EdgeReaches(g, 4, 2, 0, 0);
    EdgeReaches(g, 5, 1, 0, 0);
  }
}
