/** Modules and their ordered lists of direct managed peers, and the paths through them.

    Paths are counted with multiplicity (a peer listed twice gives two edges), which is what
    the path counters of a peers closure do.  Two independent views are given: recursive
    counts, and explicit paths (sequences of edge positions); `PathListExact` ties them. */
module ModuleGraph {

  type NodeId = nat

  /** `rank` is any order in which peers are finished before the modules that use them. */
  datatype Graph = Graph(direct: map<NodeId, seq<NodeId>>, rank: NodeId -> nat) {
    function Peers(v: NodeId): seq<NodeId> {
      if v in direct then direct[v] else []
    }

    function Degree(v: NodeId): nat { |Peers(v)| }
  }

  ghost predicate Acyclic(g: Graph) {
    forall v, i :: v in g.direct && 0 <= i < |g.direct[v]| ==>
      g.direct[v][i] in g.direct && g.rank(g.direct[v][i]) < g.rank(v)
  }

  type Dag = g: Graph | Acyclic(g) witness Graph(map[], _ => 0)

  /** Number of non-empty paths from `v` to `u` that leave `v` by one of its first `n` edges. */
  ghost function PathsVia(g: Dag, v: NodeId, n: nat, u: NodeId): nat
    requires n <= g.Degree(v)
    decreases g.rank(v), n
  {
    if n == 0 then 0
    else
      var d := g.Peers(v)[n - 1];
      PathsVia(g, v, n - 1, u) + (if d == u then 1 else 0) + PathsVia(g, d, g.Degree(d), u)
  }

  ghost function Paths(g: Dag, v: NodeId, u: NodeId): nat {
    PathsVia(g, v, g.Degree(v), u)
  }

  /** As `PathsVia`, but only paths with no `blocked` node strictly between `v` and `u`. */
  ghost function OpenPathsVia(g: Dag, blocked: NodeId -> bool, v: NodeId, n: nat, u: NodeId): nat
    requires n <= g.Degree(v)
    decreases g.rank(v), n
  {
    if n == 0 then 0
    else
      var d := g.Peers(v)[n - 1];
      OpenPathsVia(g, blocked, v, n - 1, u) + (if d == u then 1 else 0)
      + (if blocked(d) then 0 else OpenPathsVia(g, blocked, d, g.Degree(d), u))
  }

  ghost function OpenPaths(g: Dag, blocked: NodeId -> bool, v: NodeId, u: NodeId): nat {
    OpenPathsVia(g, blocked, v, g.Degree(v), u)
  }

  /** `u` can be reached from `v` by a non-empty path. */
  ghost predicate Reaches(g: Dag, v: NodeId, u: NodeId) {
    Paths(g, v, u) > 0
  }

  // ---------------------------------------------------------------- reachability

  lemma {:induction false} RankDecreases(g: Dag, v: NodeId, n: nat, u: NodeId)
    requires n <= g.Degree(v) && PathsVia(g, v, n, u) > 0
    ensures g.rank(u) < g.rank(v)
    decreases g.rank(v), n
  {
    var d := g.Peers(v)[n - 1];
    if PathsVia(g, v, n - 1, u) > 0 {
      RankDecreases(g, v, n - 1, u);
    } else if d != u {
      RankDecreases(g, d, g.Degree(d), u);
    }
  }

  lemma NoCycle(g: Dag, v: NodeId)
    ensures Paths(g, v, v) == 0
  {
    if Paths(g, v, v) > 0 { RankDecreases(g, v, g.Degree(v), v); }
  }

  lemma {:induction false} EdgeReaches(g: Dag, v: NodeId, n: nat, i: nat, u: NodeId)
    requires i < n <= g.Degree(v)
    requires g.Peers(v)[i] == u || Reaches(g, g.Peers(v)[i], u)
    ensures PathsVia(g, v, n, u) > 0
    decreases n
  {
    if i < n - 1 { EdgeReaches(g, v, n - 1, i, u); }
  }

  lemma {:induction false} ReachesTransitive(g: Dag, v: NodeId, n: nat, w: NodeId, u: NodeId)
    requires n <= g.Degree(v) && PathsVia(g, v, n, w) > 0 && Reaches(g, w, u)
    ensures PathsVia(g, v, n, u) > 0
    decreases g.rank(v), n
  {
    var d := g.Peers(v)[n - 1];
    if PathsVia(g, v, n - 1, w) > 0 {
      ReachesTransitive(g, v, n - 1, w, u);
    } else if d != w {
      ReachesTransitive(g, d, g.Degree(d), w, u);
    }
  }

  // ---------------------------------------------------------------- first blocked node

  /** Paths from `v` (by its first `n` edges) to `u`, grouped by the blocked node of `ws` they
      meet first: open paths to that node times all paths from it to `u`. */
  ghost function PathsThrough(g: Dag, blocked: NodeId -> bool, v: NodeId, n: nat, ws: seq<NodeId>, u: NodeId): nat
    requires n <= g.Degree(v)
    decreases ws
  {
    if ws == [] then 0
    else
      PathsThrough(g, blocked, v, n, ws[1..], u)
      + (if blocked(ws[0]) then OpenPathsVia(g, blocked, v, n, ws[0]) * Paths(g, ws[0], u) else 0)
  }

  /** One edge `v -> d` adds to `PathsThrough` the paths that start at `d`. */
  lemma {:induction false} PathsThroughEdge(g: Dag, blocked: NodeId -> bool, v: NodeId, n: nat, ws: seq<NodeId>, u: NodeId)
    requires 0 < n <= g.Degree(v) && Distinct(ws)
    ensures var d := g.Peers(v)[n - 1];
      PathsThrough(g, blocked, v, n, ws, u)
      == PathsThrough(g, blocked, v, n - 1, ws, u)
         + (if blocked(d) then (if d in ws then Paths(g, d, u) else 0)
            else PathsThrough(g, blocked, d, g.Degree(d), ws, u))
    decreases ws
  {
    if ws != [] {
      var d, w := g.Peers(v)[n - 1], ws[0];
      var rest := ws[1..];
      assert ws == [w] + rest;
      PathsThroughEdge(g, blocked, v, n, rest, u);
      if blocked(w) {
        var before, q := OpenPathsVia(g, blocked, v, n - 1, w), Paths(g, w, u);
        var here := if d == w then 1 else 0;
        var later := if blocked(d) then 0 else OpenPathsVia(g, blocked, d, g.Degree(d), w);
        Distribute(before, here, later, q);
      }
    }
  }

  lemma Distribute(a: nat, b: nat, c: nat, q: nat)
    ensures (a + b + c) * q == a * q + b * q + c * q
  {}

  ghost predicate Distinct<T>(s: seq<T>) {
    forall i, j :: 0 <= i < j < |s| ==> s[i] != s[j]
  }

  /** Decomposition of all paths by the first blocked node strictly before `u`, provided `ws`
      lists every blocked node through which a path from `v` can still reach `u`. */
  lemma {:induction false} FirstBlocked(g: Dag, blocked: NodeId -> bool, v: NodeId, n: nat, ws: seq<NodeId>, u: NodeId)
    requires n <= g.Degree(v) && Distinct(ws)
    requires forall w :: blocked(w) && PathsVia(g, v, n, w) > 0 && Reaches(g, w, u) ==> w in ws
    ensures PathsVia(g, v, n, u) == OpenPathsVia(g, blocked, v, n, u) + PathsThrough(g, blocked, v, n, ws, u)
    decreases g.rank(v), n
  {
    if n == 0 {
      NoOpenPaths(g, blocked, v, ws, u);
    } else {
      var d := g.Peers(v)[n - 1];
      FirstBlocked(g, blocked, v, n - 1, ws, u);
      PathsThroughEdge(g, blocked, v, n, ws, u);
      if blocked(d) {
        if Reaches(g, d, u) { assert PathsVia(g, v, n, d) > 0; }
      } else {
        FirstBlocked(g, blocked, d, g.Degree(d), ws, u);
      }
    }
  }

  lemma {:induction false} NoOpenPaths(g: Dag, blocked: NodeId -> bool, v: NodeId, ws: seq<NodeId>, u: NodeId)
    ensures PathsThrough(g, blocked, v, 0, ws, u) == 0
    decreases ws
  {
    if ws != [] { NoOpenPaths(g, blocked, v, ws[1..], u); }
  }

  lemma {:induction false} OpenAtMostAll(g: Dag, blocked: NodeId -> bool, v: NodeId, n: nat, u: NodeId)
    requires n <= g.Degree(v)
    ensures OpenPathsVia(g, blocked, v, n, u) <= PathsVia(g, v, n, u)
    decreases g.rank(v), n
  {
    if n > 0 {
      var d := g.Peers(v)[n - 1];
      OpenAtMostAll(g, blocked, v, n - 1, u);
      OpenAtMostAll(g, blocked, d, g.Degree(d), u);
    }
  }

  // ---------------------------------------------------------------- explicit paths

  /** A path is the sequence of edge positions taken; it is non-empty and ends in `u`. */
  ghost predicate IsPath(g: Dag, v: NodeId, p: seq<nat>, u: NodeId)
    decreases p
  {
    && p != []
    && p[0] < g.Degree(v)
    && var d := g.Peers(v)[p[0]];
       if |p| == 1 then d == u else IsPath(g, d, p[1..], u)
  }

  /** The nodes of a path, without the start node. */
  ghost function Visited(g: Dag, v: NodeId, p: seq<nat>): seq<NodeId>
    decreases p
  {
    if p == [] || p[0] >= g.Degree(v) then []
    else var d := g.Peers(v)[p[0]]; [d] + Visited(g, d, p[1..])
  }

  /** Some node of the path after its start is blocked (the end node included). */
  ghost predicate Meets(g: Dag, blocked: NodeId -> bool, v: NodeId, p: seq<nat>) {
    exists i :: 0 <= i < |Visited(g, v, p)| && blocked(Visited(g, v, p)[i])
  }

  /** All paths from `v` to `u` that leave `v` by one of its first `n` edges. */
  ghost function PathList(g: Dag, v: NodeId, n: nat, u: NodeId): seq<seq<nat>>
    requires n <= g.Degree(v)
    decreases g.rank(v), n
  {
    if n == 0 then [] else PathList(g, v, n - 1, u) + PathsByEdge(g, v, n - 1, u)
  }

  /** All paths from `v` to `u` whose first edge is number `e`. */
  ghost function PathsByEdge(g: Dag, v: NodeId, e: nat, u: NodeId): seq<seq<nat>>
    requires e < g.Degree(v)
    decreases g.rank(v), e
  {
    var d := g.Peers(v)[e];
    (if d == u then [[e]] else []) + Prefixed(e, PathList(g, d, g.Degree(d), u))
  }

  ghost function Prefixed(e: nat, ps: seq<seq<nat>>): (r: seq<seq<nat>>)
    ensures |r| == |ps| && forall i :: 0 <= i < |ps| ==> r[i] == [e] + ps[i]
  {
    seq(|ps|, i requires 0 <= i < |ps| => [e] + ps[i])
  }

  ghost predicate IsPathVia(g: Dag, v: NodeId, n: nat, p: seq<nat>, u: NodeId) {
    IsPath(g, v, p, u) && p[0] < n
  }

  ghost predicate IsPathBy(g: Dag, v: NodeId, e: nat, p: seq<nat>, u: NodeId) {
    IsPath(g, v, p, u) && p[0] == e
  }

  /** `PathsVia` is the number of paths: `PathList` has that length, lists each path once, and
      lists exactly the paths. */
  lemma {:induction false} PathListExact(g: Dag, v: NodeId, n: nat, u: NodeId)
    requires n <= g.Degree(v)
    ensures |PathList(g, v, n, u)| == PathsVia(g, v, n, u)
    ensures Distinct(PathList(g, v, n, u))
    ensures forall p :: p in PathList(g, v, n, u) <==> IsPathVia(g, v, n, p, u)
    decreases g.rank(v), n, 1
  {
    if n > 0 {
      PathListExact(g, v, n - 1, u);
      PathsByEdgeExact(g, v, n - 1, u);
      AppendPaths(g, v, n, u, PathList(g, v, n - 1, u), PathsByEdge(g, v, n - 1, u));
    }
  }

  lemma AppendPaths(g: Dag, v: NodeId, n: nat, u: NodeId, earlier: seq<seq<nat>>, last: seq<seq<nat>>)
    requires 0 < n && Distinct(earlier) && Distinct(last)
    requires forall p :: p in earlier <==> IsPathVia(g, v, n - 1, p, u)
    requires forall p :: p in last <==> IsPathBy(g, v, n - 1, p, u)
    ensures Distinct(earlier + last)
    ensures forall p :: p in earlier + last <==> IsPathVia(g, v, n, p, u)
  {
    DistinctConcat(earlier, last);
  }

  lemma DistinctConcat<T>(a: seq<T>, b: seq<T>)
    requires Distinct(a) && Distinct(b) && forall x :: x in a ==> x !in b
    ensures Distinct(a + b)
  {
    forall i, j | 0 <= i < |a| && 0 <= j < |b|
      ensures a[i] != b[j]
    {
      assert a[i] in a;
    }
  }

  lemma {:induction false} PathsByEdgeExact(g: Dag, v: NodeId, e: nat, u: NodeId)
    requires e < g.Degree(v)
    ensures |PathsByEdge(g, v, e, u)| == PathsVia(g, v, e + 1, u) - PathsVia(g, v, e, u)
    ensures Distinct(PathsByEdge(g, v, e, u))
    ensures forall p :: p in PathsByEdge(g, v, e, u) <==> IsPathBy(g, v, e, p, u)
    decreases g.rank(v), e, 0
  {
    var d := g.Peers(v)[e];
    PathListExact(g, d, g.Degree(d), u);
    EdgePaths(g, v, e, u, PathList(g, d, g.Degree(d), u));
  }

  lemma EdgePaths(g: Dag, v: NodeId, e: nat, u: NodeId, longer: seq<seq<nat>>)
    requires e < g.Degree(v) && Distinct(longer)
    requires forall q :: q in longer <==> IsPathVia(g, g.Peers(v)[e], g.Degree(g.Peers(v)[e]), q, u)
    ensures var ps := (if g.Peers(v)[e] == u then [[e]] else []) + Prefixed(e, longer);
      Distinct(ps) && forall p :: p in ps <==> IsPathBy(g, v, e, p, u)
  {
    var d := g.Peers(v)[e];
    var here, ps := if d == u then [[e]] else [], Prefixed(e, longer);
    PrefixedExact(e, longer);
    assert [] !in longer;
    assert [e][1..] == [];
    DistinctConcat(here, ps);
    forall p
      ensures p in here + ps <==> IsPathBy(g, v, e, p, u)
    {
      assert p in here + ps <==> p in here || p in ps;
      if |p| == 1 {
        assert p == [p[0]] && p[1..] == [];
      } else if p != [] && p[0] == e {
        var q := p[1..];
        assert IsPath(g, v, p, u) <==> IsPath(g, d, q, u);
        assert q in longer <==> IsPathVia(g, d, g.Degree(d), q, u);
      }
    }
  }

  lemma PrefixedExact(e: nat, ps: seq<seq<nat>>)
    requires Distinct(ps)
    ensures Distinct(Prefixed(e, ps))
    ensures forall p :: p in Prefixed(e, ps) <==> p != [] && p[0] == e && p[1..] in ps
  {
    var r := Prefixed(e, ps);
    assert forall i :: 0 <= i < |r| ==> r[i][1..] == ps[i];
    forall p | p != [] && p[0] == e && p[1..] in ps
      ensures p in r
    {
      var k :| 0 <= k < |ps| && ps[k] == p[1..];
      assert p == r[k];
    }
  }

  /** An open path exists exactly when the count of open paths is positive. */
  lemma {:induction false} OpenPathWitness(g: Dag, blocked: NodeId -> bool, v: NodeId, n: nat, u: NodeId) returns (p: seq<nat>)
    requires n <= g.Degree(v) && OpenPathsVia(g, blocked, v, n, u) > 0 && !blocked(u)
    ensures IsPath(g, v, p, u) && !Meets(g, blocked, v, p)
    decreases g.rank(v), n
  {
    var d := g.Peers(v)[n - 1];
    if OpenPathsVia(g, blocked, v, n - 1, u) > 0 {
      p := OpenPathWitness(g, blocked, v, n - 1, u);
    } else if d == u {
      p := [n - 1];
      assert Visited(g, v, p) == [u] + Visited(g, d, p[1..]);
    } else {
      var q := OpenPathWitness(g, blocked, d, g.Degree(d), u);
      p := [n - 1] + q;
      assert p[1..] == q;
      assert forall i :: 0 < i < |Visited(g, v, p)| ==> Visited(g, v, p)[i] == Visited(g, d, q)[i - 1];
    }
  }

  lemma {:induction false} OpenPathCounted(g: Dag, blocked: NodeId -> bool, v: NodeId, p: seq<nat>, u: NodeId)
    requires IsPath(g, v, p, u) && !Meets(g, blocked, v, p)
    ensures OpenPaths(g, blocked, v, u) > 0 && !blocked(u)
    decreases p
  {
    var d := g.Peers(v)[p[0]];
    var nodes := Visited(g, v, p);
    assert nodes[0] == d && !blocked(nodes[0]);
    if |p| > 1 {
      assert forall i :: 0 <= i < |Visited(g, d, p[1..])| ==> Visited(g, d, p[1..])[i] == nodes[i + 1];
      OpenPathCounted(g, blocked, d, p[1..], u);
    }
    OpenEdge(g, blocked, v, g.Degree(v), p[0], u);
  }

  lemma {:induction false} OpenEdge(g: Dag, blocked: NodeId -> bool, v: NodeId, n: nat, i: nat, u: NodeId)
    requires i < n <= g.Degree(v)
    requires g.Peers(v)[i] == u || (!blocked(g.Peers(v)[i]) && OpenPaths(g, blocked, g.Peers(v)[i], u) > 0)
    ensures OpenPathsVia(g, blocked, v, n, u) > 0
    decreases n
  {
    if i < n - 1 { OpenEdge(g, blocked, v, n - 1, i, u); }
  }

  /** Every path from `v` to `u` meets a blocked node. */
  ghost predicate AllBlocked(g: Dag, blocked: NodeId -> bool, v: NodeId, u: NodeId) {
    forall p :: IsPath(g, v, p, u) ==> Meets(g, blocked, v, p)
  }

  lemma AllBlockedByCount(g: Dag, blocked: NodeId -> bool, v: NodeId, u: NodeId)
    ensures AllBlocked(g, blocked, v, u) <==> blocked(u) || OpenPaths(g, blocked, v, u) == 0
  {
    if !AllBlocked(g, blocked, v, u) {
      var p :| IsPath(g, v, p, u) && !Meets(g, blocked, v, p);
      OpenPathCounted(g, blocked, v, p, u);
    } else if !blocked(u) && OpenPaths(g, blocked, v, u) > 0 {
      var p := OpenPathWitness(g, blocked, v, g.Degree(v), u);
    }
  }
}
