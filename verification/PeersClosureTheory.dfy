/** What the counters, the order and the flags of a peers closure mean in the module graph. */
module PeersClosureTheory {
  import opened ModuleGraph
  import opened PeersClosures

  /** Every node comes after all of its own descendants. */
  ghost predicate DescendantsFirst(g: Dag, order: seq<NodeId>) {
    forall i, u :: 0 <= i < |order| && Reaches(g, order[i], u) ==> u in order[..i]
  }

  ghost predicate Counts(g: Dag, v: NodeId, n: nat, c: Closure, u: NodeId)
    requires n <= g.Degree(v)
  {
    Holds(c, u, PathsVia(g, v, n, u))
  }

  /** `c` describes the paths that leave `v` by its first `n` edges. */
  ghost predicate Represents(g: Dag, v: NodeId, n: nat, c: Closure)
    requires n <= g.Degree(v)
  {
    && Listed(c)
    && DescendantsFirst(g, c.topSort)
    && forall u :: Counts(g, v, n, c, u)
  }

  /** Every count of paths from `v` fits the 31-bit field. */
  ghost predicate Fits(g: Dag, v: NodeId) {
    forall u :: Paths(g, v, u) < LIMIT31
  }

  // ---------------------------------------------------------------- merging

  function Wrap(x: nat): nat { x % LIMIT31 }

  lemma WrapSum(a: nat, b: nat)
    ensures Wrap(Wrap(a) + Wrap(b)) == Wrap(a + b) && Wrap(Wrap(a) + 1) == Wrap(a + 1) && Wrap(1) == 1
  {}

  lemma ScaledByOne(s: ClosureStats)
    requires s.pathCount < LIMIT31
    ensures Scaled(s, 1) == s
  {}

  lemma {:induction false} MergedOrder(g: Dag, into: Closure, peers: Closure, k: nat, n: nat)
    requires Listed(into) && Listed(peers) && n <= |peers.topSort|
    requires DescendantsFirst(g, into.topSort) && DescendantsFirst(g, peers.topSort)
    ensures DescendantsFirst(g, MergePeers(into, peers, k, n).topSort)
  {
    if n > 0 {
      MergedOrder(g, into, peers, k, n - 1);
      MergePeersOrder(into, peers, k, n - 1);
      var c, id := MergePeers(into, peers, k, n - 1), peers.topSort[n - 1];
      forall u | Reaches(g, id, u)
        ensures u in c.topSort
      {
        MergePeersEntry(into, peers, k, n - 1, u);
      }
      Extended(g, c.topSort, id);
    }
  }

  lemma Extended(g: Dag, order: seq<NodeId>, id: NodeId)
    requires DescendantsFirst(g, order)
    requires forall u :: Reaches(g, id, u) ==> u in order
    ensures DescendantsFirst(g, order + [id])
  {
    var longer := order + [id];
    forall i, u | 0 <= i < |longer| && Reaches(g, longer[i], u)
      ensures u in longer[..i]
    {
      assert longer[..i] == order[..i];
    }
  }

  /** The entry `c` holds for `u` stands for `a` paths. */
  ghost predicate Holds(c: Closure, u: NodeId, a: nat) {
    if a > 0 then u in c.stats && c.stats[u].pathCount == Wrap(a) else u !in c.stats
  }

  lemma EntryHolds(into: Closure, peers: Closure, all: Closure, u: NodeId, a: nat, b: nat)
    requires Holds(into, u, a) && Holds(peers, u, b)
    requires u in all.stats <==> u in into.stats || u in peers.stats
    requires u in all.stats ==> all.stats[u] == MergedEntry(into, peers, 1, u)
    ensures Holds(all, u, a + b)
  {
    WrapSum(a, b);
    if u in peers.stats { ScaledByOne(peers.stats[u]); }
  }

  lemma NodeHolds(all: Closure, node: NodeId, u: NodeId, a: nat)
    requires Holds(all, u, a)
    ensures Holds(MergeNode(all, node, 1), u, a + if u == node then 1 else 0)
  {
    WrapSum(a, 1);
  }

  lemma MergePeersHolds(into: Closure, peers: Closure, u: NodeId, a: nat, b: nat)
    requires Listed(peers) && Holds(into, u, a) && Holds(peers, u, b)
    ensures Holds(MergePeers(into, peers, 1, |peers.topSort|), u, a + b)
  {
    assert peers.topSort[..|peers.topSort|] == peers.topSort;
    MergePeersEntry(into, peers, 1, |peers.topSort|, u);
    EntryHolds(into, peers, MergePeers(into, peers, 1, |peers.topSort|), u, a, b);
  }

  lemma EdgeAdds(g: Dag, v: NodeId, n: nat, u: NodeId)
    requires n < g.Degree(v)
    ensures var d := g.Peers(v)[n];
      PathsVia(g, v, n + 1, u) == PathsVia(g, v, n, u) + Paths(g, d, u) + (if u == d then 1 else 0)
  {}

  /** Merging the closure of the next direct peer extends the description by that edge, for
      every graph: counters are exact modulo 2^31. */
  lemma MergeRepresents(g: Dag, v: NodeId, n: nat, c: Closure, peers: Closure)
    requires n < g.Degree(v) && Represents(g, v, n, c)
    requires Represents(g, g.Peers(v)[n], g.Degree(g.Peers(v)[n]), peers)
    ensures Represents(g, v, n + 1, Merged(c, g.Peers(v)[n], peers, 1))
  {
    var d := g.Peers(v)[n];
    var all := MergePeers(c, peers, 1, |peers.topSort|);
    MergePeersOrder(c, peers, 1, |peers.topSort|);
    MergedOrder(g, c, peers, 1, |peers.topSort|);
    forall u
      ensures CountsSplit(g, v, n, all, u)
    {
      assert Counts(g, v, n, c, u) && Counts(g, d, g.Degree(d), peers, u);
      MergePeersCounts(g, v, n, c, peers, u);
    }
    MergeNodeRepresents(g, v, n, all);
  }

  lemma MergePeersCounts(g: Dag, v: NodeId, n: nat, c: Closure, peers: Closure, u: NodeId)
    requires n < g.Degree(v) && Listed(peers) && Counts(g, v, n, c, u)
    requires Counts(g, g.Peers(v)[n], g.Degree(g.Peers(v)[n]), peers, u)
    ensures CountsSplit(g, v, n, MergePeers(c, peers, 1, |peers.topSort|), u)
  {
    MergePeersHolds(c, peers, u, PathsVia(g, v, n, u), Paths(g, g.Peers(v)[n], u));
  }

  /** Paths by the first `n` edges and paths from the next peer, together. */
  ghost predicate CountsSplit(g: Dag, v: NodeId, n: nat, c: Closure, u: NodeId)
    requires n < g.Degree(v)
  {
    Holds(c, u, PathsVia(g, v, n, u) + Paths(g, g.Peers(v)[n], u))
  }

  lemma MergeNodeRepresents(g: Dag, v: NodeId, n: nat, all: Closure)
    requires n < g.Degree(v) && Listed(all) && DescendantsFirst(g, all.topSort)
    requires forall u :: CountsSplit(g, v, n, all, u)
    ensures Represents(g, v, n + 1, MergeNode(all, g.Peers(v)[n], 1))
  {
    var d, m, r := g.Peers(v)[n], n + 1, MergeNode(all, g.Peers(v)[n], 1);
    forall u
      ensures Counts(g, v, m, r, u)
    {
      assert CountsSplit(g, v, n, all, u);
      EdgeAdds(g, v, n, u);
      NodeHolds(all, d, u, PathsVia(g, v, n, u) + Paths(g, d, u));
    }
    forall u | Reaches(g, d, u)
      ensures u in all.topSort
    {
      assert CountsSplit(g, v, n, all, u);
    }
    NodeOrder(g, all, d);
  }

  lemma NodeOrder(g: Dag, all: Closure, d: NodeId)
    requires Listed(all) && DescendantsFirst(g, all.topSort)
    requires forall u :: Reaches(g, d, u) ==> u in all.topSort
    ensures Listed(MergeNode(all, d, 1)) && DescendantsFirst(g, MergeNode(all, d, 1).topSort)
  {
    if d !in all.stats {
      assert d !in all.topSort;
      Extended(g, all.topSort, d);
    }
  }

  // ---------------------------------------------------------------- excluding

  lemma {:induction false} PeerPathsAtMost(g: Dag, v: NodeId, n: nat, w: NodeId, u: NodeId)
    requires n <= g.Degree(v) && PathsVia(g, v, n, w) > 0
    ensures Paths(g, w, u) <= PathsVia(g, v, n, u)
    decreases g.rank(v), n
  {
    var d := g.Peers(v)[n - 1];
    if PathsVia(g, v, n - 1, w) > 0 {
      PeerPathsAtMost(g, v, n - 1, w, u);
    } else if d != w {
      PeerPathsAtMost(g, d, g.Degree(d), w, u);
    }
  }

  lemma {:induction false} PathsThroughAtMost(g: Dag, blocked: NodeId -> bool, v: NodeId, n: nat, ws: seq<NodeId>, u: NodeId)
    requires n <= g.Degree(v) && Distinct(ws)
    ensures PathsThrough(g, blocked, v, n, ws, u) <= PathsVia(g, v, n, u)
    decreases g.rank(v), n
  {
    if n == 0 {
      NoOpenPaths(g, blocked, v, ws, u);
    } else {
      var d := g.Peers(v)[n - 1];
      PathsThroughAtMost(g, blocked, v, n - 1, ws, u);
      PathsThroughEdge(g, blocked, v, n, ws, u);
      PathsThroughAtMost(g, blocked, d, g.Degree(d), ws, u);
    }
  }

  /** The setting in which `Exclude` is called: exact closures of `v` and of its descendants. */
  ghost predicate Exact(g: Dag, v: NodeId, c: Closure, closures: map<NodeId, Closure>) {
    && Represents(g, v, g.Degree(v), c)
    && Fits(g, v)
    && forall w :: w in c.stats ==> w in closures && Represents(g, w, g.Degree(w), closures[w])
  }

  function Counted(ex: map<NodeId, nat>, u: NodeId): nat {
    if u in ex then ex[u] else 0
  }

  /** Value of the counter of `u` once the nodes `done` have been visited. */
  ghost function ExpectedCount(g: Dag, blocked: NodeId -> bool, v: NodeId, done: seq<NodeId>, u: NodeId): nat {
    if u in done && blocked(u) then Paths(g, v, u)
    else PathsThrough(g, blocked, v, g.Degree(v), done, u)
  }

  ghost predicate CountersExact(g: Dag, blocked: NodeId -> bool, v: NodeId, c: Closure, done: seq<NodeId>, ex: map<NodeId, nat>) {
    && ex.Keys <= c.stats.Keys
    && forall u :: Counted(ex, u) == ExpectedCount(g, blocked, v, done, u)
  }

  lemma ExpectedAtMostPaths(g: Dag, blocked: NodeId -> bool, v: NodeId, done: seq<NodeId>, u: NodeId)
    requires Distinct(done)
    ensures ExpectedCount(g, blocked, v, done, u) <= Paths(g, v, u)
  {
    PathsThroughAtMost(g, blocked, v, g.Degree(v), done, u);
  }

  /** The paths to `topSort[k]` that no earlier excluded node accounts for are the open ones. */
  lemma NewlyExcluded(g: Dag, blocked: NodeId -> bool, v: NodeId, c: Closure, k: nat)
    requires Represents(g, v, g.Degree(v), c) && k < |c.topSort|
    ensures var id, done := c.topSort[k], c.topSort[k + 1..];
      Paths(g, v, id) == OpenPaths(g, blocked, v, id) + ExpectedCount(g, blocked, v, done, id)
  {
    var id, done := c.topSort[k], c.topSort[k + 1..];
    forall w | blocked(w) && Reaches(g, v, w) && Reaches(g, w, id)
      ensures w in done
    {
      assert Counts(g, v, g.Degree(v), c, w);
      var j :| 0 <= j < |c.topSort| && c.topSort[j] == w;
      assert id in c.topSort[..j];
      assert w == done[j - k - 1];
    }
    FirstBlocked(g, blocked, v, g.Degree(v), done, id);
  }

  /** The arithmetic of one visit, on counters that fit. */
  lemma SpreadFits(ex: map<NodeId, nat>, peers: map<NodeId, ClosureStats>, paths: nat, u: NodeId, added: nat)
    requires added == if u in peers then paths * peers[u].pathCount else 0
    requires Counted(ex, u) + added < LIMIT32
    ensures Counted(Spread(ex, paths, peers), u) == Counted(ex, u) + added
  {}

  lemma ExcludedNodeCounts(ex: map<NodeId, nat>, peers: map<NodeId, ClosureStats>, id: NodeId, count: nat, paths: nat, u: NodeId, added: nat)
    requires id !in peers && paths < LIMIT32 && paths + Counted(ex, id) == count
    requires added == if u in peers then paths * peers[u].pathCount else 0
    requires Counted(ex, u) + added < LIMIT32
    ensures Counted(ExcludedNode(ex, id, count, peers), u) == if u == id then count else Counted(ex, u) + added
  {
    var marked := ex[id := count];
    if paths == 0 {
      assert ExcludedNode(ex, id, count, peers) == marked;
    } else {
      assert ExcludedNode(ex, id, count, peers) == Spread(marked, paths, peers);
      if u == id {
        assert Counted(Spread(marked, paths, peers), u) == count;
      } else {
        SpreadFits(marked, peers, paths, u, added);
      }
    }
  }

  /** Visiting one excluded node keeps the counters exact; nothing wraps on the way. */
  lemma CountersStep(g: Dag, blocked: NodeId -> bool, v: NodeId, c: Closure, closures: map<NodeId, Closure>, k: nat, ex: map<NodeId, nat>, u: NodeId)
    requires Exact(g, v, c, closures) && k < |c.topSort| && blocked(c.topSort[k])
    requires CountersExact(g, blocked, v, c, c.topSort[k + 1..], ex)
    ensures var id := c.topSort[k];
      Counted(ExcludedNode(ex, id, c.stats[id].pathCount, closures[id].stats), u)
      == ExpectedCount(g, blocked, v, c.topSort[k..], u)
  {
    var id, done := c.topSort[k], c.topSort[k + 1..];
    var count := EntryExact(g, v, c, closures, id);
    NewlyExcluded(g, blocked, v, c, k);
    assert Counted(ex, id) == ExpectedCount(g, blocked, v, done, id);
    assert Counted(ex, u) == ExpectedCount(g, blocked, v, done, u);
    var paths := OpenPaths(g, blocked, v, id);
    var added := Product(paths, Paths(g, id, u));
    PeerEntryExact(g, v, c, closures, id, u);
    ExpectedStep(g, blocked, v, c.topSort, k, u, added);
    ExpectedAtMostPaths(g, blocked, v, c.topSort[k..], u);
    if u == id { NoCycle(g, id); ExpectedAtMostPaths(g, blocked, v, done, u); }
    ExcludedNodeCounts(ex, closures[id].stats, id, count, paths, u, added);
  }

  lemma Product(a: nat, b: nat) returns (p: nat)
    ensures p == a * b && (b == 0 ==> p == 0)
  {
    p := a * b;
  }

  lemma EntryExact(g: Dag, v: NodeId, c: Closure, closures: map<NodeId, Closure>, id: NodeId) returns (count: nat)
    requires Exact(g, v, c, closures) && id in c.stats
    ensures count == c.stats[id].pathCount == Paths(g, v, id) && count > 0
  {
    count := Paths(g, v, id);
    assert Counts(g, v, g.Degree(v), c, id);
  }

  lemma HoldsExactly(c: Closure, u: NodeId, a: nat)
    requires Holds(c, u, a) && a < LIMIT31
    ensures if u in c.stats then c.stats[u].pathCount == a > 0 else a == 0
  {}

  lemma PeerEntryExact(g: Dag, v: NodeId, c: Closure, closures: map<NodeId, Closure>, id: NodeId, u: NodeId)
    requires Exact(g, v, c, closures) && id in c.stats
    ensures id !in closures[id].stats
    ensures var peers := closures[id].stats;
      if u in peers then peers[u].pathCount == Paths(g, id, u) else Paths(g, id, u) == 0
    ensures u in closures[id].stats ==> u in c.stats
  {
    NoCycle(g, id);
    assert Counts(g, id, g.Degree(id), closures[id], id) && Counts(g, id, g.Degree(id), closures[id], u);
    assert Counts(g, v, g.Degree(v), c, id) && Counts(g, v, g.Degree(v), c, u);
    PeerPathsAtMost(g, v, g.Degree(v), id, u);
    assert Paths(g, v, u) < LIMIT31;
    HoldsExactly(closures[id], u, Paths(g, id, u));
  }

  lemma VisitedBefore(g: Dag, order: seq<NodeId>, k: nat, u: NodeId)
    requires DescendantsFirst(g, order) && Distinct(order) && k < |order| && u in order[k..]
    ensures !Reaches(g, order[k], u)
  {
    assert u !in order[..k];
  }

  lemma PathsThroughFirst(g: Dag, blocked: NodeId -> bool, v: NodeId, order: seq<NodeId>, k: nat, u: NodeId)
    requires k < |order| && blocked(order[k])
    ensures PathsThrough(g, blocked, v, g.Degree(v), order[k..], u)
         == PathsThrough(g, blocked, v, g.Degree(v), order[k + 1..], u) + OpenPaths(g, blocked, v, order[k]) * Paths(g, order[k], u)
  {
    assert order[k..][1..] == order[k + 1..];
  }

  /** How the expected count of `u` grows when the blocked node `order[k]` is visited. */
  lemma ExpectedStep(g: Dag, blocked: NodeId -> bool, v: NodeId, order: seq<NodeId>, k: nat, u: NodeId, added: nat)
    requires DescendantsFirst(g, order) && Distinct(order) && k < |order| && blocked(order[k])
    requires added == OpenPaths(g, blocked, v, order[k]) * Paths(g, order[k], u)
    ensures ExpectedCount(g, blocked, v, order[k..], u) ==
      if u == order[k] then Paths(g, v, u)
      else ExpectedCount(g, blocked, v, order[k + 1..], u) + added
  {
    assert order[k..] == [order[k]] + order[k + 1..];
    if u != order[k] {
      PathsThroughFirst(g, blocked, v, order, k, u);
      if u in order[k + 1..] {
        VisitedBefore(g, order, k, u);
        ZeroProduct(OpenPaths(g, blocked, v, order[k]), added);
      }
    }
  }

  lemma ZeroProduct(a: nat, p: nat)
    requires p == a * 0
    ensures p == 0
  {}

  /** At every step of the loop the counters are exact. */
  lemma {:induction false} CountersAlwaysExact(g: Dag, blocked: NodeId -> bool, v: NodeId, c: Closure, closures: map<NodeId, Closure>, k: nat)
    requires Exact(g, v, c, closures) && k <= |c.topSort|
    ensures CountersExact(g, blocked, v, c, c.topSort[k..], ExcludedPaths(c, blocked, closures, k))
    decreases |c.topSort| - k
  {
    if k < |c.topSort| {
      CountersAlwaysExact(g, blocked, v, c, closures, k + 1);
      var before, id := ExcludedPaths(c, blocked, closures, k + 1), c.topSort[k];
      if blocked(id) {
        assert id in closures;
        BlockedStep(g, blocked, v, c, closures, k, before);
      } else {
        forall u
          ensures Counted(before, u) == ExpectedCount(g, blocked, v, c.topSort[k..], u)
        {
          UnblockedStep(g, blocked, v, c.topSort, k, u);
        }
      }
    } else {
      assert c.topSort[k..] == [];
    }
  }

  lemma BlockedStep(g: Dag, blocked: NodeId -> bool, v: NodeId, c: Closure, closures: map<NodeId, Closure>, k: nat, ex: map<NodeId, nat>)
    requires Exact(g, v, c, closures) && k < |c.topSort| && blocked(c.topSort[k])
    requires CountersExact(g, blocked, v, c, c.topSort[k + 1..], ex)
    ensures var id := c.topSort[k];
      CountersExact(g, blocked, v, c, c.topSort[k..], ExcludedNode(ex, id, c.stats[id].pathCount, closures[id].stats))
  {
    var id := c.topSort[k];
    var now := ExcludedNode(ex, id, c.stats[id].pathCount, closures[id].stats);
    forall u | u in now
      ensures u in c.stats
    {
      assert u in ex || u == id || u in closures[id].stats;
      if u in closures[id].stats { PeerEntryExact(g, v, c, closures, id, u); }
    }
    forall u
      ensures Counted(now, u) == ExpectedCount(g, blocked, v, c.topSort[k..], u)
    {
      CountersStep(g, blocked, v, c, closures, k, ex, u);
    }
  }

  lemma UnblockedStep(g: Dag, blocked: NodeId -> bool, v: NodeId, order: seq<NodeId>, k: nat, u: NodeId)
    requires k < |order| && !blocked(order[k])
    ensures ExpectedCount(g, blocked, v, order[k..], u) == ExpectedCount(g, blocked, v, order[k + 1..], u)
  {
    assert order[k..] == [order[k]] + order[k + 1..] && order[k..][1..] == order[k + 1..];
  }

  /** No overflow: whatever part of the order has been visited, no counter exceeds the path
      count of its node, and every counter belongs to a node of the closure. */
  lemma CountersBounded(g: Dag, blocked: NodeId -> bool, v: NodeId, c: Closure, closures: map<NodeId, Closure>, k: nat, u: NodeId)
    requires Exact(g, v, c, closures) && k <= |c.topSort|
    requires u in ExcludedPaths(c, blocked, closures, k)
    ensures u in c.stats && ExcludedPaths(c, blocked, closures, k)[u] <= c.stats[u].pathCount
  {
    var ex := ExcludedPaths(c, blocked, closures, k);
    CountersAlwaysExact(g, blocked, v, c, closures, k);
    ExpectedAtMostPaths(g, blocked, v, c.topSort[k..], u);
    assert Counted(ex, u) == ExpectedCount(g, blocked, v, c.topSort[k..], u);
    var _ := EntryExact(g, v, c, closures, u);
  }

  /** The subtraction at an excluded node: what is not accounted for yet are its open paths. */
  lemma NothingUnderflows(g: Dag, blocked: NodeId -> bool, v: NodeId, c: Closure, closures: map<NodeId, Closure>, k: nat)
    requires Exact(g, v, c, closures) && k < |c.topSort|
    ensures var ex, id := ExcludedPaths(c, blocked, closures, k + 1), c.topSort[k];
      Counted(ex, id) <= c.stats[id].pathCount && c.stats[id].pathCount - Counted(ex, id) == OpenPaths(g, blocked, v, id)
  {
    var ex, id := ExcludedPaths(c, blocked, closures, k + 1), c.topSort[k];
    CountersAlwaysExact(g, blocked, v, c, closures, k + 1);
    NewlyExcluded(g, blocked, v, c, k);
    assert Counted(ex, id) == ExpectedCount(g, blocked, v, c.topSort[k + 1..], id);
    var _ := EntryExact(g, v, c, closures, id);
  }

  /** The products and sums at an excluded node: none of them reaches 2^31. */
  lemma NothingWraps(g: Dag, blocked: NodeId -> bool, v: NodeId, c: Closure, closures: map<NodeId, Closure>, k: nat, u: NodeId)
    requires Exact(g, v, c, closures) && k < |c.topSort| && blocked(c.topSort[k])
    requires u in closures[c.topSort[k]].stats
    ensures var (ex, id) := (ExcludedPaths(c, blocked, closures, k + 1), c.topSort[k]);
      && Counted(ex, id) <= c.stats[id].pathCount
      && Counted(ex, u) + (c.stats[id].pathCount - Counted(ex, id)) * closures[id].stats[u].pathCount < LIMIT31
  {
    var ex, id := ExcludedPaths(c, blocked, closures, k + 1), c.topSort[k];
    NothingUnderflows(g, blocked, v, c, closures, k);
    var paths := OpenPaths(g, blocked, v, id);
    PeerEntryExact(g, v, c, closures, id, u);
    var added := Product(paths, Paths(g, id, u));
    assert Counted(ex, u) + added < LIMIT31 by { GrowthFits(g, blocked, v, c, closures, k, u, added); }
    SameProduct(c.stats[id].pathCount - Counted(ex, id), closures[id].stats[u].pathCount, paths, Paths(g, id, u), added);
  }

  lemma SameProduct(a: nat, b: nat, c: nat, d: nat, p: nat)
    requires a == c && b == d && p == c * d
    ensures a * b == p
  {}

  lemma GrowthFits(g: Dag, blocked: NodeId -> bool, v: NodeId, c: Closure, closures: map<NodeId, Closure>, k: nat, u: NodeId, added: nat)
    requires Exact(g, v, c, closures) && k < |c.topSort| && blocked(c.topSort[k]) && u != c.topSort[k]
    requires added == OpenPaths(g, blocked, v, c.topSort[k]) * Paths(g, c.topSort[k], u)
    ensures Counted(ExcludedPaths(c, blocked, closures, k + 1), u) + added < LIMIT31
  {
    var ex := ExcludedPaths(c, blocked, closures, k + 1);
    CountersAlwaysExact(g, blocked, v, c, closures, k + 1);
    assert Counted(ex, u) == ExpectedCount(g, blocked, v, c.topSort[k + 1..], u);
    ExpectedStep(g, blocked, v, c.topSort, k, u, added);
    ExpectedAtMostPaths(g, blocked, v, c.topSort[k..], u);
    assert Paths(g, v, u) < LIMIT31;
  }

  /** Exclusion by counting is exact: a node is marked if it was, or if every path to it meets
      an excluded node.  Counters and order stay as they were. */
  lemma ExcludeExact(g: Dag, blocked: NodeId -> bool, v: NodeId, c: Closure, closures: map<NodeId, Closure>, u: NodeId)
    requires Exact(g, v, c, closures) && u in c.stats
    ensures var r := Excluding(c, blocked, closures);
      && r.topSort == c.topSort && r.stats.Keys == c.stats.Keys
      && r.stats[u].pathCount == c.stats[u].pathCount
      && (r.stats[u].excluded <==> c.stats[u].excluded || AllBlocked(g, blocked, v, u))
  {
    var ex := ExcludedPaths(c, blocked, closures, 0);
    CountersAlwaysExact(g, blocked, v, c, closures, 0);
    assert c.topSort[0..] == c.topSort;
    assert Counted(ex, u) == ExpectedCount(g, blocked, v, c.topSort, u);
    var _ := EntryExact(g, v, c, closures, u);
    AllBlockedByCount(g, blocked, v, u);
    if !blocked(u) { AllVisited(g, blocked, v, c, u); }
  }

  /** Once all nodes are visited, what a counter lacks to the path count are the open paths. */
  lemma AllVisited(g: Dag, blocked: NodeId -> bool, v: NodeId, c: Closure, u: NodeId)
    requires Represents(g, v, g.Degree(v), c) && !blocked(u)
    ensures Paths(g, v, u) == OpenPaths(g, blocked, v, u) + ExpectedCount(g, blocked, v, c.topSort, u)
  {
    forall w | Reaches(g, v, w)
      ensures w in c.topSort
    {
      assert Counts(g, v, g.Degree(v), c, w);
    }
    FirstBlocked(g, blocked, v, g.Degree(v), c.topSort, u);
  }
}
