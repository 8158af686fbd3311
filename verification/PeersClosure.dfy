/** The transitive closure of a module's managed peers: for every peer a path counter and an
    "excluded on every path" flag, plus a stable order in which peers follow their own peers.

    Counters are kept in 31 bits and intermediate products in 32 bits, as in the packed record
    of the original; both wrap. */
module PeersClosures {
  import opened ModuleGraph

  const LIMIT31: nat := 0x8000_0000
  const LIMIT32: nat := 0x1_0000_0000

  datatype ClosureStats = ClosureStats(excluded: bool, pathCount: nat)

  datatype Closure = Closure(stats: map<NodeId, ClosureStats>, topSort: seq<NodeId>) {
    predicate Contains(id: NodeId) {
      id in stats && !stats[id].excluded
    }
  }

  const EMPTY := Closure(map[], [])

  /** The order lists every key of the table once. */
  ghost predicate Listed(c: Closure) {
    Distinct(c.topSort) && forall u :: u in c.topSort <==> u in c.stats
  }

  // ---------------------------------------------------------------- specification of Merge

  function Scaled(s: ClosureStats, k: nat): ClosureStats {
    s.(pathCount := s.pathCount * k % LIMIT31)
  }

  function Both(a: ClosureStats, b: ClosureStats): ClosureStats {
    ClosureStats(a.excluded && b.excluded, (a.pathCount + b.pathCount) % LIMIT31)
  }

  function MergeEntry(c: Closure, id: NodeId, s: ClosureStats): Closure {
    if id in c.stats then c.(stats := c.stats[id := Both(c.stats[id], s)])
    else Closure(c.stats[id := s], c.topSort + [id])
  }

  /** The first `n` entries of `peers`, in its stable order, merged into `into`. */
  function MergePeers(into: Closure, peers: Closure, k: nat, n: nat): Closure
    requires n <= |peers.topSort| && forall u :: u in peers.topSort ==> u in peers.stats
  {
    if n == 0 then into
    else
      var id := peers.topSort[n - 1];
      MergeEntry(MergePeers(into, peers, k, n - 1), id, Scaled(peers.stats[id], k))
  }

  function MergeNode(c: Closure, node: NodeId, k: nat): Closure {
    if node in c.stats then
      c.(stats := c.stats[node := ClosureStats(false, (c.stats[node].pathCount + k) % LIMIT31)])
    else
      Closure(c.stats[node := ClosureStats(false, k % LIMIT31)], c.topSort + [node])
  }

  function Merged(into: Closure, node: NodeId, peers: Closure, k: nat): Closure
    requires forall u :: u in peers.topSort ==> u in peers.stats
  {
    MergeNode(MergePeers(into, peers, k, |peers.topSort|), node, k)
  }

  /** The merged entry of one node. */
  function MergedEntry(into: Closure, peers: Closure, k: nat, u: NodeId): ClosureStats
    requires u in into.stats || u in peers.stats
  {
    if u !in peers.stats then into.stats[u]
    else if u !in into.stats then Scaled(peers.stats[u], k)
    else Both(into.stats[u], Scaled(peers.stats[u], k))
  }

  /** What a merged prefix holds for one node. */
  lemma {:induction false} MergePeersEntry(into: Closure, peers: Closure, k: nat, n: nat, u: NodeId)
    requires Listed(peers) && n <= |peers.topSort|
    ensures var c := MergePeers(into, peers, k, n);
      && (u in c.stats <==> u in into.stats || u in peers.topSort[..n])
      && (u in c.stats ==> c.stats[u] == if u in peers.topSort[..n] then MergedEntry(into, peers, k, u) else into.stats[u])
  {
    if n > 0 {
      MergePeersEntry(into, peers, k, n - 1, u);
      var id := peers.topSort[n - 1];
      assert id !in peers.topSort[..n - 1];
      assert peers.topSort[..n] == peers.topSort[..n - 1] + [id];
    }
  }

  /** The order of `into` is kept and extended by the peers it lacks. */
  lemma {:induction false} MergePeersOrder(into: Closure, peers: Closure, k: nat, n: nat)
    requires Listed(into) && Listed(peers) && n <= |peers.topSort|
    ensures Listed(MergePeers(into, peers, k, n))
    ensures into.topSort <= MergePeers(into, peers, k, n).topSort
  {
    if n > 0 {
      MergePeersOrder(into, peers, k, n - 1);
      var c, id := MergePeers(into, peers, k, n - 1), peers.topSort[n - 1];
      if id !in c.stats { assert id !in c.topSort; }
    }
  }

  lemma MergedListed(into: Closure, node: NodeId, peers: Closure, k: nat)
    requires Listed(into) && Listed(peers)
    ensures Listed(Merged(into, node, peers, k))
  {
    MergePeersOrder(into, peers, k, |peers.topSort|);
    var c := MergePeers(into, peers, k, |peers.topSort|);
    if node !in c.stats { assert node !in c.topSort; }
  }

  /** A peer survives a merge exactly when it survives in one of the parts or is the new node. */
  lemma MergedContains(into: Closure, node: NodeId, peers: Closure, k: nat, u: NodeId)
    requires Listed(into) && Listed(peers)
    ensures Merged(into, node, peers, k).Contains(u) <==> u == node || into.Contains(u) || peers.Contains(u)
  {
    MergePeersEntry(into, peers, k, |peers.topSort|, u);
    assert peers.topSort[..|peers.topSort|] == peers.topSort;
  }

  // ---------------------------------------------------------------- specification of Exclude

  function Spread(ex: map<NodeId, nat>, paths: nat, peers: map<NodeId, ClosureStats>): map<NodeId, nat> {
    map u | u in ex.Keys + peers.Keys ::
      if u !in peers then ex[u]
      else ((if u in ex then ex[u] else 0) + paths * peers[u].pathCount) % LIMIT32
  }

  /** What visiting an excluded node does to the counters of excluded paths. */
  function ExcludedNode(ex: map<NodeId, nat>, id: NodeId, count: nat, peers: map<NodeId, ClosureStats>): map<NodeId, nat> {
    var paths := if id in ex then (count - ex[id]) % LIMIT32 else count;
    if paths == 0 then ex[id := count] else Spread(ex[id := count], paths, peers)
  }

  /** The counters after the nodes `topSort[k..]` have been visited, last one first. */
  function ExcludedPaths(c: Closure, excluded: NodeId -> bool, closures: map<NodeId, Closure>, k: nat): map<NodeId, nat>
    requires k <= |c.topSort| && forall u :: u in c.topSort ==> u in c.stats
    decreases |c.topSort| - k
  {
    if k == |c.topSort| then map[]
    else
      var ex, id := ExcludedPaths(c, excluded, closures, k + 1), c.topSort[k];
      if excluded(id) && id in closures then ExcludedNode(ex, id, c.stats[id].pathCount, closures[id].stats) else ex
  }

  function Excluding(c: Closure, excluded: NodeId -> bool, closures: map<NodeId, Closure>): Closure
    requires forall u :: u in c.topSort ==> u in c.stats
  {
    var ex := ExcludedPaths(c, excluded, closures, 0);
    c.(stats := map u | u in c.stats ::
        c.stats[u].(excluded := c.stats[u].excluded || (u in c.topSort && excluded(u))
                                || (u in ex && ex[u] == c.stats[u].pathCount)))
  }

  // ---------------------------------------------------------------- the mutable closure

  class PeersClosure {
    var stats: map<NodeId, ClosureStats>
    var topSort: seq<NodeId>

    function Value(): Closure
      reads this
    {
      Closure(stats, topSort)
    }

    constructor ()
      ensures Value() == EMPTY
    {
      stats, topSort := map[], [];
    }

    constructor Of(c: Closure)
      ensures Value() == c
    {
      stats, topSort := c.stats, c.topSort;
    }

    method Merge(node: NodeId, closure: PeersClosure, pathsCount: nat)
      requires closure != this && Listed(Value()) && Listed(closure.Value())
      modifies this
      ensures Value() == Merged(old(Value()), node, closure.Value(), pathsCount)
      ensures Listed(Value())
    {
      ghost var was, peers := Value(), closure.Value();
      for i := 0 to |closure.topSort|
        invariant closure.Value() == peers
        invariant Value() == MergePeers(was, peers, pathsCount, i)
      {
        var id := closure.topSort[i];
        var mergedStats := Scaled(closure.stats[id], pathsCount);
        if id in stats {
          stats := stats[id := Both(stats[id], mergedStats)];
        } else {
          stats := stats[id := mergedStats];
          topSort := topSort + [id];
        }
      }
      if node in stats {
        stats := stats[node := ClosureStats(false, (stats[node].pathCount + pathsCount) % LIMIT31)];
      } else {
        stats := stats[node := ClosureStats(false, pathsCount % LIMIT31)];
        topSort := topSort + [node];
      }
      MergedListed(was, node, peers, pathsCount);
    }

    /** Requires what the original needs not to fail: an excluded node has a known closure, all
        of whose nodes this closure knows too. */
    method Exclude(predicate_: NodeId -> bool, nodeClosure: map<NodeId, Closure>) returns (res: PeersClosure)
      requires Listed(Value())
      requires forall id :: id in stats && predicate_(id) ==>
                 id in nodeClosure && nodeClosure[id].stats.Keys <= stats.Keys
      ensures fresh(res)
      ensures res.Value() == Excluding(Value(), predicate_, nodeClosure)
      ensures Listed(res.Value())
    {
      var resStats, visited, excludedPaths := Scan(Value(), predicate_, nodeClosure);
      ExcludingEntries(Value(), predicate_, nodeClosure, excludedPaths);
      var exhausted := MarkExhausted(resStats, excludedPaths);
      assert exhausted == Excluding(Value(), predicate_, nodeClosure).stats;
      res := new PeersClosure();
      res.topSort := seq(|visited|, i requires 0 <= i < |visited| => visited[|visited| - 1 - i]);
      res.stats := exhausted;
      assert res.topSort == topSort;
    }
  }

  lemma ExcludingEntries(c: Closure, excluded: NodeId -> bool, closures: map<NodeId, Closure>, ex: map<NodeId, nat>)
    requires Listed(c) && ex == ExcludedPaths(c, excluded, closures, 0)
    ensures var m, r := MarkedStats(c, excluded, 0), Excluding(c, excluded, closures).stats;
      && m.Keys == r.Keys == c.stats.Keys
      && forall u :: u in r ==> r[u] == m[u].(excluded := m[u].excluded || (u in ex && ex[u] == m[u].pathCount))
  {
    MarkedStatsEntries(c, excluded, 0);
    assert c.topSort[0..] == c.topSort;
  }

  /** The main loop of `Exclude`: nodes are visited before their own peers. */
  method Scan(c: Closure, predicate_: NodeId -> bool, nodeClosure: map<NodeId, Closure>)
    returns (resStats: map<NodeId, ClosureStats>, visited: seq<NodeId>, excludedPaths: map<NodeId, nat>)
    requires Listed(c)
    requires forall id :: id in c.stats && predicate_(id) ==>
               id in nodeClosure && nodeClosure[id].stats.Keys <= c.stats.Keys
    ensures resStats == MarkedStats(c, predicate_, 0)
    ensures |visited| == |c.topSort| && forall i :: 0 <= i < |visited| ==> visited[i] == c.topSort[|c.topSort| - 1 - i]
    ensures excludedPaths == ExcludedPaths(c, predicate_, nodeClosure, 0)
    ensures excludedPaths.Keys <= c.stats.Keys
  {
    resStats, visited, excludedPaths := map[], [], map[];
    var k := |c.topSort|;
    while k > 0
      invariant 0 <= k <= |c.topSort| && |visited| == |c.topSort| - k
      invariant forall i :: 0 <= i < |visited| ==> visited[i] == c.topSort[|c.topSort| - 1 - i]
      invariant resStats == MarkedStats(c, predicate_, k)
      invariant excludedPaths == ExcludedPaths(c, predicate_, nodeClosure, k)
      invariant excludedPaths.Keys <= c.stats.Keys
    {
      k := k - 1;
      var id := c.topSort[k];
      var stat := c.stats[id];
      visited := visited + [id];
      if predicate_(id) {
        stat := stat.(excluded := true);
        excludedPaths := ExcludeNode(excludedPaths, id, stat.pathCount, nodeClosure[id].stats);
      }
      resStats := resStats[id := stat];
    }
  }

  /** One excluded node of `Exclude`: the paths to it that were not excluded before are
      charged to every node behind it. */
  method ExcludeNode(ex: map<NodeId, nat>, id: NodeId, pathCount: nat, peers: map<NodeId, ClosureStats>) returns (r: map<NodeId, nat>)
    ensures r == ExcludedNode(ex, id, pathCount, peers)
    ensures r.Keys <= ex.Keys + {id} + peers.Keys
  {
    var newExcludes := pathCount;
    if id in ex {
      newExcludes := (pathCount - ex[id]) % LIMIT32;
    }
    r := ex[id := pathCount];
    if newExcludes != 0 {
      r := AddExcludedPaths(r, newExcludes, peers);
    }
  }

  /** The entries `topSort[k..]`, with the nodes that satisfy the predicate marked. */
  function MarkedStats(c: Closure, excluded: NodeId -> bool, k: nat): map<NodeId, ClosureStats>
    requires k <= |c.topSort| && forall u :: u in c.topSort ==> u in c.stats
    decreases |c.topSort| - k
  {
    if k == |c.topSort| then map[]
    else
      var id := c.topSort[k];
      var stat := if excluded(id) then c.stats[id].(excluded := true) else c.stats[id];
      MarkedStats(c, excluded, k + 1)[id := stat]
  }

  lemma {:induction false} MarkedStatsEntries(c: Closure, excluded: NodeId -> bool, k: nat)
    requires k <= |c.topSort| && forall u :: u in c.topSort ==> u in c.stats
    ensures var m := MarkedStats(c, excluded, k);
      && (forall u :: u in m <==> u in c.topSort[k..])
      && (forall u :: u in m ==> m[u] == c.stats[u].(excluded := c.stats[u].excluded || excluded(u)))
    decreases |c.topSort| - k
  {
    if k < |c.topSort| {
      MarkedStatsEntries(c, excluded, k + 1);
      assert c.topSort[k..] == [c.topSort[k]] + c.topSort[k + 1..];
    }
  }

  /** The last loop of `Exclude`: a node whose every path is excluded is marked. */
  method MarkExhausted(stats: map<NodeId, ClosureStats>, excludedPaths: map<NodeId, nat>) returns (r: map<NodeId, ClosureStats>)
    requires excludedPaths.Keys <= stats.Keys
    ensures r.Keys == stats.Keys
    ensures forall u :: u in stats ==> r[u] == stats[u].(excluded := stats[u].excluded
              || (u in excludedPaths && excludedPaths[u] == stats[u].pathCount))
  {
    r := stats;
    var rest := excludedPaths.Keys;
    while rest != {}
      invariant rest <= excludedPaths.Keys && r.Keys == stats.Keys
      invariant forall u :: u in stats ==> r[u] == stats[u].(excluded := stats[u].excluded
                  || (u in excludedPaths && u !in rest && excludedPaths[u] == stats[u].pathCount))
      decreases rest
    {
      var id :| id in rest;
      if r[id].pathCount == excludedPaths[id] {
        r := r[id := r[id].(excluded := true)];
      }
      rest := rest - {id};
    }
  }

  /** The inner loop of `Exclude`; the table is visited in arbitrary order. */
  method AddExcludedPaths(ex: map<NodeId, nat>, paths: nat, peers: map<NodeId, ClosureStats>) returns (r: map<NodeId, nat>)
    ensures r == Spread(ex, paths, peers)
    ensures r.Keys == ex.Keys + peers.Keys
  {
    r := map u | u in ex :: ex[u];
    var rest := peers.Keys;
    while rest != {}
      invariant rest <= peers.Keys
      invariant r.Keys == ex.Keys + (peers.Keys - rest)
      invariant forall u :: u in r ==>
        r[u] == if u in peers && u !in rest
                then ((if u in ex then ex[u] else 0) + paths * peers[u].pathCount) % LIMIT32
                else ex[u]
      decreases rest
    {
      var peer :| peer in rest;
      var seen := if peer in r then r[peer] else 0;
      r := r[peer := (seen + paths * peers[peer].pathCount) % LIMIT32];
      rest := rest - {peer};
    }
  }
}
